/**
 * The remote service as the adapters see it: a map from locations (resource type and
 * positive ID) to resources, the ownership tag, and the cache of IDs. Every request may
 * fail, in which case it has no effect; which ones do is an input.
 */
module Remote {
  import opened Common
  import opened Sync

  datatype Key<R> = Key(rtype: R, name: string)
  datatype Loc<R> = Loc(rtype: R, id: int)
  datatype Resource<R, B> = Resource(key: Key<R>, tags: seq<int>, body: B)
  type Store<R(==), B> = map<Loc<R>, Resource<R, B>>

  // ----- Ownership and the by-name view of a store -----

  predicate Owned<R, P, B>(kd: Kind<R, P, B>, tag: int, r: Resource<R, B>) {
    !kd.filtered(r.key.rtype) || tag in r.tags
  }

  ghost predicate WellTyped<R, B>(st: Store<R, B>) {
    forall l :: l in st ==> l.rtype == st[l].key.rtype && l.id > 0
  }

  ghost predicate Holds<R, P, B>(kd: Kind<R, P, B>, tag: int, st: Store<R, B>, l: Loc<R>, k: Key<R>) {
    l in st && Owned(kd, tag, st[l]) && st[l].key == k
  }

  ghost predicate UniqueNames<R(!new), P, B>(kd: Kind<R, P, B>, tag: int, st: Store<R, B>) {
    forall l, m, k :: Holds(kd, tag, st, l, k) && Holds(kd, tag, st, m, k) ==> l == m
  }

  ghost function OwnedKeys<R, P, B>(kd: Kind<R, P, B>, tag: int, st: Store<R, B>): set<Key<R>> {
    set l | l in st && Owned(kd, tag, st[l]) :: st[l].key
  }

  ghost function Locate<R, P, B>(kd: Kind<R, P, B>, tag: int, st: Store<R, B>, k: Key<R>): (l: Loc<R>)
    requires k in OwnedKeys(kd, tag, st)
    ensures Holds(kd, tag, st, l, k)
  {
    var l :| l in st && Owned(kd, tag, st[l]) && st[l].key == k;
    l
  }

  ghost function View<R, P, B>(kd: Kind<R, P, B>, tag: int, st: Store<R, B>): map<Key<R>, P> {
    map k | k in OwnedKeys(kd, tag, st) :: kd.read(st[Locate(kd, tag, st, k)].body)
  }

  /** Resources the operator does not own are as before, and it adds none of that sort. */
  ghost predicate ForeignKept<R, P, B>(kd: Kind<R, P, B>, tag: int, before: Store<R, B>, after: Store<R, B>) {
    && (forall l :: l in before && !Owned(kd, tag, before[l]) ==> l in after && after[l] == before[l])
    && (forall l :: l in after && l !in before ==> Owned(kd, tag, after[l]))
    && (forall l :: l in after && l in before && Owned(kd, tag, before[l]) ==> Owned(kd, tag, after[l]))
  }

  function Written<R, P, B>(kd: Kind<R, P, B>, tag: int, key: Key<R>, p: P): Resource<R, B> {
    Resource(key, if kd.filtered(key.rtype) then [tag] else [], kd.build(p))
  }

  // ----- The remote service -----

  /**
   * How the service answers when the tag is ensured: whether the lookup goes through, and whether creating the
   * label does.
   */
  datatype TagEnv = TagEnv(found: bool, created: bool)

  predicate Ensurable(tag: Option<int>, e: TagEnv) {
    (e.found && tag.Some?) || e.created
  }

  /**
   * How the service answers the requests about resources that one reconcile makes: reading the tag, the list of
   * each type, the list by which a missing ID is looked up, and the one write there can be for each name.
   */
  datatype Answers<!R> = Answers(tagRead: bool, lists: R -> bool, relists: R -> bool, writes: Key<R> -> bool)

  /** A listing holds exactly the resources of one type. */
  ghost predicate IsListing<R(!new), B(!new)>(st: Store<R, B>, rtype: R, found: seq<(Loc<R>, Resource<R, B>)>) {
    && (forall i :: 0 <= i < |found| ==> var (l, r) := found[i]; l.rtype == rtype && l in st && st[l] == r)
    && (forall l :: l in st && l.rtype == rtype ==> (l, st[l]) in found)
  }

  class Server<R(==,!new), B(!new)> {
    var tag: Option<int>  // the ID of the ownership tag, once it exists
    var store: Store<R, B>
    var nextId: int

    ghost predicate Valid()
      reads this
    {
      WellTyped(store) && nextId > 0 && forall l :: l in store ==> l.id < nextId
    }

    constructor ()
      ensures Valid() && store == map[] && tag == None
    {
      tag, store, nextId := None, map[], 1;
    }

    method GetTag(ok: bool) returns (t: Option<int>)
      ensures t == if ok then tag else None
    {
      t := if ok then tag else None;
    }

    /** Creating a label that exists yields its ID; a new label gets an ID that no resource carries. */
    method EnsureTag(e: TagEnv) returns (t: Option<int>)
      requires Valid()
      modifies this`tag
      ensures Valid()
      ensures t.Some? <==> (e.found && old(tag).Some?) || e.created
      ensures t.Some? <==> Ensurable(old(tag), e)
      ensures old(tag).Some? ==> tag == old(tag)
      ensures t.Some? ==> t == tag
      ensures t.None? ==> tag == old(tag)
      ensures old(tag).None? && t.Some? ==> forall l :: l in store ==> t.value !in store[l].tags
    {
      t := if e.found then tag else None;
      if t.None? && e.created {
        if tag.None? {
          var unused := UnusedTag();
          tag := Some(unused);
        }
        t := tag;
      }
    }

    method UnusedTag() returns (t: int)
      ensures forall l :: l in store ==> t !in store[l].tags
    {
      t := 1;
      var todo := store.Keys;
      while todo != {}
        invariant todo <= store.Keys
        invariant forall l, i :: l in store && l !in todo && 0 <= i < |store[l].tags| ==> store[l].tags[i] < t
      {
        var l :| l in todo;
        var tags := store[l].tags;
        for i := 0 to |tags|
          invariant forall m, j :: m in store && m !in todo && 0 <= j < |store[m].tags| ==> store[m].tags[j] < t
          invariant forall j :: 0 <= j < i ==> tags[j] < t
        {
          if tags[i] >= t { t := tags[i] + 1; }
        }
        todo := todo - {l};
      }
    }

    /** GET of all resources of one type, in whatever order the service lists them. */
    method List(rtype: R, ok: bool) returns (found: Option<seq<(Loc<R>, Resource<R, B>)>>)
      ensures found.Some? <==> ok
      ensures found.Some? ==> IsListing(store, rtype, found.value)
    {
      if !ok { return None; }
      var listed: seq<(Loc<R>, Resource<R, B>)> := [];
      var todo := set l | l in store && l.rtype == rtype;
      while todo != {}
        invariant todo <= store.Keys && forall l :: l in todo ==> l.rtype == rtype
        invariant forall i :: 0 <= i < |listed| ==>
                    listed[i].0.rtype == rtype && listed[i].0 in store && store[listed[i].0] == listed[i].1
        invariant forall l :: l in store && l.rtype == rtype && l !in todo ==> (l, store[l]) in listed
      {
        var l :| l in todo;
        listed := listed + [(l, store[l])];
        todo := todo - {l};
      }
      found := Some(listed);
    }

    method Post(r: Resource<R, B>, ok: bool) returns (id: Option<int>)
      requires Valid()
      modifies this`store, this`nextId
      ensures Valid() && (id.Some? <==> ok)
      ensures nextId >= old(nextId) && (id.Some? ==> id.value >= old(nextId))
      ensures id.None? ==> store == old(store)
      ensures id.Some? ==> var l := Loc(r.key.rtype, id.value); l !in old(store) && store == old(store)[l := r]
    {
      if !ok { return None; }
      id := Some(nextId);
      store := store[Loc(r.key.rtype, nextId) := r];
      nextId := nextId + 1;
    }

    /** A request that would be accepted still fails if there is nothing at the location. */
    method Put(l: Loc<R>, r: Resource<R, B>, accepted: bool) returns (ok: bool)
      requires Valid() && l.rtype == r.key.rtype
      modifies this`store
      ensures Valid() && (ok <==> accepted && l in old(store))
      ensures store == if ok then old(store)[l := r] else old(store)
    {
      ok := accepted && l in store;
      if ok { store := store[l := r]; }
    }

    method Delete(l: Loc<R>, accepted: bool) returns (ok: bool)
      requires Valid()
      modifies this`store
      ensures Valid() && (ok <==> accepted && l in old(store))
      ensures store == if ok then old(store) - {l} else old(store)
    {
      ok := accepted && l in store;
      if ok { store := store - {l}; }
    }

    /** Between reconciles others leave the store as they like. */
    method Edit(st: Store<R, B>)
      requires Valid() && WellTyped(st)
      modifies this`store, this`nextId
      ensures Valid() && store == st
    {
      store := st;
      var todo := st.Keys;
      while todo != {}
        invariant store == st && todo <= st.Keys
        invariant nextId > 0 && forall l :: l in st && l !in todo ==> l.id < nextId
      {
        var l :| l in todo;
        if l.id >= nextId { nextId := l.id + 1; }
        todo := todo - {l};
      }
    }
  }

  // ----- The ID cache -----

  function CacheKey(baseURL: string, name: string): string {
    baseURL + ":" + name
  }

  lemma SameBaseInjective(baseURL: string, n: string, m: string)
    requires CacheKey(baseURL, n) == CacheKey(baseURL, m)
    ensures n == m
  {
    assert CacheKey(baseURL, n)[|baseURL| + 1..] == n;
    assert CacheKey(baseURL, m)[|baseURL| + 1..] == m;
  }

  /**
   * Two instances share a cache entry under different names exactly when one name is the other with a prefix that
   * ends in a colon, and one base URL the other with that prefix, colon first. So for every base URL and every such
   * pair of names there is another one with which it collides; names without ':' never collide.
   */
  lemma CollisionIff(b: string, n: string, c: string, m: string)
    requires n != m
    ensures CacheKey(b, n) == CacheKey(c, m) <==>
            exists x: string :: (n == x + ":" + m && c == b + ":" + x) || (m == x + ":" + n && b == c + ":" + x)
  {
    if CacheKey(b, n) == CacheKey(c, m) {
      if |n| >= |m| { LongerHasSuffix(b, n, c, m); } else { LongerHasSuffix(c, m, b, n); }
    }
    forall x: string | (n == x + ":" + m && c == b + ":" + x) || (m == x + ":" + n && b == c + ":" + x)
      ensures CacheKey(b, n) == CacheKey(c, m)
    {
      if n == x + ":" + m {
        assert CacheKey(b, x + ":" + m) == CacheKey(b + ":" + x, m);
      } else {
        assert CacheKey(c, x + ":" + n) == CacheKey(c + ":" + x, n);
      }
    }
  }

  /**
   * Seen from one instance: a name collides with another one somewhere exactly if one of them has the other as a
   * suffix after a colon.
   */
  lemma CollisionIffColonSuffix(n: string, m: string)
    requires n != m
    ensures (exists b: string, c: string :: CacheKey(b, n) == CacheKey(c, m)) <==>
            (exists x: string :: n == x + ":" + m || m == x + ":" + n)
    ensures forall x: string, b: string :: n == x + ":" + m ==> CacheKey(b, n) == CacheKey(b + ":" + x, m)
  {
    forall b: string, c: string | CacheKey(b, n) == CacheKey(c, m)
      ensures exists x: string :: n == x + ":" + m || m == x + ":" + n
    {
      CollisionIff(b, n, c, m);
    }
    forall x: string, b: string | n == x + ":" + m ensures CacheKey(b, n) == CacheKey(b + ":" + x, m) {
      CollisionIff(b, n, b + ":" + x, m);
    }
    forall x: string | m == x + ":" + n ensures CacheKey("" + ":" + x, n) == CacheKey("", m) {
      CollisionIff("" + ":" + x, n, "", m);
    }
  }

  lemma LongerHasSuffix(b: string, n: string, c: string, m: string)
    requires CacheKey(b, n) == CacheKey(c, m) && |n| >= |m| && n != m
    ensures exists x: string :: n == x + ":" + m && c == b + ":" + x
  {
    var s := CacheKey(b, n);
    assert s[|b| + 1..] == n && s[|c| + 1..] == m && s[|c|] == ':';
    assert |b| != |c|;
    var x := s[|b| + 1..|c|];
    assert n == x + ":" + m;
    assert c == s[..|c|] == b + ":" + x;
  }

  lemma ColonFreeInjective(b: string, n: string, c: string, m: string)
    requires ':' !in n && ':' !in m
    requires CacheKey(b, n) == CacheKey(c, m)
    ensures b == c && n == m
  {
    forall x: string ensures ':' in x + ":" + m && ':' in x + ":" + n {
      assert (x + ":" + m)[|x|] == ':' && (x + ":" + n)[|x|] == ':';
    }
    if n != m { CollisionIffColonSuffix(n, m); }
    assert CacheKey(b, n)[..|b|] == b && CacheKey(c, n)[..|c|] == c;
  }

  class IdCache<R(==,!new)> {
    var ids: map<(R, string), int>
    constructor () ensures ids == map[] { ids := map[]; }
  }

  ghost function CacheKeys<R(!new)>(baseURL: string, keys: set<Key<R>>): set<(R, string)> {
    set k | k in keys :: (k.rtype, CacheKey(baseURL, k.name))
  }

  /** Entries of another instance are not among the entries a reconcile of this one may write. */
  lemma OtherInstanceUntouched<R(!new)>(baseURL: string, keys: set<Key<R>>, other: string, k: Key<R>)
    requires other != baseURL && ':' !in k.name && forall n :: n in keys ==> ':' !in n.name
    ensures (k.rtype, CacheKey(other, k.name)) !in CacheKeys(baseURL, keys)
  {
    forall n | n in keys && CacheKey(baseURL, n.name) == CacheKey(other, k.name) ensures false {
      ColonFreeInjective(baseURL, n.name, other, k.name);
    }
  }
}

/**
 * One reconcile: `CurrentState` and `Apply` of an adapter, and the controller's
 * `ReconcileConfig` around them. The Prowlarr adapter finds IDs in a package-level cache
 * keyed by "baseURL:name" that outlives a reconcile and is shared by all base URLs; the
 * Lidarr adapter carries them from the current state into the change (`carriesIds`).
 */
module Reconcile {
  import opened Common
  import opened Sync
  import opened Remote
  import opened ChangeSets

  datatype ApplyResult<R, P> = ApplyResult(applied: nat, errors: seq<Change<R, P>>)

  datatype Outcome =
    | Unreachable                          // Connect or Discover failed
    | Panicked                             // Apply failed and its nil result was dereferenced
    | Finished(synced: bool, applied: nat, failed: nat)

  /** An adapter and the instance it talks to. `ownPart`: what it manages is a part of the IR that may be missing. */
  datatype Client = Client(baseURL: string, carriesIds: bool, ownPart: bool)

  /** How the service answers during one reconcile. */
  datatype Env<!R> = Env(connects: bool, discovers: bool, tag: TagEnv, answers: Answers<R>)

  type Ids<R(==)> = map<(R, string), int>
  type Entries<R, P> = seq<(Key<R>, Held<P>)>

  /** The resource a PUT or DELETE for `k` would address. */
  function Aim<R(==)>(c: Client, ids: Ids<R>, k: Key<R>, id: Option<int>): Option<Loc<R>> {
    var entry := (k.rtype, CacheKey(c.baseURL, k.name));
    if c.carriesIds then
      if id.Some? then Some(Loc(k.rtype, id.value)) else None
    else if entry in ids then Some(Loc(k.rtype, ids[entry]))
    else None
  }

  /** That resource exists, carries the ownership tag, and goes by the name `k`. */
  ghost predicate Live<R, P, B>(kd: Kind<R, P, B>, c: Client, ids: Ids<R>, st: Store<R, B>, t: int, k: Key<R>,
                                id: Option<int>) {
    Aim(c, ids, k, id).Some? && Holds(kd, t, st, Aim(c, ids, k, id).value, k)
  }

  /** What a current-state entry promises: its ID is live, and its value was read from a resource of that name. */
  ghost predicate Accurate<R(!new), P, B>(kd: Kind<R, P, B>, c: Client, ids: Ids<R>, st: Store<R, B>, t: int,
                                          e: (Key<R>, Held<P>)) {
    && Live(kd, c, ids, st, t, e.0, e.1.id)
    && HeldAs(kd, t, st, e.0, e.1.value)
  }

  ghost predicate Sound<R(!new), P, B>(kd: Kind<R, P, B>, c: Client, ids: Ids<R>, st: Store<R, B>, t: int,
                                       entries: Entries<R, P>) {
    forall i :: 0 <= i < |entries| ==> Accurate(kd, c, ids, st, t, entries[i])
  }

  ghost predicate Listed<R, P>(entries: Entries<R, P>, k: Key<R>) {
    exists i :: 0 <= i < |entries| && entries[i].0 == k
  }

  ghost predicate Covers<R(!new), P, B>(kd: Kind<R, P, B>, st: Store<R, B>, t: int, rtype: R, entries: Entries<R, P>) {
    forall l, k :: Holds(kd, t, st, l, k) && k.rtype == rtype ==> Listed(entries, k)
  }

  /** No cache entry outside those of `keys` under this base URL was written. */
  ghost predicate CacheKept<R(!new)>(baseURL: string, before: Ids<R>, after: Ids<R>, keys: set<Key<R>>) {
    forall e :: e !in CacheKeys(baseURL, keys) ==>
        (e in after <==> e in before) && (e in before ==> after[e] == before[e])
  }

  lemma CacheKeptTransitive<R(!new)>(baseURL: string, a: Ids<R>, b: Ids<R>, d: Ids<R>, ks: set<Key<R>>, js: set<Key<R>>)
    requires ks <= js && CacheKept(baseURL, a, b, js) && CacheKept(baseURL, b, d, ks)
    ensures CacheKept(baseURL, a, d, js)
  {
    assert CacheKeys(baseURL, ks) <= CacheKeys(baseURL, js);
  }

  lemma ListedGrows<R, P>(entries: Entries<R, P>, more: Entries<R, P>, k: Key<R>)
    requires Listed(entries, k) && entries <= more
    ensures Listed(more, k)
  {
    var i :| 0 <= i < |entries| && entries[i].0 == k;
    assert more[i].0 == k;
  }

  /** Writing the cache entry of one name leaves the aim of every other name alone. */
  lemma OtherAimKept<R>(c: Client, ids: Ids<R>, written: Key<R>, id: int, k: Key<R>, own: Option<int>)
    requires k != written
    ensures Aim(c, ids[(written.rtype, CacheKey(c.baseURL, written.name)) := id], k, own) == Aim(c, ids, k, own)
    ensures Aim(c, ids - {(written.rtype, CacheKey(c.baseURL, written.name))}, k, own) == Aim(c, ids, k, own)
  {
    if k.rtype == written.rtype && CacheKey(c.baseURL, k.name) == CacheKey(c.baseURL, written.name) {
      SameBaseInjective(c.baseURL, k.name, written.name);
    }
  }

  ghost predicate NoneNamed<R(!new), B(!new)>(listing: seq<(Loc<R>, Resource<R, B>)>, k: Key<R>, n: nat) {
    n <= |listing| && forall i :: 0 <= i < n ==> listing[i].1.key != k
  }

  /** The `i`-th is the first of that name, and has this ID. */
  ghost predicate FirstNamed<R(!new), B(!new)>(listing: seq<(Loc<R>, Resource<R, B>)>, k: Key<R>, i: nat, id: int) {
    i < |listing| && listing[i].1.key == k && listing[i].0.id == id && NoneNamed(listing, k, i)
  }

  lemma NoneStored<R(!new), B(!new)>(st: Store<R, B>, k: Key<R>, listing: seq<(Loc<R>, Resource<R, B>)>)
    requires IsListing(st, k.rtype, listing) && NoneNamed(listing, k, |listing|)
    ensures forall l :: l in st && l.rtype == k.rtype ==> st[l].key != k
  {
    forall l | l in st && l.rtype == k.rtype ensures st[l].key != k {
      assert (l, st[l]) in listing;
    }
  }

  lemma OthersStayLive<R(!new), P, B>(kd: Kind<R, P, B>, c: Client, ids: Ids<R>, ids': Ids<R>, st: Store<R, B>,
                                      st': Store<R, B>, t: int, ch: Change<R, P>, l: Loc<R>, k: Key<R>, id: Option<int>)
    requires k != ch.key && Live(kd, c, ids, st, t, k, id)
    requires Aim(c, ids', k, id) == Aim(c, ids, k, id)
    requires st' == st || Effect(kd, t, ch, l, st, st')
    ensures Live(kd, c, ids', st', t, k, id)
  {
  }

  /**
   * After the first `i` of a listing: what is owned has an accurate entry, and only cache entries of owned names
   * were written.
   */
  ghost predicate Gathered<R(!new), P, B(!new)>(kd: Kind<R, P, B>, c: Client, ids0: Ids<R>, ids: Ids<R>,
                                                st: Store<R, B>, t: int, list: seq<(Loc<R>, Resource<R, B>)>, i: nat,
                                                before: Entries<R, P>, entries: Entries<R, P>)
  {
    && i <= |list| && Sound(kd, c, ids, st, t, entries) && before <= entries
    && (forall j :: 0 <= j < i && Owned(kd, t, list[j].1) ==> Listed(entries, list[j].1.key))
    && CacheKept(c.baseURL, ids0, ids, OwnedKeys(kd, t, st))
  }

  lemma GatherNext<R(!new), P(!new), B(!new)>(kd: Kind<R, P, B>, c: Client, ids0: Ids<R>, ids: Ids<R>, ids': Ids<R>,
                                              st: Store<R, B>, t: int, list: seq<(Loc<R>, Resource<R, B>)>, i: nat,
                                              before: Entries<R, P>, entries: Entries<R, P>, e: (Key<R>, Held<P>))
    requires Gathered(kd, c, ids0, ids, st, t, list, i, before, entries) && i < |list|
    requires Owned(kd, t, list[i].1) && list[i].0 in st && st[list[i].0] == list[i].1 && e.0 == list[i].1.key
    requires Accurate(kd, c, ids', st, t, e)
    requires forall o :: Accurate(kd, c, ids, st, t, o) ==> Accurate(kd, c, ids', st, t, o)
    requires CacheKept(c.baseURL, ids, ids', {e.0})
    ensures Gathered(kd, c, ids0, ids', st, t, list, i + 1, before, entries + [e])
  {
    assert e.0 in OwnedKeys(kd, t, st);
    CacheKeptTransitive(c.baseURL, ids0, ids, ids', {e.0}, OwnedKeys(kd, t, st));
    forall k | Listed(entries, k) ensures Listed(entries + [e], k) { ListedGrows(entries, entries + [e], k); }
    assert (entries + [e])[|entries|].0 == e.0;
  }

  lemma AllGathered<R(!new), P, B(!new)>(kd: Kind<R, P, B>, c: Client, ids0: Ids<R>, ids: Ids<R>, st: Store<R, B>,
                                         t: int, rtype: R, list: seq<(Loc<R>, Resource<R, B>)>, before: Entries<R, P>,
                                         entries: Entries<R, P>)
    requires Gathered(kd, c, ids0, ids, st, t, list, |list|, before, entries) && IsListing(st, rtype, list)
    requires WellTyped(st)
    ensures Covers(kd, st, t, rtype, entries)
  {
    forall l, k | Holds(kd, t, st, l, k) && k.rtype == rtype ensures Listed(entries, k) {
      assert (l, st[l]) in list;
    }
  }

  /** The promise of every single write: it has its effect exactly if it is accepted, and disturbs no other name. */
  ghost predicate Wrote<R(!new), P, B>(kd: Kind<R, P, B>, c: Client, ids: Ids<R>, ids': Ids<R>, st: Store<R, B>,
                                       st': Store<R, B>, t: int, ch: Change<R, P>, accepted: bool, ok: bool,
                                       l: Loc<R>) {
    && CacheKept(c.baseURL, ids, ids', {ch.key})
    && (!ok ==> st' == st)
    && (ch.op.Create? || Live(kd, c, ids, st, t, ch.key, ch.id) ==>
         && (ok <==> accepted)
         && (ok ==> Effect(kd, t, ch, l, st, st'))
         && (forall k, id :: k != ch.key && Live(kd, c, ids, st, t, k, id) ==> Live(kd, c, ids', st', t, k, id)))
  }

  /** All entries are of types whose list was answered. */
  ghost predicate Answered<R(!new), P>(a: Answers<R>, entries: Entries<R, P>) {
    forall i :: 0 <= i < |entries| ==> a.lists(entries[i].0.rtype)
  }

  /** The owned names that CurrentState gets to see. */
  ghost function Visible<R(!new), P, B>(kd: Kind<R, P, B>, tag: Option<int>, st: Store<R, B>,
                                        a: Answers<R>): set<Key<R>> {
    if tag.None? || !a.tagRead then {} else set k | k in OwnedKeys(kd, tag.value, st) && a.lists(k.rtype)
  }

  /** What was seen: exactly the visible names, each with the value of a resource of that name. */
  ghost predicate Saw<R(!new), P, B>(kd: Kind<R, P, B>, tag: Option<int>, st: Store<R, B>, a: Answers<R>,
                                     seen: map<Key<R>, P>) {
    && seen.Keys == Visible(kd, tag, st, a)
    && (tag.Some? ==> forall k :: k in seen ==> HeldAs(kd, tag.value, st, k, seen[k]))
  }

  /** The value was read from a resource of that name. */
  ghost predicate HeldAs<R(!new), P, B>(kd: Kind<R, P, B>, t: int, st: Store<R, B>, k: Key<R>, p: P) {
    exists l :: Holds(kd, t, st, l, k) && p == kd.read(st[l].body)
  }

  /** What the entries of answered lists amount to. */
  lemma EntriesAreSeen<R(!new), P, B>(kd: Kind<R, P, B>, c: Client, ids: Ids<R>, st: Store<R, B>, t: int, types: seq<R>,
                                      a: Answers<R>, entries: Entries<R, P>)
    requires forall r: R :: r in types
    requires a.tagRead && Sound(kd, c, ids, st, t, entries) && Answered(a, entries)
    requires forall r :: r in types && a.lists(r) ==> Covers(kd, st, t, r, entries)
    ensures Saw(kd, Some(t), st, a, Values(Index(entries)))
  {
    IndexMembers(entries);
    var v := Values(Index(entries));
    forall k | k in v
      ensures k in Visible(kd, Some(t), st, a)
      ensures HeldAs(kd, t, st, k, v[k])
    {
      var i :| 0 <= i < |entries| && entries[i] == (k, Index(entries)[k]);
      assert Accurate(kd, c, ids, st, t, entries[i]);
    }
    forall k | k in Visible(kd, Some(t), st, a) ensures k in v {
      assert Holds(kd, t, st, Locate(kd, t, st, k), k);
      assert Covers(kd, st, t, k.rtype, entries);
      assert Listed(entries, k);
    }
  }

  /**
   * What was read is the whole by-name state: every list was answered, or there was no tag yet and nothing is
   * stored that is not selected by it.
   */
  ghost predicate SawAll<R(!new), P, B>(kd: Kind<R, P, B>, tag: Option<int>, st: Store<R, B>, a: Answers<R>) {
    if tag.Some? then Reads(a) else NoneHidden(kd, st)
  }

  /** Every stored resource is of a type that is selected by the tag. */
  ghost predicate NoneHidden<R, P, B>(kd: Kind<R, P, B>, st: Store<R, B>) {
    forall l :: l in st ==> kd.filtered(st[l].key.rtype)
  }

  /** The changes among `ks` that the service refuses. */
  ghost function Refused<R(!new)>(a: Answers<R>, ks: set<Key<R>>): set<Key<R>> {
    set k | k in ks && !a.writes(k)
  }

  class Adapter<R(==,!new), P(!new), B(!new)> {
    const kd: Kind<R, P, B>
    const client: Client
    const server: Server<R, B>
    const cache: IdCache<R>
    const types: seq<R>      // the resource types, in the order CurrentState reads them

    constructor (kd: Kind<R, P, B>, client: Client, server: Server<R, B>, cache: IdCache<R>, types: seq<R>)
      ensures this.kd == kd && this.client == client && this.server == server && this.cache == cache
      ensures this.types == types
    {
      this.kd, this.client, this.server, this.cache, this.types := kd, client, server, cache, types;
    }

    // ----- CurrentState -----

    method Remember(l: Loc<R>, r: Resource<R, B>, t: int) returns (e: (Key<R>, Held<P>))
      requires server.Valid() && Holds(kd, t, server.store, l, r.key) && server.store[l] == r
      modifies cache
      ensures e.0 == r.key && Accurate(kd, client, cache.ids, server.store, t, e)
      ensures forall o :: Accurate(kd, client, old(cache.ids), server.store, t, o) ==>
                Accurate(kd, client, cache.ids, server.store, t, o)
      ensures CacheKept(client.baseURL, old(cache.ids), cache.ids, {r.key})
    {
      ghost var ids := cache.ids;
      if !client.carriesIds {
        cache.ids := cache.ids[Entry(r.key) := l.id];
      }
      e := (r.key, Held(if client.carriesIds then Some(l.id) else None, kd.read(r.body)));
      forall o: (Key<R>, Held<P>) | Accurate(kd, client, ids, server.store, t, o)
        ensures Accurate(kd, client, cache.ids, server.store, t, o)
      {
        if o.0 != r.key { OtherAimKept(client, ids, r.key, l.id, o.0, o.1.id); }
      }
    }

    method GetManaged(rtype: R, t: int, a: Answers<R>, before: Entries<R, P>) returns (read: bool,
                      entries: Entries<R, P>)
      requires server.Valid() && Sound(kd, client, cache.ids, server.store, t, before) && Answered(a, before)
      modifies cache
      ensures Sound(kd, client, cache.ids, server.store, t, entries) && before <= entries && Answered(a, entries)
      ensures read <==> a.lists(rtype)
      ensures read ==> Covers(kd, server.store, t, rtype, entries)
      ensures CacheKept(client.baseURL, old(cache.ids), cache.ids, OwnedKeys(kd, t, server.store))
    {
      entries := before;
      var found := server.List(rtype, a.lists(rtype));
      if found.None? { return false, entries; }
      read := true;
      var list := found.value;
      for i := 0 to |list|
        invariant Gathered(kd, client, old(cache.ids), cache.ids, server.store, t, list, i, before, entries)
        invariant Answered(a, entries)
      {
        var (l, r) := list[i];
        if Owned(kd, t, r) {
          ghost var ids := cache.ids;
          var e := Remember(l, r, t);
          GatherNext(kd, client, old(cache.ids), ids, cache.ids, server.store, t, list, i, before, entries, e);
          entries := entries + [e];
        }
      }
      AllGathered(kd, client, old(cache.ids), cache.ids, server.store, t, rtype, list, before, entries);
    }

    /** A read that fails is swallowed: its resources look unmanaged. */
    method CurrentState(a: Answers<R>) returns (entries: Entries<R, P>)
      requires server.Valid()
      modifies cache
      ensures server.tag.None? || !a.tagRead ==> entries == []
      ensures server.tag.Some? ==> Sound(kd, client, cache.ids, server.store, server.tag.value, entries)
      ensures Answered(a, entries)
      ensures server.tag.Some? && a.tagRead ==> forall r :: r in types && a.lists(r) ==>
                Covers(kd, server.store, server.tag.value, r, entries)
      ensures CacheKept(client.baseURL, old(cache.ids), cache.ids,
                        if server.tag.Some? then OwnedKeys(kd, server.tag.value, server.store) else {})
    {
      entries := [];
      var t := server.GetTag(a.tagRead);
      if t.None? { return; }
      for i := 0 to |types|
        invariant Sound(kd, client, cache.ids, server.store, t.value, entries) && Answered(a, entries)
        invariant forall j :: 0 <= j < i && a.lists(types[j]) ==> Covers(kd, server.store, t.value, types[j], entries)
        invariant CacheKept(client.baseURL, old(cache.ids), cache.ids, OwnedKeys(kd, t.value, server.store))
      {
        ghost var shorter, ids := entries, cache.ids;
        var read;
        read, entries := GetManaged(types[i], t.value, a, entries);
        CacheKeptTransitive(client.baseURL, old(cache.ids), ids, cache.ids,
                            OwnedKeys(kd, t.value, server.store), OwnedKeys(kd, t.value, server.store));
        forall k | Listed(shorter, k) ensures Listed(entries, k) { ListedGrows(shorter, entries, k); }
      }
    }

    // ----- Apply -----

    method ApplyCreate(ch: Change<R, P>, t: int, a: Answers<R>) returns (ok: bool, ghost l: Loc<R>)
      requires server.Valid() && ch.op.Create? && ch.payload.Some?
      modifies server, cache
      ensures server.Valid() && server.tag == old(server.tag)
      ensures server.nextId >= old(server.nextId) && (ok ==> l.id >= old(server.nextId))
      ensures Wrote(kd, client, old(cache.ids), cache.ids, old(server.store), server.store, t, ch, a.writes(ch.key), ok,
                    l)
      // The new ID is remembered.
      ensures cache.ids == if ok && !client.carriesIds then old(cache.ids)[Entry(ch.key) := l.id] else old(cache.ids)
    {
      var id := server.Post(Written(kd, t, ch.key, ch.payload.value), a.writes(ch.key));
      l := Loc(ch.key.rtype, if id.Some? then id.value else 0);
      ok := id.Some?;
      if ok && !client.carriesIds {
        cache.ids := cache.ids[Entry(ch.key) := id.value];
      }
      OthersKept(ch, t, l, old(cache.ids), old(server.store));
    }

    function Entry(k: Key<R>): (R, string) {
      (k.rtype, CacheKey(client.baseURL, k.name))
    }

    lemma OthersKept(ch: Change<R, P>, t: int, l: Loc<R>, ids: Ids<R>, st: Store<R, B>)
      requires server.store == st || Effect(kd, t, ch, l, st, server.store)
      requires var e := Entry(ch.key);
               cache.ids == ids || cache.ids == ids[e := l.id] || cache.ids == ids - {e}
      ensures forall k, id :: k != ch.key && Live(kd, client, ids, st, t, k, id) ==>
                Live(kd, client, cache.ids, server.store, t, k, id)
    {
      forall k, own | k != ch.key && Live(kd, client, ids, st, t, k, own)
        ensures Live(kd, client, cache.ids, server.store, t, k, own)
      {
        OtherAimKept(client, ids, ch.key, l.id, k, own);
        OthersStayLive(kd, client, ids, cache.ids, st, server.store, t, ch, l, k, own);
      }
    }

    /**
     * The ID an update or delete uses. Without one in the change or the cache, the adapter
     * lists the resources and takes the first of that name, tagged or not.
     */
    method FindId(ch: Change<R, P>, answered: bool, remember: bool)
      returns (failed: bool, missing: bool, id: int, ghost listing: seq<(Loc<R>, Resource<R, B>)>)
      requires server.Valid()
      modifies cache
      ensures Aim(client, old(cache.ids), ch.key, ch.id).Some? ==>
                !failed && !missing && cache.ids == old(cache.ids) &&
                    Aim(client, cache.ids, ch.key, ch.id) == Some(Loc(ch.key.rtype, id))
      ensures Aim(client, old(cache.ids), ch.key, ch.id).None? && !failed ==>
                && IsListing(server.store, ch.key.rtype, listing)
                && (if missing then NoneNamed(listing, ch.key, |listing|)
                    else exists i :: FirstNamed(listing, ch.key, i, id))
      ensures Aim(client, old(cache.ids), ch.key, ch.id).None? ==> (failed <==> client.carriesIds || !answered)
      ensures missing ==> !failed && forall l :: l in server.store && l.rtype == ch.key.rtype ==>
                server.store[l].key != ch.key
      ensures cache.ids == old(cache.ids) ||
              cache.ids == old(cache.ids)[Entry(ch.key) := id]
      ensures !failed && !missing && remember && !client.carriesIds ==>
                Entry(ch.key) in cache.ids && cache.ids[Entry(ch.key)] == id
      ensures failed || missing || !remember ==> cache.ids == old(cache.ids)
      ensures !failed && !missing && Aim(client, old(cache.ids), ch.key, ch.id).None? ==>
                Loc(ch.key.rtype, id) in server.store && server.store[Loc(ch.key.rtype, id)].key == ch.key
    {
      failed, missing, id, listing := false, false, 0, [];
      var entry := Entry(ch.key);
      if client.carriesIds {
        if ch.id.Some? { id := ch.id.value; } else { failed := true; }
      } else if entry in cache.ids {
        id := cache.ids[entry];
      } else {
        var found := server.List(ch.key.rtype, answered);
        if found.None? { return true, false, 0, []; }
        listing := found.value;
        var list := found.value;
        for i := 0 to |list|
          invariant NoneNamed(list, ch.key, i) && cache.ids == old(cache.ids)
        {
          if list[i].1.key == ch.key {
            id := list[i].0.id;
            if remember { cache.ids := cache.ids[entry := id]; }
            assert FirstNamed(list, ch.key, i, id) && list[i].0 in server.store;
            return;
          }
        }
        missing := true;
        NoneStored(server.store, ch.key, list);
      }
    }

    method ApplyUpdate(ch: Change<R, P>, t: int, a: Answers<R>) returns (ok: bool, ghost l: Loc<R>)
      requires server.Valid() && ch.op.Update? && ch.payload.Some?
      modifies server, cache
      ensures server.Valid() && server.tag == old(server.tag) && server.nextId == old(server.nextId)
      ensures Wrote(kd, client, old(cache.ids), cache.ids, old(server.store), server.store, t, ch, a.writes(ch.key), ok,
                    l)
      // In general: it goes to the ID known or, without one, to a resource of the name, which is then remembered.
      ensures Aim(client, old(cache.ids), ch.key, ch.id).Some? ==>
                && l == Aim(client, old(cache.ids), ch.key, ch.id).value && cache.ids == old(cache.ids)
                && (ok <==> a.writes(ch.key) && l in old(server.store))
      ensures Aim(client, old(cache.ids), ch.key, ch.id).None? ==>
                && (ok <==> && !client.carriesIds && a.relists(ch.key.rtype) && a.writes(ch.key)
                            && exists m :: m in old(server.store) && old(server.store)[m].key == ch.key)
                && (ok ==> l in old(server.store) && old(server.store)[l].key == ch.key
                           && cache.ids == old(cache.ids)[Entry(ch.key) := l.id])
      ensures server.store == if ok then old(server.store)[l := Written(kd, t, ch.key, ch.payload.value)]
                              else old(server.store)
    {
      var failed, missing, id;
      ghost var listing;
      failed, missing, id, listing := FindId(ch, a.relists(ch.key.rtype), true);
      l := Loc(ch.key.rtype, id);
      if failed || missing { return false, l; }
      ok := server.Put(Loc(ch.key.rtype, id), Written(kd, t, ch.key, ch.payload.value), a.writes(ch.key));
      if Live(kd, client, old(cache.ids), old(server.store), t, ch.key, ch.id) {
        OthersKept(ch, t, l, old(cache.ids), old(server.store));
      }
    }

    method ApplyDelete(ch: Change<R, P>, t: int, a: Answers<R>) returns (ok: bool, ghost l: Loc<R>)
      requires server.Valid() && ch.op.Delete?
      modifies server, cache
      ensures server.Valid() && server.tag == old(server.tag) && server.nextId == old(server.nextId)
      ensures Wrote(kd, client, old(cache.ids), cache.ids, old(server.store), server.store, t, ch, a.writes(ch.key), ok,
                    l)
      // In general: it goes to the ID known or, without one, to a resource of the name if there is any.
      ensures Aim(client, old(cache.ids), ch.key, ch.id).Some? ==>
                && l == Aim(client, old(cache.ids), ch.key, ch.id).value
                && (ok <==> a.writes(ch.key) && l in old(server.store))
                && server.store == if ok then old(server.store) - {l} else old(server.store)
      ensures Aim(client, old(cache.ids), ch.key, ch.id).None? ==>
                var there := exists m :: m in old(server.store) && old(server.store)[m].key == ch.key;
                && (ok <==> !client.carriesIds && a.relists(ch.key.rtype) && (there ==> a.writes(ch.key)))
                && (ok && there ==> && l in old(server.store) && old(server.store)[l].key == ch.key
                                    && server.store == old(server.store) - {l})
                && (!ok || !there ==> server.store == old(server.store))
      ensures cache.ids == if ok && !client.carriesIds then old(cache.ids) - {Entry(ch.key)} else old(cache.ids)
    {
      var failed, missing, id;
      ghost var listing;
      failed, missing, id, listing := FindId(ch, a.relists(ch.key.rtype), false);
      l := Loc(ch.key.rtype, id);
      if failed || missing { return missing, l; }  // nothing of that name counts as already deleted
      ok := server.Delete(Loc(ch.key.rtype, id), a.writes(ch.key));
      if ok && !client.carriesIds {
        cache.ids := cache.ids - {Entry(ch.key)};
      }
      if Live(kd, client, old(cache.ids), old(server.store), t, ch.key, ch.id) {
        OthersKept(ch, t, l, old(cache.ids), old(server.store));
      }
    }

    method ApplyChange(ch: Change<R, P>, t: int, a: Answers<R>) returns (ok: bool, ghost l: Loc<R>)
      requires server.Valid() && (!ch.op.Delete? ==> ch.payload.Some?)
      modifies server, cache
      ensures server.Valid() && server.tag == old(server.tag)
      ensures server.nextId >= old(server.nextId) && (ok && ch.op.Create? ==> l.id >= old(server.nextId))
      ensures Wrote(kd, client, old(cache.ids), cache.ids, old(server.store), server.store, t, ch, a.writes(ch.key), ok,
                    l)
    {
      match ch.op
      case Create => ok, l := ApplyCreate(ch, t, a);
      case Update => ok, l := ApplyUpdate(ch, t, a);
      case Delete => ok, l := ApplyDelete(ch, t, a);
    }

    /** One turn of the apply loop, with what it means for the run so far. */
    method ApplyNext(all: seq<Change<R, P>>, i: nat, t: int, a: Answers<R>, applied: nat, errors: seq<Change<R, P>>,
                     ghost v: map<Key<R>, P>, ghost des: map<Key<R>, P>, ghost ids0: Ids<R>, ghost st0: Store<R, B>,
                     ghost done: set<Key<R>>, ghost at: map<Key<R>, Loc<R>>, ghost whole: bool)
      returns (applied': nat, errors': seq<Change<R, P>>, ghost done': set<Key<R>>, ghost at': map<Key<R>, Loc<R>>)
      requires server.Valid() && forall m :: m in st0 ==> m.id < server.nextId
      requires i < |all| && DistinctKeys(all) && Requested(kd, v, des, all[i])
      requires Counting(a, all, i, applied, errors, done)
      requires Progress(kd, client, t, v, des, all, ids0, cache.ids, st0, server.store, i, done, at, whole)
      modifies server, cache
      ensures server.Valid() && server.tag == old(server.tag) && server.nextId >= old(server.nextId)
      ensures Counting(a, all, i + 1, applied', errors', done')
      ensures Progress(kd, client, t, v, des, all, ids0, cache.ids, st0, server.store, i + 1, done', at', whole)
    {
      ghost var st, ids := server.store, cache.ids;
      TallyDistinct(all, i, applied, errors, done);
      var ok;
      ghost var l;
      ok, l := ApplyChange(all[i], t, a);
      ProgressStep(kd, client, t, v, des, all, ids0, ids, cache.ids, st0, st, server.store, i, done, at, whole,
                   a.writes(all[i].key), ok, l);
      CountingStep(a, all, i, applied, errors, done, ok);
      done', at' := if ok then done + {all[i].key} else done, if ok then at[all[i].key := l] else at;
      if ok {
        applied', errors' := applied + 1, errors;
      } else {
        applied', errors' := applied, errors + [all[i]];
      }
    }

    /**
     * The shared apply loop over creates, then updates, then deletes: each change is counted
     * once and no failure stops the rest.
     */
    method ApplyChanges(all: seq<Change<R, P>>, t: int, a: Answers<R>, ghost v: map<Key<R>, P>,
                        ghost des: map<Key<R>, P>)
      returns (result: ApplyResult<R, P>)
      requires server.Valid() && server.tag == Some(t)
      requires DistinctKeys(all) && forall i :: 0 <= i < |all| ==> Requested(kd, v, des, all[i])
      requires LiveFrom(kd, client, cache.ids, server.store, t, all, 0)
      modifies server, cache
      ensures server.Valid() && server.tag == Some(t)
      ensures CacheKept(client.baseURL, old(cache.ids), cache.ids, KeysOf(all))
      ensures DoneExactly(kd, t, old(server.store), server.store, v.Keys, des, KeysOf(all) - KeysOf(result.errors))
      ensures DistinctKeys(result.errors) && KeysOf(result.errors) == Refused(a, KeysOf(all))
      ensures result.applied == |KeysOf(all) - KeysOf(result.errors)|
      ensures Mirrors(kd, t, old(server.store), v) ==>
                Mirrors(kd, t, server.store, Target(kd, v, des, KeysOf(all) - KeysOf(result.errors)))
    {
      var applied, errors: seq<Change<R, P>> := 0, [];
      ghost var ids0, st0 := cache.ids, server.store;
      ghost var n0, done, at: map<Key<R>, Loc<R>> := server.nextId, {}, map[];
      ghost var whole := Mirrors(kd, t, st0, v);
      TargetOfNothing(kd, v, des);
      for i := 0 to |all|
        invariant server.Valid() && server.tag == Some(t) && server.nextId >= n0
        invariant Counting(a, all, i, applied, errors, done)
        invariant Progress(kd, client, t, v, des, all, ids0, cache.ids, st0, server.store, i, done, at, whole)
      {
        applied, errors, done, at := ApplyNext(all, i, t, a, applied, errors, v, des, ids0, st0, done, at, whole);
      }
      AllApplied(kd, client, t, a, v, des, all, ids0, cache.ids, st0, server.store, applied, errors, done, at, whole);
      result := ApplyResult(applied, errors);
    }

    /** Without an ownership tag nothing is written and there is no result. */
    method Apply(cs: ChangeSet<R, P>, e: TagEnv, a: Answers<R>, ghost cur: map<Key<R>, Held<P>>,
                 ghost des: map<Key<R>, P>)
      returns (result: Option<ApplyResult<R, P>>)
      requires server.Valid() && IsDiff(kd, cur, des, cs)
      requires cur.Keys != {} ==> server.tag.Some?
      requires forall k :: k in cur ==> Live(kd, client, cache.ids, server.store, server.tag.value, k, cur[k].id)
      modifies server, cache
      ensures server.Valid() && (old(server.tag).Some? ==> server.tag == old(server.tag))
      ensures old(server.tag).None? && server.tag.Some? ==>
                forall l :: l in old(server.store) ==> server.tag.value !in old(server.store)[l].tags
      ensures result.Some? <==> Ensurable(old(server.tag), e)
      ensures result.None? ==>
                server.store == old(server.store) && server.tag == old(server.tag) && cache.ids == old(cache.ids)
      ensures CacheKept(client.baseURL, old(cache.ids), cache.ids, Pending(kd, Values(cur), des))
      // Each successful change rewrote, removed or added one resource, and nothing else happened to the store.
      ensures result.Some? ==>
                && server.tag.Some?
                && DoneExactly(kd, server.tag.value, old(server.store), server.store, Values(cur).Keys, des,
                               Pending(kd, Values(cur), des) - KeysOf(result.value.errors))
      ensures result.Some? ==> Accounts(kd, Values(cur), des, a, result.value)
      ensures result.Some? && Mirrors(kd, server.tag.value, old(server.store), Values(cur)) ==>
                Mirrors(kd, server.tag.value, server.store,
                        Target(kd, Values(cur), des, Pending(kd, Values(cur), des) - KeysOf(result.value.errors)))
    {
      var tag := server.EnsureTag(e);
      if tag.None? { return None; }
      DiffIsPartition(kd, cur, des, cs);
      AllLive(kd, client, cache.ids, server.store, tag.value, cur, des, All(cs));
      var r := ApplyChanges(All(cs), tag.value, a, Values(cur), des);
      result := Some(r);
    }
  }

  datatype ConditionType = TypeConnected | TypeReady | TypeSynced
  datatype Reason =
    | Connected | ConnectionFailed | DiscoveryFailed | ApplyFailed | PartiallyApplied | Synced | InSync | Ready
  type Conditions = map<ConditionType, (bool, Reason)>

  /** The part of a config's status that ReconcileConfig writes: condition type to (status, reason). */
  class ConfigStatus {
    var connected: bool
    var conditions: Conditions
    constructor () { connected, conditions := false, map[]; }

    method SetConnected(up: bool)
      modifies this`connected
      ensures connected == up
    {
      connected := up;
    }

    method SetCondition(kind: ConditionType, holds: bool, reason: Reason)
      modifies this`conditions
      ensures conditions == old(conditions)[kind := (holds, reason)]
    {
      conditions := conditions[kind := (holds, reason)];
    }
  }

  /** What the status tells of a reconcile, for every way it can end. */
  ghost predicate StatusTells(connected: bool, before: Conditions, after: Conditions, connects: bool, discovers: bool,
                              outcome: Outcome) {
    && connected == connects
    && Tells(after, TypeConnected, connects, if connects then Connected else ConnectionFailed)
    && (!connects ==> Tells(after, TypeReady, false, ConnectionFailed))
    && (connects && !discovers ==> Tells(after, TypeReady, false, DiscoveryFailed))
    && (outcome == Panicked ==> Tells(after, TypeSynced, false, ApplyFailed) && AsBefore(before, after, TypeReady))
    && (outcome == Unreachable ==> AsBefore(before, after, TypeSynced))
    && (outcome.Finished? ==>
          && Tells(after, TypeReady, true, Ready)
          && (!outcome.synced ==> Tells(after, TypeSynced, false, PartiallyApplied))
          && (outcome.synced ==> Tells(after, TypeSynced, true, if outcome.applied == 0 then InSync else Synced)))
  }

  ghost predicate Tells(conditions: Conditions, kind: ConditionType, holds: bool, reason: Reason) {
    kind in conditions && conditions[kind] == (holds, reason)
  }

  ghost predicate AsBefore(before: Conditions, after: Conditions, kind: ConditionType) {
    (kind in after <==> kind in before) && (kind in after ==> after[kind] == before[kind])
  }

  /** The by-name state after a reconcile that saw everything, and hence its next diff. */
  ghost predicate Settles<R(!new), P, B>(kd: Kind<R, P, B>, t: int, des: map<Key<R>, P>, st0: Store<R, B>,
                                         st: Store<R, B>, applied: nat, failed: set<Key<R>>) {
    var v := View(kd, t, st0);
    && failed <= Pending(kd, v, des) && applied == |Pending(kd, v, des) - failed|
    && Mirrors(kd, t, st, Target(kd, v, des, Pending(kd, v, des) - failed))
    && (Pending(kd, v, des) == {} ==> st == st0)
  }

  /** If everything has settled without failures, a second reconcile finds nothing to do and writes nothing. */
  lemma SecondRunWritesNothing<R(!new), P, B>(kd: Kind<R, P, B>, t: int, des: map<Key<R>, P>, st0: Store<R, B>,
                                              st1: Store<R, B>, st2: Store<R, B>, applied: nat, again: nat,
                                              failed: set<Key<R>>)
    requires AllStable(kd, des) && Settles(kd, t, des, st0, st1, applied, {})
    requires Settles(kd, t, des, st1, st2, again, failed)
    ensures st2 == st1 && again == 0 && failed == {}
  {
    SettledResidual(kd, t, des, st0, st1, applied, {});
  }

  /** Every request about resources is answered. */
  ghost predicate Serves<R(!new)>(a: Answers<R>) {
    a.tagRead && (forall r :: a.lists(r)) && forall k :: a.writes(k)
  }

  /** A stored resource that is owned under every tag and yet cannot be seen while there is none. */
  ghost predicate Hidden<R, P, B>(kd: Kind<R, P, B>, tag: Option<int>, st: Store<R, B>, l: Loc<R>) {
    tag.None? && l in st && !kd.filtered(st[l].key.rtype)
  }

  /** Something hidden has a desired name, so that the name is created a second time. */
  ghost predicate Twinned<R(!new), P, B>(kd: Kind<R, P, B>, tag: Option<int>, st: Store<R, B>, des: map<Key<R>, P>) {
    exists l :: Hidden(kd, tag, st, l) && st[l].key in des
  }

  /** Something hidden is not desired, so that it is deleted once a tag has been created for what is. */
  ghost predicate Unnoticed<R(!new), P, B>(kd: Kind<R, P, B>, tag: Option<int>, st: Store<R, B>, des: map<Key<R>, P>) {
    des != map[] && exists l :: Hidden(kd, tag, st, l) && st[l].key !in des
  }

  /** A reconcile that did all that was pending: with a tag it has settled, and without one it did what it saw. */
  ghost predicate DidAll<R(!new), P, B>(kd: Kind<R, P, B>, tag0: Option<int>, st0: Store<R, B>, tag1: Option<int>,
                                        st1: Store<R, B>, applied: nat, seen: map<Key<R>, P>, des: map<Key<R>, P>) {
    if tag0.Some? then
      tag1 == tag0 && seen == View(kd, tag0.value, st0) && Settles(kd, tag0.value, des, st0, st1, applied, {})
    else
      && seen == map[] && TagGained(tag0, st0, tag1) && (tag1.None? <==> Pending(kd, seen, des) == {})
      && (tag1.Some? ==> DoneExactly(kd, tag1.value, st0, st1, seen.Keys, des, Pending(kd, seen, des)))
  }

  /** Which is what happens if everything is answered. */
  lemma FirstDoesAll<R(!new), P, B>(
    kd: Kind<R, P, B>, part: Option<seq<(Key<R>, P)>>, env: Env<R>, tag0: Option<int>, st0: Store<R, B>,
    tag1: Option<int>, st1: Store<R, B>, first: Outcome, seen: map<Key<R>, P>, failed: set<Key<R>>)
    requires part.Some? && Undisturbed(env) && Serves(env.answers) && Ensurable(tag0, env.tag)
    requires tag0.Some? ==> UniqueNames(kd, tag0.value, st0)
    requires Reported(kd, part, env, tag0, st0, tag1, st1, first, seen, failed)
    ensures first == Finished(true, |PendingPart(kd, seen, part)|, 0)
    ensures DidAll(kd, tag0, st0, tag1, st1, first.applied, seen, Index(part.value))
  {
    NoneRefused(kd, part, env, tag0, first, seen, failed);
    SeenAtFirst(kd, tag0, st0, env.answers, seen);
  }

  /**
   * What is pending for the next reconcile, if its reads are answered. Before there was a tag, the first one missed
   * what was hidden, and this one meets it.
   */
  lemma SecondPendingIff<R(!new), P(!new), B>(kd: Kind<R, P, B>, tag0: Option<int>, st0: Store<R, B>, tag1: Option<int>,
                                        st1: Store<R, B>, applied: nat, v: map<Key<R>, P>, des: map<Key<R>, P>,
                                        a: Answers<R>, seen: map<Key<R>, P>)
    requires DidAll(kd, tag0, st0, tag1, st1, applied, v, des)
    requires Reads(a) && Saw(kd, tag1, st1, a, seen)
    ensures Unnoticed(kd, tag0, st0, des) ==> Pending(kd, seen, des) != {}
    ensures !Twinned(kd, tag0, st0, des) ==>
              (Pending(kd, seen, des) == {} <==> !Unnoticed(kd, tag0, st0, des) && PendingIsStable(kd, v, des))
  {
    if tag0.Some? {
      SecondPending(kd, tag0.value, st0, st1, applied, a, v, des, seen);
    } else {
      SecondPendingFresh(kd, st0, tag1, st1, a, v, des, seen);
    }
  }

  /** What a second reconcile reports and does after one that did all that was pending. */
  lemma TwoInARow<R(!new), P(!new), B>(
    kd: Kind<R, P, B>, part: Option<seq<(Key<R>, P)>>, env: Env<R>, tag0: Option<int>, st0: Store<R, B>,
    tag1: Option<int>, st1: Store<R, B>, applied: nat, v: map<Key<R>, P>, tag2: Option<int>, st2: Store<R, B>,
    second: Outcome, seen: map<Key<R>, P>, failed: set<Key<R>>)
    requires part.Some? && Undisturbed(env) && Reads(env.answers)
    requires DidAll(kd, tag0, st0, tag1, st1, applied, v, Index(part.value))
    requires Reported(kd, part, env, tag1, st1, tag2, st2, second, seen, failed)
    ensures Unnoticed(kd, tag0, st0, Index(part.value)) ==> second != Finished(true, 0, 0)
    ensures !Twinned(kd, tag0, st0, Index(part.value)) ==>
              (second == Finished(true, 0, 0) <==>
                 !Unnoticed(kd, tag0, st0, Index(part.value)) && PendingIsStable(kd, v, Index(part.value)))
    ensures second == Finished(true, 0, 0) ==> st2 == st1
    ensures second.Finished? && Unnoticed(kd, tag0, st0, Index(part.value)) ==>
              forall l :: Condemned(kd, tag0, st0, Index(part.value), env.answers, l) ==> l !in st2
  {
    NothingTold(kd, part, env, tag1, second, seen, failed);
    SecondPendingIff(kd, tag0, st0, tag1, st1, applied, v, Index(part.value), env.answers, seen);
    if second.Finished? && Unnoticed(kd, tag0, st0, Index(part.value)) {
      SecondDeletesAll(kd, st0, tag1, st1, st2, env.answers, v, Index(part.value), seen);
    }
  }

  lemma SecondDeletesAll<R(!new), P, B>(
    kd: Kind<R, P, B>, st0: Store<R, B>, tag1: Option<int>, st1: Store<R, B>, st2: Store<R, B>, a: Answers<R>,
    v: map<Key<R>, P>, des: map<Key<R>, P>, seen: map<Key<R>, P>)
    requires DidAll(kd, None, st0, tag1, st1, 0, v, des) && Unnoticed(kd, None, st0, des)
    requires Reads(a) && Saw(kd, tag1, st1, a, seen)
    requires tag1.Some? ==> DoneExactly(kd, tag1.value, st1, st2, seen.Keys, des,
                                        Pending(kd, seen, des) - Refused(a, Pending(kd, seen, des)))
    ensures forall l :: Condemned(kd, None, st0, des, a, l) ==> l !in st2
  {
    AllMissing(kd, des);
    assert v.Keys == {};
    AllVisible(kd, tag1.value, st1, a);
    forall l | Condemned(kd, None, st0, des, a, l) ensures l !in st2 {
      SecondDeletes(kd, tag1.value, st0, st1, st2, a, des, seen, l);
    }
  }

  /** Every pending value survives being written and read back. */
  ghost predicate PendingIsStable<R(!new), P, B>(kd: Kind<R, P, B>, v: map<Key<R>, P>, des: map<Key<R>, P>) {
    forall k :: k in Pending(kd, v, des) && k in des ==> Stable(kd, des[k])
  }

  lemma SecondPending<R(!new), P, B>(kd: Kind<R, P, B>, t: int, st0: Store<R, B>, st1: Store<R, B>, applied: nat,
                                     a: Answers<R>, v: map<Key<R>, P>, des: map<Key<R>, P>, seen: map<Key<R>, P>)
    requires v == View(kd, t, st0) && Settles(kd, t, des, st0, st1, applied, {})
    requires Reads(a) && Saw(kd, Some(t), st1, a, seen)
    ensures Pending(kd, seen, des) == {} <==> PendingIsStable(kd, v, des)
  {
    SettledTarget(kd, t, des, st0, st1, applied);
    SeenIsView(kd, Some(t), st1, t, a, seen);
    ConvergesIffStable(kd, v, des);
  }

  /** The same, if there was no tag before. */
  lemma SecondPendingFresh<R(!new), P(!new), B>(
    kd: Kind<R, P, B>, st0: Store<R, B>, tag1: Option<int>, st1: Store<R, B>, a: Answers<R>, none: map<Key<R>, P>,
    des: map<Key<R>, P>, seen: map<Key<R>, P>)
    requires none == map[] && TagGained(None, st0, tag1) && Reads(a) && Saw(kd, tag1, st1, a, seen)
    requires tag1.Some? ==> DoneExactly(kd, tag1.value, st0, st1, none.Keys, des, Pending(kd, none, des))
    requires tag1.None? <==> Pending(kd, none, des) == {}
    ensures Unnoticed(kd, None, st0, des) ==> Pending(kd, seen, des) != {}
    ensures !Twinned(kd, None, st0, des) ==>
              (Pending(kd, seen, des) == {} <==> !Unnoticed(kd, None, st0, des) && PendingIsStable(kd, none, des))
  {
    AllMissing(kd, des);
    assert none.Keys == {};
    if tag1.Some? { AfterFreshStart(kd, tag1.value, st0, st1, a, des, seen); }
  }

  /** With nothing seen, everything desired is pending. */
  lemma AllMissing<R, P, B>(kd: Kind<R, P, B>, des: map<Key<R>, P>)
    ensures Pending(kd, map[], des) == des.Keys
    ensures des == map[] <==> des.Keys == {}
  {
    var none: map<Key<R>, P> := map[];
    forall k | k in des ensures k in Pending(kd, none, des) {
      assert PendingOp(kd, none, des, k) == Some(Create);
    }
  }

  /** If everything is answered, nothing fails. */
  lemma NoneRefused<R(!new), P, B>(kd: Kind<R, P, B>, part: Option<seq<(Key<R>, P)>>, env: Env<R>, tag: Option<int>,
                                   outcome: Outcome, seen: map<Key<R>, P>, failed: set<Key<R>>)
    requires Undisturbed(env) && Serves(env.answers) && Ensurable(tag, env.tag)
    requires Told(kd, part, env, tag, outcome, seen, failed)
    ensures failed == {} && outcome == Finished(true, |PendingPart(kd, seen, part)|, 0)
    ensures PendingPart(kd, seen, part) - failed == PendingPart(kd, seen, part)
  {
    assert Refused(env.answers, PendingPart(kd, seen, part)) == {};
    assert PendingPart(kd, seen, part) - {} == PendingPart(kd, seen, part);
  }

  /** With unique names a complete reading is the view; without a tag nothing is seen. */
  lemma SeenAtFirst<R(!new), P, B>(kd: Kind<R, P, B>, tag: Option<int>, st: Store<R, B>, a: Answers<R>,
                                   seen: map<Key<R>, P>)
    requires Reads(a) && Saw(kd, tag, st, a, seen) && (tag.Some? ==> UniqueNames(kd, tag.value, st))
    ensures seen == if tag.Some? then View(kd, tag.value, st) else map[]
  {
    if tag.Some? { SeenIsView(kd, tag, st, tag.value, a, seen); }
  }

  /** What is seen after a tag has been created for `des`: that, and what was hidden. */
  lemma AfterFreshStart<R(!new), P(!new), B>(
    kd: Kind<R, P, B>, t: int, st0: Store<R, B>, st1: Store<R, B>, a: Answers<R>, des: map<Key<R>, P>,
    seen: map<Key<R>, P>)
    requires DoneExactly(kd, t, st0, st1, {}, des, des.Keys) && forall l :: l in st0 ==> t !in st0[l].tags
    requires Reads(a) && Saw(kd, Some(t), st1, a, seen) && des != map[]
    ensures Unnoticed(kd, None, st0, des) ==> Pending(kd, seen, des) != {}
    ensures !Twinned(kd, None, st0, des) ==>
              (Pending(kd, seen, des) == {} <==> !Unnoticed(kd, None, st0, des) && AllStable(kd, des))
  {
    AllVisible(kd, t, st1, a);
    if Unnoticed(kd, None, st0, des) {
      UnnoticedIsPending(kd, t, st0, st1, des, seen);
    } else if !Twinned(kd, None, st0, des) {
      forall k ensures CreatedIfDesired(kd, t, st1, des, k) {
        OnlyCreated(kd, t, st0, st1, des, k);
      }
      SeenAsCreated(kd, t, st1, des, seen);
      PendingUnstable(kd, seen, des);
    }
  }

  lemma AllVisible<R(!new), P, B>(kd: Kind<R, P, B>, t: int, st: Store<R, B>, a: Answers<R>)
    requires Reads(a)
    ensures Visible(kd, Some(t), st, a) == OwnedKeys(kd, t, st)
  {
  }

  /** The name has an owner exactly if it is desired, and then what was created. */
  ghost predicate CreatedIfDesired<R(!new), P(!new), B>(kd: Kind<R, P, B>, t: int, st: Store<R, B>,
                                                        des: map<Key<R>, P>, k: Key<R>) {
    && (k in OwnedKeys(kd, t, st) <==> k in des)
    && (k in des ==> forall p :: HeldAs(kd, t, st, k, p) ==> p == Back(kd, des[k]))
  }

  lemma SeenAsCreated<R(!new), P(!new), B>(kd: Kind<R, P, B>, t: int, st: Store<R, B>, des: map<Key<R>, P>,
                                           seen: map<Key<R>, P>)
    requires forall k :: CreatedIfDesired(kd, t, st, des, k)
    requires seen.Keys == OwnedKeys(kd, t, st) && forall k :: k in seen ==> HeldAs(kd, t, st, k, seen[k])
    ensures seen.Keys == des.Keys && forall k :: k in des ==> seen[k] == Back(kd, des[k])
  {
    forall k ensures k in seen <==> k in des { assert CreatedIfDesired(kd, t, st, des, k); }
    forall k | k in des ensures seen[k] == Back(kd, des[k]) {
      assert CreatedIfDesired(kd, t, st, des, k) && HeldAs(kd, t, st, k, seen[k]);
    }
  }

  lemma UnnoticedIsPending<R(!new), P, B>(kd: Kind<R, P, B>, t: int, st0: Store<R, B>, st1: Store<R, B>,
                                          des: map<Key<R>, P>, seen: map<Key<R>, P>)
    requires DoneExactly(kd, t, st0, st1, {}, des, des.Keys) && Unnoticed(kd, None, st0, des)
    requires seen.Keys == OwnedKeys(kd, t, st1)
    ensures Pending(kd, seen, des) != {}
  {
    var l :| Hidden(kd, None, st0, l) && st0[l].key !in des;
    HiddenStays(kd, t, st0, st1, des, l);
    SurplusIsPending(kd, seen, des, st0[l].key);
  }

  /** And unless the service refuses, something hidden, not desired and alone under its name is deleted. */
  lemma UnnoticedIsDeleted<R(!new), P, B>(
    kd: Kind<R, P, B>, t: int, st0: Store<R, B>, st1: Store<R, B>, st2: Store<R, B>, des: map<Key<R>, P>,
    seen: map<Key<R>, P>, done: set<Key<R>>, l: Loc<R>)
    requires DoneExactly(kd, t, st0, st1, {}, des, des.Keys) && forall m :: m in st0 ==> t !in st0[m].tags
    requires Hidden(kd, None, st0, l) && st0[l].key !in des && AloneUnderName(st0, l)
    requires DoneExactly(kd, t, st1, st2, seen.Keys, des, done) && st0[l].key in seen && st0[l].key in done
    ensures l !in st2
  {
    var k := st0[l].key;
    var at: map<Key<R>, Loc<R>> :| DoneAt(kd, t, st0, st1, {}, des, des.Keys, at);
    var at': map<Key<R>, Loc<R>> :| DoneAt(kd, t, st1, st2, seen.Keys, des, done, at');
    assert k in at' && Holds(kd, t, st1, at'[k], k) && at'[k] !in st2;
    assert Spared(at, at'[k]);
  }

  /** Hidden, not desired, alone under its name, and its deletion is not refused. */
  ghost predicate Condemned<R(!new), P, B>(kd: Kind<R, P, B>, tag: Option<int>, st: Store<R, B>, des: map<Key<R>, P>,
                                           a: Answers<R>, l: Loc<R>) {
    Hidden(kd, tag, st, l) && st[l].key !in des && AloneUnderName(st, l) && a.writes(st[l].key)
  }

  lemma SecondDeletes<R(!new), P, B>(
    kd: Kind<R, P, B>, t: int, st0: Store<R, B>, st1: Store<R, B>, st2: Store<R, B>, a: Answers<R>,
    des: map<Key<R>, P>, seen: map<Key<R>, P>, l: Loc<R>)
    requires DoneExactly(kd, t, st0, st1, {}, des, des.Keys) && forall m :: m in st0 ==> t !in st0[m].tags
    requires seen.Keys == OwnedKeys(kd, t, st1) && Condemned(kd, None, st0, des, a, l)
    requires DoneExactly(kd, t, st1, st2, seen.Keys, des,
                         Pending(kd, seen, des) - Refused(a, Pending(kd, seen, des)))
    ensures l !in st2
  {
    HiddenStays(kd, t, st0, st1, des, l);
    SurplusIsPending(kd, seen, des, st0[l].key);
    UnnoticedIsDeleted(kd, t, st0, st1, st2, des, seen, Pending(kd, seen, des) - Refused(a, Pending(kd, seen, des)),
                       l);
  }

  ghost predicate AloneUnderName<R(!new), B>(st: Store<R, B>, l: Loc<R>) {
    l in st && forall m :: m in st && st[m].key == st[l].key ==> m == l
  }

  lemma SurplusIsPending<R, P, B>(kd: Kind<R, P, B>, seen: map<Key<R>, P>, des: map<Key<R>, P>, k: Key<R>)
    requires k in seen && k !in des
    ensures k in Pending(kd, seen, des)
  {
    assert PendingOp(kd, seen, des, k) == Some(Delete);
  }

  lemma PendingUnstable<R, P, B>(kd: Kind<R, P, B>, seen: map<Key<R>, P>, des: map<Key<R>, P>)
    requires seen.Keys == des.Keys && forall k :: k in des ==> seen[k] == Back(kd, des[k])
    ensures Pending(kd, seen, des) == {} <==> AllStable(kd, des)
  {
    forall k | k in des ensures PendingOp(kd, seen, des, k) == if Stable(kd, des[k]) then None else Some(Update) {}
    if k :| k in des && !Stable(kd, des[k]) { assert k in Pending(kd, seen, des); }
  }

  lemma HiddenStays<R(!new), P, B>(kd: Kind<R, P, B>, t: int, st0: Store<R, B>, st1: Store<R, B>, des: map<Key<R>, P>,
                                   l: Loc<R>)
    requires DoneExactly(kd, t, st0, st1, {}, des, des.Keys) && Hidden(kd, None, st0, l)
    ensures Holds(kd, t, st1, l, st0[l].key)
  {
    var at: map<Key<R>, Loc<R>> :| DoneAt(kd, t, st0, st1, {}, des, des.Keys, at);
    forall k | k in at ensures at[k] != l { assert Placed(kd, t, st0, {}, at); }
    assert Spared(at, l);
  }

  lemma OnlyCreated<R(!new), P(!new), B>(kd: Kind<R, P, B>, t: int, st0: Store<R, B>, st1: Store<R, B>,
                                         des: map<Key<R>, P>, k: Key<R>)
    requires DoneExactly(kd, t, st0, st1, {}, des, des.Keys) && forall l :: l in st0 ==> t !in st0[l].tags
    requires forall l :: !Hidden(kd, None, st0, l)
    ensures CreatedIfDesired(kd, t, st1, des, k)
  {
    var at: map<Key<R>, Loc<R>> :| DoneAt(kd, t, st0, st1, {}, des, des.Keys, at);
    if k in des { assert Holds(kd, t, st1, at[k], k); }
    forall l | Holds(kd, t, st1, l, k) ensures k in des && st1[l] == Written(kd, t, k, des[k]) {
      assert Spared(at, l) ==> Hidden(kd, None, st0, l);
    }
  }

  ghost predicate Undisturbed<R(!new)>(env: Env<R>) {
    env.connects && env.discovers
  }

  /** Every read is answered. */
  ghost predicate Reads<R(!new)>(a: Answers<R>) {
    a.tagRead && forall r :: a.lists(r)
  }

  /** With nothing pending on what it saw, a reconcile that reaches the service reports that there was nothing to do. */
  lemma NothingTold<R(!new), P, B>(kd: Kind<R, P, B>, part: Option<seq<(Key<R>, P)>>, env: Env<R>, tag: Option<int>,
                                   outcome: Outcome, seen: map<Key<R>, P>, failed: set<Key<R>>)
    requires Undisturbed(env) && Told(kd, part, env, tag, outcome, seen, failed)
    ensures outcome == Finished(true, 0, 0) <==> PendingPart(kd, seen, part) == {}
  {
    if outcome == Finished(true, 0, 0) {
      assert failed == {};
      assert PendingPart(kd, seen, part) - failed == PendingPart(kd, seen, part);
    }
  }

  /**
   * What "in sync" means after a swallowed read: with nothing pending on what was seen, the service is in sync if and
   * only if no owned name was missed. A missed name that is not desired goes unnoticed; one that is desired is created
   * a second time. Without a tag every owned name is missed, whatever tag `t` the service will have.
   */
  lemma InSyncUnlessMissed<R(!new), P, B>(kd: Kind<R, P, B>, tag: Option<int>, st: Store<R, B>, t: int, a: Answers<R>,
                                          seen: map<Key<R>, P>, des: map<Key<R>, P>)
    requires Saw(kd, tag, st, a, seen) && (tag.Some? ==> t == tag.value && UniqueNames(kd, t, st))
    ensures Pending(kd, seen, des) == {} ==>
              (Pending(kd, View(kd, t, st), des) == {} <==> OwnedKeys(kd, t, st) <= Visible(kd, tag, st, a))
    ensures forall k :: k in OwnedKeys(kd, t, st) && k in des ==>
              (PendingOp(kd, seen, des, k) == Some(Create) <==> k !in Visible(kd, tag, st, a))
  {
    var v := View(kd, t, st);
    if Pending(kd, seen, des) == {} {
      forall k ensures k in seen <==> k in des {
        assert k !in Pending(kd, seen, des);
      }
      if k :| k in OwnedKeys(kd, t, st) && k !in Visible(kd, tag, st, a) {
        assert PendingOp(kd, v, des, k) == Some(Delete);
        assert k in Pending(kd, v, des);
      } else {
        assert seen == v;
      }
    }
  }

  /** So a reconcile that reports that there was nothing to do is right if and only if it missed no owned name. */
  lemma NothingToDoIsRightIff<R(!new), P, B>(kd: Kind<R, P, B>, part: Option<seq<(Key<R>, P)>>, env: Env<R>,
                                             tag: Option<int>, st: Store<R, B>, t: int, outcome: Outcome,
                                             seen: map<Key<R>, P>, failed: set<Key<R>>)
    requires part.Some? && Undisturbed(env) && (tag.Some? ==> t == tag.value && UniqueNames(kd, t, st))
    requires Told(kd, part, env, tag, outcome, seen, failed) && Saw(kd, tag, st, env.answers, seen)
    requires outcome == Finished(true, 0, 0)
    ensures Pending(kd, View(kd, t, st), Index(part.value)) == {} <==>
            OwnedKeys(kd, t, st) <= Visible(kd, tag, st, env.answers)
  {
    NothingTold(kd, part, env, tag, outcome, seen, failed);
    InSyncUnlessMissed(kd, tag, st, t, env.answers, seen, Index(part.value));
  }

  /** After an error-free reconcile the view is the target of everything that was pending. */
  lemma SettledTarget<R(!new), P, B>(kd: Kind<R, P, B>, t: int, des: map<Key<R>, P>, st0: Store<R, B>, st: Store<R, B>,
                                     applied: nat)
    requires Settles(kd, t, des, st0, st, applied, {})
    ensures UniqueNames(kd, t, st)
    ensures View(kd, t, st) == Target(kd, View(kd, t, st0), des, Pending(kd, View(kd, t, st0), des))
  {
    var v := View(kd, t, st0);
    assert Pending(kd, v, des) - {} == Pending(kd, v, des);
  }

  /**
   * What an error-free reconcile leaves: of the owned names exactly those desired, and under each what the comparer
   * accepted before or what has just been written.
   */
  lemma EndState<R(!new), P, B>(kd: Kind<R, P, B>, t: int, des: map<Key<R>, P>, st0: Store<R, B>, st: Store<R, B>,
                                applied: nat)
    requires Settles(kd, t, des, st0, st, applied, {})
    ensures OwnedKeys(kd, t, st) == des.Keys
    ensures forall l, k :: Holds(kd, t, st, l, k) ==>
              k in des && (kd.same(kd.read(st[l].body), des[k]) || kd.read(st[l].body) == Back(kd, des[k]))
  {
    var v := View(kd, t, st0);
    SettledTarget(kd, t, des, st0, st, applied);
    forall k ensures k in OwnedKeys(kd, t, st) <==> k in des {
      assert k in View(kd, t, st) <==> k in des by {
        assert k in v && k !in des ==> PendingOp(kd, v, des, k) == Some(Delete);
        assert k !in v && k in des ==> PendingOp(kd, v, des, k) == Some(Create);
      }
    }
    forall l, k | Holds(kd, t, st, l, k)
      ensures k in des && (kd.same(kd.read(st[l].body), des[k]) || kd.read(st[l].body) == Back(kd, des[k]))
    {
      assert k in OwnedKeys(kd, t, st) && Locate(kd, t, st, k) == l;
      assert View(kd, t, st)[k] == kd.read(st[l].body);
      assert k !in Pending(kd, v, des) ==> k in v && kd.same(v[k], des[k]);
    }
  }

  /** A tag that no resource carries yet is carried under unique names. */
  lemma UniqueUnder<R(!new), P, B>(kd: Kind<R, P, B>, tag: Option<int>, st: Store<R, B>, t: int)
    requires if tag.Some? then tag.value == t && UniqueNames(kd, t, st)
             else NoneHidden(kd, st) && forall l :: l in st ==> t !in st[l].tags
    ensures UniqueNames(kd, t, st)
  {
    if tag.None? { assert OwnedKeys(kd, t, st) == {}; }
  }

  /** With anything desired, a service in sync has the tag. */
  lemma SyncedHasTag<R(!new), P, B>(kd: Kind<R, P, B>, part: Option<seq<(Key<R>, P)>>, env: Env<R>, tag: Option<int>,
                                    st: Store<R, B>, tag': Option<int>, st': Store<R, B>, outcome: Outcome,
                                    seen: map<Key<R>, P>, failed: set<Key<R>>)
    requires part.Some? && Index(part.value) != map[] && outcome.Finished?
    requires Reported(kd, part, env, tag, st, tag', st', outcome, seen, failed)
    ensures tag'.Some?
  {
    if tag.None? {
      assert seen.Keys == {};
      AllMissing(kd, Index(part.value));
    }
  }

  /** The status condition is accurate: after stable writes the next diff is exactly the failed changes. */
  lemma SettledResidual<R(!new), P, B>(kd: Kind<R, P, B>, t: int, des: map<Key<R>, P>, st0: Store<R, B>,
                                       st: Store<R, B>, applied: nat, failed: set<Key<R>>)
    requires Settles(kd, t, des, st0, st, applied, failed) && AllStable(kd, des)
    ensures Pending(kd, View(kd, t, st), des) == failed
    ensures forall k :: k in failed ==>
              PendingOp(kd, View(kd, t, st), des, k) == PendingOp(kd, View(kd, t, st0), des, k)
    ensures applied + |failed| == |Pending(kd, View(kd, t, st0), des)|
  {
    var v := View(kd, t, st0);
    var done := Pending(kd, v, des) - failed;
    assert Pending(kd, v, des) - done == failed;
    ResidualIsFailures(kd, v, des, done);
    assert View(kd, t, st) == Target(kd, v, des, done);
  }

  lemma SettlesFromApply<R(!new), P, B>(kd: Kind<R, P, B>, t: int, cur: map<Key<R>, Held<P>>, des: map<Key<R>, P>,
                                        cs: ChangeSet<R, P>, a: Answers<R>, st0: Store<R, B>, st: Store<R, B>,
                                        result: ApplyResult<R, P>)
    requires IsDiff(kd, cur, des, cs) && Mirrors(kd, t, st0, Values(cur))
    requires All(cs) == [] ==> result == ApplyResult(0, []) && st == st0
    requires All(cs) != [] ==>
               && Accounts(kd, Values(cur), des, a, result)
               && Mirrors(kd, t, st, Target(kd, Values(cur), des,
                                            Pending(kd, Values(cur), des) - KeysOf(result.errors)))
    ensures Settles(kd, t, des, st0, st, result.applied, KeysOf(result.errors))
  {
    DiffIsPartition(kd, cur, des, cs);
    if All(cs) == [] {
      assert KeysOf(All(cs)) == {};
      TargetOfNothing(kd, Values(cur), des);
      assert Pending(kd, Values(cur), des) - KeysOf(result.errors) == {};
    } else {
      assert All(cs)[0].key in KeysOf(All(cs));
    }
  }

  /** Against nothing desired, everything is surplus. */
  lemma PendingSurplus<R, P, B>(kd: Kind<R, P, B>, v: map<Key<R>, P>, none: map<Key<R>, P>)
    requires none == map[]
    ensures Pending(kd, v, none) == v.Keys
  {
    forall k ensures k in Pending(kd, v, none) <==> k in v {
      assert k in v ==> PendingOp(kd, v, none, k) == Some(Delete);
    }
  }

  lemma CleanedUp<R(!new), P, B>(kd: Kind<R, P, B>, t: int, none: map<Key<R>, P>, st0: Store<R, B>, st: Store<R, B>,
                                 applied: nat, failed: set<Key<R>>)
    requires none == map[] && Settles(kd, t, none, st0, st, applied, failed)
    ensures OwnedKeys(kd, t, st) == failed
  {
    var v := View(kd, t, st0);
    PendingSurplus(kd, v, none);
    var after := Target(kd, v, none, v.Keys - failed);
    assert View(kd, t, st).Keys == after.Keys;
    forall k ensures k in after <==> k in failed {}
  }

  lemma CleanedUpToRefused<R(!new), P, B>(kd: Kind<R, P, B>, t: int, a: Answers<R>, none: map<Key<R>, P>,
                                          st0: Store<R, B>, st: Store<R, B>, applied: nat, failed: set<Key<R>>)
    requires none == map[] && failed == Refused(a, Pending(kd, View(kd, t, st0), none))
    requires Settles(kd, t, none, st0, st, applied, failed)
    ensures OwnedKeys(kd, t, st) == Refused(a, OwnedKeys(kd, t, st0))
  {
    PendingSurplus(kd, View(kd, t, st0), none);
    CleanedUp(kd, t, none, st0, st, applied, failed);
  }

  lemma {:induction false} DistinctKeyCount<R, P>(chs: seq<Change<R, P>>)
    requires DistinctKeys(chs)
    ensures |KeysOf(chs)| == |chs|
  {
    if chs != [] {
      var i := |chs| - 1;
      DistinctKeyCount(chs[..i]);
      KeysOfPrefix(chs, i);
      assert chs[..i + 1] == chs;
    }
  }

  class Controller<R(==,!new), P(!new), B(!new)> {
    const adapter: Adapter<R, P, B>

    constructor (adapter: Adapter<R, P, B>)
      ensures this.adapter == adapter
    {
      this.adapter := adapter;
    }

    /** What a reconcile does to the service and the cache, whatever was stale, unread or failed. */
    twostate predicate Framed(part: Option<seq<(Key<R>, P)>>)
      reads adapter.server, adapter.cache
    {
      && adapter.server.Valid() && (old(adapter.server.tag).Some? ==> adapter.server.tag == old(adapter.server.tag))
      && (if adapter.server.tag.Some? then ForeignKept(adapter.kd, adapter.server.tag.value, old(adapter.server.store),
                                                       adapter.server.store)
          else adapter.server.store == old(adapter.server.store))
      && CacheKept(adapter.client.baseURL, old(adapter.cache.ids), adapter.cache.ids,
                   Touchable(adapter.kd, old(adapter.server.tag), old(adapter.server.store), Desired(part)))
    }

    /** CurrentState, with the by-name view it yields. */
    method Observe(a: Answers<R>) returns (current: Entries<R, P>)
      requires adapter.server.Valid() && forall r: R :: r in adapter.types
      modifies adapter.cache
      ensures Index(current).Keys != {} ==> adapter.server.tag.Some?
      ensures forall k :: k in Index(current) ==> Live(adapter.kd, adapter.client, adapter.cache.ids,
                adapter.server.store, adapter.server.tag.value, k, Index(current)[k].id)
      ensures CacheKept(adapter.client.baseURL, old(adapter.cache.ids), adapter.cache.ids,
                        Touchable(adapter.kd, adapter.server.tag, adapter.server.store, map[]))
      ensures Saw(adapter.kd, adapter.server.tag, adapter.server.store, a, Values(Index(current)))
    {
      current := adapter.CurrentState(a);
      CurrentIsLive(current);
      if adapter.server.tag.Some? && a.tagRead {
        EntriesAreSeen(adapter.kd, adapter.client, adapter.cache.ids, adapter.server.store, adapter.server.tag.value,
                       adapter.types, a, current);
      }
    }

    /** CurrentState, Diff and, unless there is nothing to do, Apply. `seen` is the by-name state that was compared. */
    method Cycle(part: Option<seq<(Key<R>, P)>>, e: TagEnv, a: Answers<R>)
      returns (result: Option<ApplyResult<R, P>>, ghost seen: map<Key<R>, P>)
      requires adapter.server.Valid() && forall r: R :: r in adapter.types
      modifies adapter.server, adapter.cache
      ensures Framed(part)
      ensures Saw(adapter.kd, old(adapter.server.tag), old(adapter.server.store), a, seen)
      ensures TagGained(old(adapter.server.tag), old(adapter.server.store), adapter.server.tag)
      // There is no result exactly if something was to be done and the tag could not be had.
      ensures result.None? <==> PendingPart(adapter.kd, seen, part) != {} && !Ensurable(old(adapter.server.tag), e)
      ensures result.None? || PendingPart(adapter.kd, seen, part) == {} ==>
                adapter.server.store == old(adapter.server.store) && adapter.server.tag == old(adapter.server.tag)
      // The errors are exactly the changes the service refused.
      ensures result.Some? ==> Counts(adapter.kd, seen, part, a, result.value)
      ensures result.Some? && PendingPart(adapter.kd, seen, part) != {} ==> adapter.server.tag.Some?
      // The others rewrote, removed or added one resource each, and nothing else happened to the store.
      ensures result.Some? && adapter.server.tag.Some? ==>
                DoneExactly(adapter.kd, adapter.server.tag.value, old(adapter.server.store), adapter.server.store,
                            seen.Keys, Desired(part), PendingPart(adapter.kd, seen, part) - KeysOf(result.value.errors))
      ensures part.Some? && result.Some? && adapter.server.tag.Some? &&
              SawAll(adapter.kd, old(adapter.server.tag), old(adapter.server.store), a) &&
              UniqueNames(adapter.kd, adapter.server.tag.value, old(adapter.server.store)) ==>
                && seen == View(adapter.kd, adapter.server.tag.value, old(adapter.server.store))
                && Settles(adapter.kd, adapter.server.tag.value, Index(part.value), old(adapter.server.store),
                           adapter.server.store,
                           result.value.applied, KeysOf(result.value.errors))
    {
      ghost var tag0, st0, ids0 := adapter.server.tag, adapter.server.store, adapter.cache.ids;
      var current := Observe(a);
      ghost var ids1, cur, des := adapter.cache.ids, Index(current), Desired(part);
      seen := Values(cur);
      var cs := DiffPart(adapter.kd, current, part);
      EmptyIffNothingPending(adapter.kd, cur, part, cs);
      if All(cs) != [] {
        result := adapter.Apply(cs, e, a, cur, des);
      } else {
        result := Some(ApplyResult(0, []));
      }
      if adapter.server.tag.Some? && result.Some? {
        if All(cs) == [] {
          NothingDone(adapter.kd, adapter.server.tag.value, st0, seen.Keys, des);
          assert PendingPart(adapter.kd, seen, part) - KeysOf(result.value.errors) == {};
        }
        DoneKeepsForeign(adapter.kd, adapter.server.tag.value, st0, adapter.server.store, seen.Keys, des,
                         PendingPart(adapter.kd, seen, part) - KeysOf(result.value.errors));
      }
      CacheFramed(adapter.kd, adapter.client.baseURL, tag0, st0, seen, des, ids0, ids1, adapter.cache.ids);
      if part.Some? && result.Some? && adapter.server.tag.Some? && SawAll(adapter.kd, tag0, st0, a)
         && UniqueNames(adapter.kd, adapter.server.tag.value, st0) {
        SeenIsView(adapter.kd, tag0, st0, adapter.server.tag.value, a, seen);
        SettlesFromApply(adapter.kd, adapter.server.tag.value, cur, des, cs, a, st0, adapter.server.store,
                         result.value);
      }
    }

    /**
     * The controller's flow. Unreachable, if the service cannot be reached or discovered; a crash on the nil
     * result, exactly if Apply cannot have its tag; otherwise Synced holds exactly if no change was refused.
     */
    method ReconcileConfig(ir: IR<R, P>, env: Env<R>, status: ConfigStatus)
      returns (outcome: Outcome, ghost seen: map<Key<R>, P>, ghost failed: set<Key<R>>)
      requires adapter.server.Valid() && forall r: R :: r in adapter.types
      modifies adapter.server, adapter.cache, status
      ensures Framed(Part(ir, adapter.client.ownPart))
      ensures Reported(adapter.kd, Part(ir, adapter.client.ownPart), env, old(adapter.server.tag),
                       old(adapter.server.store),
                       adapter.server.tag, adapter.server.store, outcome, seen, failed)
      ensures StatusTells(status.connected, old(status.conditions), status.conditions, env.connects, env.discovers,
                          outcome)
    {
      failed, seen := {}, map[];
      if !env.connects {
        status.SetConnected(false);
        status.SetCondition(TypeConnected, false, ConnectionFailed);
        status.SetCondition(TypeReady, false, ConnectionFailed);
        return Unreachable, seen, failed;
      }
      status.SetConnected(true);
      status.SetCondition(TypeConnected, true, Connected);
      if !env.discovers {
        status.SetCondition(TypeReady, false, DiscoveryFailed);
        return Unreachable, seen, failed;
      }
      outcome, seen, failed := SyncUp(Part(ir, adapter.client.ownPart), env);
      if outcome == Panicked {
        status.SetCondition(TypeSynced, false, ApplyFailed);  // the crash comes before Ready is set
      } else {
        var reason := if !outcome.synced then PartiallyApplied else if outcome.applied == 0 then InSync else Synced;
        status.SetCondition(TypeSynced, outcome.synced, reason);
        status.SetCondition(TypeReady, true, Ready);
      }
    }

    /** What follows discovery: the outcome by the result and its errors. */
    method SyncUp(part: Option<seq<(Key<R>, P)>>, env: Env<R>)
      returns (outcome: Outcome, ghost seen: map<Key<R>, P>, ghost failed: set<Key<R>>)
      requires adapter.server.Valid() && (forall r: R :: r in adapter.types) && env.connects && env.discovers
      modifies adapter.server, adapter.cache
      ensures Framed(part) && outcome != Unreachable
      ensures Reported(adapter.kd, part, env, old(adapter.server.tag), old(adapter.server.store), adapter.server.tag,
                       adapter.server.store, outcome, seen, failed)
    {
      failed := {};
      var result;
      result, seen := Cycle(part, env.tag, env.answers);
      if result.None? { return Panicked, seen, failed; }
      var errors := result.value.errors;
      failed := KeysOf(errors);
      FinishedIsTold(adapter.kd, part, env, old(adapter.server.tag), seen, result.value);
      outcome := Finished(errors == [], result.value.applied, |errors|);
    }

    /**
     * Two reconciles in a row, of which the first is answered in everything and the second in its reads. The first one
     * does all that is pending; the second finds nothing to do if and only if every value written survives being
     * written and read back and, if there was no tag before, nothing that is not desired was hidden.
     */
    method ReconcileTwice(ir: IR<R, P>, env: Env<R>, env': Env<R>, status: ConfigStatus)
      returns (first: Outcome, second: Outcome, ghost seen: map<Key<R>, P>, ghost between: Store<R, B>)
      requires adapter.server.Valid() && forall r: R :: r in adapter.types
      requires Part(ir, adapter.client.ownPart).Some?
      requires Undisturbed(env) && Serves(env.answers) && Ensurable(adapter.server.tag, env.tag)
      requires Undisturbed(env') && Reads(env'.answers)
      requires adapter.server.tag.Some? ==>
                 UniqueNames(adapter.kd, adapter.server.tag.value, adapter.server.store)
      modifies adapter.server, adapter.cache, status
      ensures seen == if old(adapter.server.tag).Some? then View(adapter.kd, old(adapter.server.tag).value,
                                                                 old(adapter.server.store)) else map[]
      ensures first == Finished(true, |PendingPart(adapter.kd, seen, Part(ir, adapter.client.ownPart))|, 0)
      ensures var des, tag, st := Index(Part(ir, adapter.client.ownPart).value), old(adapter.server.tag),
                                  old(adapter.server.store);
              && (!Twinned(adapter.kd, tag, st, des) ==>
                    (second == Finished(true, 0, 0) <==>
                       !Unnoticed(adapter.kd, tag, st, des) && PendingIsStable(adapter.kd, seen, des)))
              && (Unnoticed(adapter.kd, tag, st, des) ==> second != Finished(true, 0, 0))
              // What was hidden and is not desired is deleted, unless that is refused.
              && (Unnoticed(adapter.kd, tag, st, des) && second.Finished? ==>
                    forall l :: Condemned(adapter.kd, tag, st, des, env'.answers, l) ==> l !in adapter.server.store)
      ensures second == Finished(true, 0, 0) ==> adapter.server.store == between
    {
      ghost var tag0, st0 := adapter.server.tag, adapter.server.store;
      ghost var seen', failed, failed';
      first, seen, failed := ReconcileConfig(ir, env, status);
      between := adapter.server.store;
      ghost var tag1, part := adapter.server.tag, Part(ir, adapter.client.ownPart);
      FirstDoesAll(adapter.kd, part, env, tag0, st0, tag1, between, first, seen, failed);
      second, seen', failed' := ReconcileConfig(ir, env', status);
      TwoInARow(adapter.kd, part, env', tag0, st0, tag1, between, first.applied, seen, adapter.server.tag,
                adapter.server.store, second, seen', failed');
    }

    /**
     * Deleting what is managed, by a diff against an IR that holds nothing but the app's name. An adapter whose
     * part of the IR is then missing asks for no change.
     */
    method CleanupManagedResources(e: TagEnv, a: Answers<R>)
      returns (cleaned: bool, ghost seen: map<Key<R>, P>)
      requires adapter.server.Valid() && forall r: R :: r in adapter.types
      modifies adapter.server, adapter.cache
      ensures Framed(Part(IR(None, []), adapter.client.ownPart))
      ensures adapter.client.ownPart ==> cleaned && adapter.server.store == old(adapter.server.store)
      ensures Saw(adapter.kd, old(adapter.server.tag), old(adapter.server.store), a, seen)
      // With an own part or nothing seen there is nothing to do; otherwise the tag is needed.
      ensures cleaned <==> adapter.client.ownPart || seen == map[] || Ensurable(old(adapter.server.tag), e)
      // Of each name seen one resource is deleted, unless the service refuses, and nothing else happens.
      ensures !cleaned || seen == map[] ==> adapter.server.store == old(adapter.server.store)
      ensures cleaned && !adapter.client.ownPart && adapter.server.tag.Some? ==>
                DoneExactly(adapter.kd, adapter.server.tag.value, old(adapter.server.store), adapter.server.store,
                            seen.Keys, map[], seen.Keys - Refused(a, seen.Keys))
      // After complete reads exactly what the service refused to delete remains.
      ensures cleaned && !adapter.client.ownPart && Reads(a) && old(adapter.server.tag).Some? &&
              UniqueNames(adapter.kd, old(adapter.server.tag).value, old(adapter.server.store)) ==>
                OwnedKeys(adapter.kd, old(adapter.server.tag).value, adapter.server.store) ==
                Refused(a, OwnedKeys(adapter.kd, old(adapter.server.tag).value, old(adapter.server.store)))
    {
      ghost var tag, st0 := adapter.server.tag, adapter.server.store;
      var empty: IR<R, P> := IR(None, []);
      var result;
      result, seen := Cycle(Part(empty, adapter.client.ownPart), e, a);
      cleaned := result.Some?;
      SurplusOnly(adapter.kd, seen);
      PendingSurplus(adapter.kd, seen, map[]);
      if result.Some? && !adapter.client.ownPart && Reads(a) && tag.Some? && UniqueNames(adapter.kd, tag.value, st0) {
        CleanedUpToRefused(adapter.kd, tag.value, a, Index([]), st0, adapter.server.store, result.value.applied,
                           KeysOf(result.value.errors));
      }
    }

    lemma CurrentIsLive(current: Entries<R, P>)
      requires adapter.server.tag.None? ==> current == []
      requires adapter.server.tag.Some? ==>
                 Sound(adapter.kd, adapter.client, adapter.cache.ids, adapter.server.store, adapter.server.tag.value,
                       current)
      ensures Index(current).Keys != {} ==> adapter.server.tag.Some?
      ensures forall k :: k in Index(current) ==> Live(adapter.kd, adapter.client, adapter.cache.ids,
                adapter.server.store, adapter.server.tag.value, k, Index(current)[k].id)
    {
      IndexMembers(current);
      forall k | k in Index(current)
        ensures adapter.server.tag.Some?
        ensures Live(adapter.kd, adapter.client, adapter.cache.ids,
                     adapter.server.store, adapter.server.tag.value, k, Index(current)[k].id)
      {
        var i :| 0 <= i < |current| && current[i] == (k, Index(current)[k]);
        assert Accurate(adapter.kd, adapter.client, adapter.cache.ids, adapter.server.store, adapter.server.tag.value,
                        current[i]);
      }
    }
  }

  ghost function Desired<R, P>(part: Option<seq<(Key<R>, P)>>): map<Key<R>, P> {
    if part.Some? then Index(part.value) else map[]
  }

  /** A tag that is there stays; a new one is carried by nothing yet. */
  ghost predicate TagGained<R(!new), B>(tag: Option<int>, st: Store<R, B>, tag': Option<int>) {
    if tag.Some? then tag' == tag else tag'.Some? ==> forall l :: l in st ==> tag'.value !in st[l].tags
  }

  /** Every pending change is counted, as failed exactly if the service refuses it. */
  ghost predicate Counts<R(!new), P, B>(kd: Kind<R, P, B>, seen: map<Key<R>, P>, part: Option<seq<(Key<R>, P)>>,
                                        a: Answers<R>, result: ApplyResult<R, P>)
  {
    && DistinctKeys(result.errors) && KeysOf(result.errors) == Refused(a, PendingPart(kd, seen, part))
    && result.applied == |PendingPart(kd, seen, part) - KeysOf(result.errors)|
  }

  /** How a reconcile ends that saw `seen`. */
  ghost predicate Told<R(!new), P, B>(kd: Kind<R, P, B>, part: Option<seq<(Key<R>, P)>>, env: Env<R>, tag: Option<int>,
                                      outcome: Outcome, seen: map<Key<R>, P>, failed: set<Key<R>>)
  {
    && (outcome == Unreachable <==> !env.connects || !env.discovers)
    // The crash: something was to be done and the tag could not be had.
    && (outcome == Panicked <==>
          env.connects && env.discovers && PendingPart(kd, seen, part) != {} && !Ensurable(tag, env.tag))
    // Otherwise what failed is exactly what the service refused.
    && (outcome.Finished? ==>
          && failed == Refused(env.answers, PendingPart(kd, seen, part))
          && outcome == Finished(failed == {}, |PendingPart(kd, seen, part) - failed|, |failed|))
  }

  lemma FinishedIsTold<R(!new), P, B>(kd: Kind<R, P, B>, part: Option<seq<(Key<R>, P)>>, env: Env<R>, tag: Option<int>,
                                      seen: map<Key<R>, P>, result: ApplyResult<R, P>)
    requires env.connects && env.discovers && Counts(kd, seen, part, env.answers, result)
    requires PendingPart(kd, seen, part) == {} || Ensurable(tag, env.tag)
    ensures Told(kd, part, env, tag, Finished(result.errors == [], result.applied, |result.errors|), seen,
                 KeysOf(result.errors))
  {
    DistinctKeyCount(result.errors);
    if result.errors != [] { assert result.errors[0].key in KeysOf(result.errors); }
  }

  /** In sync means that every pending change was accepted. */
  lemma SyncedIffAccepted<R(!new), P, B>(kd: Kind<R, P, B>, part: Option<seq<(Key<R>, P)>>, env: Env<R>,
                                         tag: Option<int>, seen: map<Key<R>, P>, failed: set<Key<R>>, outcome: Outcome)
    requires Told(kd, part, env, tag, outcome, seen, failed) && outcome.Finished?
    ensures outcome.synced <==> forall k :: k in PendingPart(kd, seen, part) ==> env.answers.writes(k)
  {
    if k :| k in PendingPart(kd, seen, part) && !env.answers.writes(k) { assert k in failed; }
  }

  /** What a reconcile reports, about a service that was (`tag`, `st`) before and is (`tag'`, `st'`) after. */
  ghost predicate Reported<R(!new), P, B>(kd: Kind<R, P, B>, part: Option<seq<(Key<R>, P)>>, env: Env<R>,
                                          tag: Option<int>, st: Store<R, B>, tag': Option<int>, st': Store<R, B>,
                                          outcome: Outcome, seen: map<Key<R>, P>, failed: set<Key<R>>)
  {
    && TagGained(tag, st, tag') && Told(kd, part, env, tag, outcome, seen, failed)
    && (outcome != Unreachable ==> Saw(kd, tag, st, env.answers, seen))
    && (!outcome.Finished? || PendingPart(kd, seen, part) == {} ==> st' == st && tag' == tag)
    && (outcome.Finished? && PendingPart(kd, seen, part) != {} ==> tag'.Some?)
    // Everything pending that did not fail was done, and nothing else happened to the store.
    && (outcome.Finished? && tag'.Some? ==>
          DoneExactly(kd, tag'.value, st, st', seen.Keys, Desired(part), PendingPart(kd, seen, part) - failed))
    && (outcome.Finished? && part.Some? && tag'.Some? && SawAll(kd, tag, st, env.answers) &&
        UniqueNames(kd, tag'.value, st) ==>
          seen == View(kd, tag'.value, st) &&
              Settles(kd, tag'.value, Index(part.value), st, st', outcome.applied, failed))
  }

  /** Against nothing desired, something is pending exactly if something was seen. */
  lemma SurplusOnly<R, P, B>(kd: Kind<R, P, B>, seen: map<Key<R>, P>)
    ensures Pending(kd, seen, map[]) == {} <==> seen == map[]
  {
    var none: map<Key<R>, P> := map[];
    if seen != map[] {
      var k :| k in seen;
      assert PendingOp(kd, seen, none, k) == Some(Delete);
      assert k in Pending(kd, seen, none);
    }
  }

  /**
   * With a service that has no tag yet a reconcile crashes exactly if anything is desired and the tag cannot be
   * created.
   */
  lemma FirstReconcileCrashesIff<R(!new), P, B>(kd: Kind<R, P, B>, desired: seq<(Key<R>, P)>, env: Env<R>,
                                                st: Store<R, B>, outcome: Outcome, seen: map<Key<R>, P>,
                                                failed: set<Key<R>>)
    requires Undisturbed(env) && Told(kd, Some(desired), env, None, outcome, seen, failed)
    requires Saw(kd, None, st, env.answers, seen)
    ensures outcome == Panicked <==> desired != [] && !env.tag.created
  {
    var none: map<Key<R>, P> := map[];
    assert seen == none;
    IndexMembers(desired);
    if desired != [] {
      assert PendingOp(kd, none, Index(desired), desired[0].0) == Some(Create);
      assert desired[0].0 in Pending(kd, none, Index(desired));
    } else {
      assert Pending(kd, none, Index(desired)) == {};
    }
  }

  lemma CacheKeptWider<R(!new)>(baseURL: string, a: Ids<R>, b: Ids<R>, ks: set<Key<R>>, js: set<Key<R>>)
    requires ks <= js && CacheKept(baseURL, a, b, ks)
    ensures CacheKept(baseURL, a, b, js)
  {
    assert CacheKeys(baseURL, ks) <= CacheKeys(baseURL, js);
  }

  /** The cache entries written by observing and then applying are those of owned and desired names. */
  lemma CacheFramed<R(!new), P, B>(kd: Kind<R, P, B>, baseURL: string, tag: Option<int>, st: Store<R, B>,
                                   seen: map<Key<R>, P>, des: map<Key<R>, P>, a: Ids<R>, b: Ids<R>, d: Ids<R>)
    requires if tag.None? then seen == map[] else seen.Keys <= OwnedKeys(kd, tag.value, st)
    requires CacheKept(baseURL, a, b, Touchable(kd, tag, st, map[]))
    requires (b == d || CacheKept(baseURL, b, d, Pending(kd, seen, des)))
    ensures CacheKept(baseURL, a, d, Touchable(kd, tag, st, des))
  {
    CacheKeptWider(baseURL, a, b, Touchable(kd, tag, st, map[]), Touchable(kd, tag, st, des));
    if b != d { CacheKeptTransitive(baseURL, a, b, d, Pending(kd, seen, des), Touchable(kd, tag, st, des)); }
  }

  /**
   * What was seen is the view under the tag as it is afterwards, if the reads were complete or there was no tag to
   * read by.
   */
  lemma SeenIsView<R(!new), P, B>(kd: Kind<R, P, B>, tag: Option<int>, st: Store<R, B>, t: int, a: Answers<R>,
                                  seen: map<Key<R>, P>)
    requires Saw(kd, tag, st, a, seen) && UniqueNames(kd, t, st) && SawAll(kd, tag, st, a)
    requires if tag.Some? then tag.value == t else forall l :: l in st ==> t !in st[l].tags
    ensures Mirrors(kd, t, st, seen)
  {
    if tag.None? { assert OwnedKeys(kd, t, st) == {}; }
  }

  /** The names whose cache entries a reconcile may write: those it owns and those desired. */
  ghost function Touchable<R(!new), P, B>(kd: Kind<R, P, B>, tag: Option<int>, st: Store<R, B>,
                                          des: map<Key<R>, P>): set<Key<R>> {
    des.Keys + if tag.Some? then OwnedKeys(kd, tag.value, st) else {}
  }

  /** The by-name view of the store is `v`, and no owned name occurs twice. */
  ghost predicate Mirrors<R(!new), P, B>(kd: Kind<R, P, B>, t: int, st: Store<R, B>, v: map<Key<R>, P>) {
    UniqueNames(kd, t, st) && View(kd, t, st) == v
  }

  ghost predicate Requested<R, P, B>(kd: Kind<R, P, B>, v: map<Key<R>, P>, des: map<Key<R>, P>, ch: Change<R, P>) {
    && PendingOp(kd, v, des, ch.key) == Some(ch.op)
    && ch.payload == if ch.op.Delete? then None else Some(des[ch.key])
  }

  lemma TargetOfNothing<R, P, B>(kd: Kind<R, P, B>, v: map<Key<R>, P>, des: map<Key<R>, P>)
    ensures Target(kd, v, des, {}) == v
  {
  }

  lemma AllLive<R, P, B>(kd: Kind<R, P, B>, c: Client, ids: Ids<R>, st: Store<R, B>, t: int, cur: map<Key<R>, Held<P>>,
                         des: map<Key<R>, P>, all: seq<Change<R, P>>)
    requires forall i :: 0 <= i < |all| ==> Asked(kd, cur, des, all[i])
    requires forall k :: k in cur ==> Live(kd, c, ids, st, t, k, cur[k].id)
    ensures LiveFrom(kd, c, ids, st, t, all, 0)
    ensures forall i :: 0 <= i < |all| ==> Requested(kd, Values(cur), des, all[i])
  {
    forall i | 0 <= i < |all| && !all[i].op.Create? ensures Live(kd, c, ids, st, t, all[i].key, all[i].id) {
      assert all[i].key in cur;
    }
  }

  /** No write went to `l`. */
  ghost predicate Spared<R(!new)>(at: map<Key<R>, Loc<R>>, l: Loc<R>) {
    forall k :: k in at ==> at[k] != l
  }

  /** Where a name is written: at a resource of that name if there was one, else where there was nothing. */
  ghost predicate Placed<R(!new), P, B>(kd: Kind<R, P, B>, t: int, before: Store<R, B>, known: set<Key<R>>,
                                        at: map<Key<R>, Loc<R>>) {
    forall k :: k in at ==> if k in known then Holds(kd, t, before, at[k], k) else at[k] !in before
  }

  /** What is there afterwards: nothing, or the desired value as it is written. */
  ghost predicate Left<R(!new), P, B>(kd: Kind<R, P, B>, t: int, after: Store<R, B>, known: set<Key<R>>,
                                      des: map<Key<R>, P>, at: map<Key<R>, Loc<R>>) {
    forall k :: k in at ==>
        if k in des then at[k] in after && after[at[k]] == Written(kd, t, k, des[k]) else k in known && at[k] !in after
  }

  ghost predicate RestKept<R(!new), B>(before: Store<R, B>, after: Store<R, B>, at: map<Key<R>, Loc<R>>) {
    forall l :: Spared(at, l) ==> (l in after <==> l in before) && (l in before ==> after[l] == before[l])
  }

  /**
   * What the successful changes, on the names in `done`, did to a store that was known to hold the names in `known`:
   * one resource of each was replaced or removed if the name was known, and added if not. Nothing else changed.
   */
  ghost predicate DoneExactly<R(!new), P, B>(kd: Kind<R, P, B>, t: int, before: Store<R, B>, after: Store<R, B>,
                                             known: set<Key<R>>, des: map<Key<R>, P>, done: set<Key<R>>) {
    exists at: map<Key<R>, Loc<R>> :: DoneAt(kd, t, before, after, known, des, done, at)
  }

  ghost predicate DoneAt<R(!new), P, B>(kd: Kind<R, P, B>, t: int, before: Store<R, B>, after: Store<R, B>,
                                        known: set<Key<R>>, des: map<Key<R>, P>, done: set<Key<R>>,
                                        at: map<Key<R>, Loc<R>>) {
    && at.Keys == done && Placed(kd, t, before, known, at) && Left(kd, t, after, known, des, at)
    && RestKept(before, after, at)
  }

  lemma DoneStep<R(!new), P, B>(kd: Kind<R, P, B>, t: int, v: map<Key<R>, P>, des: map<Key<R>, P>, done: set<Key<R>>,
                                at: map<Key<R>, Loc<R>>, ch: Change<R, P>, l: Loc<R>, before: Store<R, B>,
                                st: Store<R, B>, st': Store<R, B>)
    requires DoneAt(kd, t, before, st, v.Keys, des, done, at) && Effect(kd, t, ch, l, st, st')
    requires Requested(kd, v, des, ch) && ch.key !in done && (ch.op.Create? ==> l !in before)
    ensures DoneAt(kd, t, before, st', v.Keys, des, done + {ch.key}, at[ch.key := l])
  {
    NotWrittenTwice(kd, t, v, des, at, ch, l, before, st);
    var at' := at[ch.key := l];
    assert Placed(kd, t, before, v.Keys, at');
    LeftStep(kd, t, v, des, at, ch, l, st, st');
    RestStep(at, ch.key, l, before, st, st');
  }

  lemma RestStep<R(!new), B>(at: map<Key<R>, Loc<R>>, k: Key<R>, l: Loc<R>, before: Store<R, B>, st: Store<R, B>,
                             st': Store<R, B>)
    requires RestKept(before, st, at) && k !in at
    requires forall m :: m != l ==> (m in st' <==> m in st) && (m in st ==> st'[m] == st[m])
    ensures RestKept(before, st', at[k := l])
  {
    var at' := at[k := l];
    forall m | Spared(at', m) ensures m != l && Spared(at, m) {
      assert at'[k] == l;
      forall j | j in at ensures at[j] != m { assert j in at'; }
    }
  }

  lemma LeftStep<R(!new), P, B>(kd: Kind<R, P, B>, t: int, v: map<Key<R>, P>, des: map<Key<R>, P>,
                                at: map<Key<R>, Loc<R>>, ch: Change<R, P>, l: Loc<R>, st: Store<R, B>, st': Store<R, B>)
    requires Left(kd, t, st, v.Keys, des, at) && Spared(at, l) && ch.key !in at
    requires Requested(kd, v, des, ch) && Effect(kd, t, ch, l, st, st')
    ensures Left(kd, t, st', v.Keys, des, at[ch.key := l])
  {
    var at' := at[ch.key := l];
    forall k | k in at ensures at'[k] == at[k] && (at[k] in st' <==> at[k] in st)
      ensures at[k] in st ==> st'[at[k]] == st[at[k]] {}
  }

  /** A change goes where no other went before it. */
  lemma NotWrittenTwice<R(!new), P, B>(kd: Kind<R, P, B>, t: int, v: map<Key<R>, P>, des: map<Key<R>, P>,
                                       at: map<Key<R>, Loc<R>>, ch: Change<R, P>, l: Loc<R>, before: Store<R, B>,
                                       st: Store<R, B>)
    requires Placed(kd, t, before, v.Keys, at) && Left(kd, t, st, v.Keys, des, at) && RestKept(before, st, at)
    requires Requested(kd, v, des, ch) && ch.key !in at
    requires if ch.op.Create? then l !in st && l !in before else Holds(kd, t, st, l, ch.key)
    ensures Spared(at, l)
    ensures if ch.key in v then Holds(kd, t, before, l, ch.key) else l !in before
  {
    forall k | k in at ensures at[k] != l {
      if k in des { assert st[at[k]] == Written(kd, t, k, des[k]); }
    }
  }

  lemma NothingDone<R(!new), P, B>(kd: Kind<R, P, B>, t: int, st: Store<R, B>, known: set<Key<R>>, des: map<Key<R>, P>)
    ensures DoneExactly(kd, t, st, st, known, des, {})
  {
    var nowhere: map<Key<R>, Loc<R>> := map[];
    assert DoneAt(kd, t, st, st, known, des, {}, nowhere);
  }

  /** In particular what the operator does not own is as before. */
  lemma DoneKeepsForeign<R(!new), P, B>(kd: Kind<R, P, B>, t: int, before: Store<R, B>, after: Store<R, B>,
                                        known: set<Key<R>>, des: map<Key<R>, P>, done: set<Key<R>>)
    requires DoneExactly(kd, t, before, after, known, des, done)
    ensures ForeignKept(kd, t, before, after)
  {
    var at :| DoneAt(kd, t, before, after, known, des, done, at);
    forall l | l in before && !Owned(kd, t, before[l]) ensures Spared(at, l) {
      forall k | k in at ensures at[k] != l { assert Placed(kd, t, before, known, at); }
    }
    forall l | l in after && !Spared(at, l) ensures Owned(kd, t, after[l]) {
      var k :| k in at && at[k] == l;
      assert k in des && after[l] == Written(kd, t, k, des[k]);
    }
  }

  /**
   * In full: what is changed or removed was owned, under a name that is done and was known; what is new or changed is a
   * desired value as it is built, under the tag if its type is selected by it; and of each name that is done there is
   * such a change.
   */
  lemma OnlyOwnChanges<R(!new), P, B>(kd: Kind<R, P, B>, t: int, before: Store<R, B>, after: Store<R, B>,
                                      known: set<Key<R>>, des: map<Key<R>, P>, done: set<Key<R>>)
    requires DoneExactly(kd, t, before, after, known, des, done)
    ensures forall l :: l in before && (l !in after || after[l] != before[l]) ==>
              && before[l].key in done && before[l].key in known
              && (kd.filtered(before[l].key.rtype) ==> t in before[l].tags)
    ensures forall l :: l in after && (l !in before || after[l] != before[l]) ==>
              && after[l].key in done && after[l].key in des
              && after[l].tags == (if kd.filtered(after[l].key.rtype) then [t] else [])
              && after[l].body == kd.build(des[after[l].key])
    ensures forall k :: k in done && k in des ==>
              exists l :: l in after && after[l].key == k && after[l].body == kd.build(des[k])
                          && (kd.filtered(k.rtype) ==> after[l].tags == [t])
    ensures forall k :: k in done && k !in des ==> exists l :: l in before && before[l].key == k && l !in after
  {
    var at: map<Key<R>, Loc<R>> :| DoneAt(kd, t, before, after, known, des, done, at);
    forall l | l in before && (l !in after || after[l] != before[l]) ensures exists k :: k in at && at[k] == l {
      assert !Spared(at, l);
    }
    forall l | l in after && (l !in before || after[l] != before[l]) ensures exists k :: k in at && at[k] == l {
      assert !Spared(at, l);
    }
  }

  /** So every resource of a name on which nothing was done is as before. */
  lemma DoneKeepsRest<R(!new), P, B>(kd: Kind<R, P, B>, t: int, before: Store<R, B>, after: Store<R, B>,
                                     known: set<Key<R>>, des: map<Key<R>, P>, done: set<Key<R>>)
    requires DoneExactly(kd, t, before, after, known, des, done)
    ensures forall l :: l in before && before[l].key !in done * known ==> l in after && after[l] == before[l]
  {
    var at :| DoneAt(kd, t, before, after, known, des, done, at);
    forall l | l in before && before[l].key !in done * known ensures Spared(at, l) {
      forall k | k in at ensures at[k] != l { assert Placed(kd, t, before, known, at); }
    }
  }

  /** Where the store and the cache stand after the first `i` changes, those in `done` having succeeded. */
  ghost predicate Progress<R(!new), P, B>(
    kd: Kind<R, P, B>, c: Client, t: int, v: map<Key<R>, P>, des: map<Key<R>, P>, all: seq<Change<R, P>>,
    ids0: Ids<R>, ids: Ids<R>, st0: Store<R, B>, st: Store<R, B>, i: nat, done: set<Key<R>>, at: map<Key<R>, Loc<R>>,
    whole: bool)
  {
    && CacheKept(c.baseURL, ids0, ids, KeysOf(all))
    && DoneAt(kd, t, st0, st, v.Keys, des, done, at)
    && LiveFrom(kd, c, ids, st, t, all, i)
    && (whole ==> Mirrors(kd, t, st, Target(kd, v, des, done)))
  }

  lemma ProgressStep<R(!new), P, B>(kd: Kind<R, P, B>, c: Client, t: int, v: map<Key<R>, P>, des: map<Key<R>, P>,
                                    all: seq<Change<R, P>>, ids0: Ids<R>, ids: Ids<R>, ids': Ids<R>, st0: Store<R, B>,
                                    st: Store<R, B>, st': Store<R, B>, i: nat, done: set<Key<R>>,
                                    at: map<Key<R>, Loc<R>>, whole: bool, accepted: bool, ok: bool, l: Loc<R>)
    requires i < |all| && DistinctKeys(all) && Requested(kd, v, des, all[i]) && all[i].key !in done
    requires Progress(kd, c, t, v, des, all, ids0, ids, st0, st, i, done, at, whole)
    requires Wrote(kd, c, ids, ids', st, st', t, all[i], accepted, ok, l) && (ok && all[i].op.Create? ==> l !in st0)
    ensures Progress(kd, c, t, v, des, all, ids0, ids', st0, st', i + 1, if ok then done + {all[i].key} else done,
                     if ok then at[all[i].key := l] else at, whole)
  {
    var ch := all[i];
    assert ch.key in KeysOf(all);
    CacheKeptTransitive(c.baseURL, ids0, ids, ids', {ch.key}, KeysOf(all));
    if ok {
      DoneStep(kd, t, v, des, done, at, ch, l, st0, st, st');
      if whole { ViewStep(kd, t, v, des, done, ch, l, st, st'); }
    }
  }

  /** The first `i` changes are split into those in `done` and those among the errors. */
  ghost predicate Tally<R, P>(all: seq<Change<R, P>>, i: nat, applied: nat, errors: seq<Change<R, P>>,
                              done: set<Key<R>>) {
    && i <= |all| && applied == |done| && applied + |errors| == i && DistinctKeys(errors)
    && done !! KeysOf(errors) && done + KeysOf(errors) == KeysOf(all[..i])
  }

  lemma TallyStep<R, P>(all: seq<Change<R, P>>, i: nat, applied: nat, errors: seq<Change<R, P>>, done: set<Key<R>>,
                        ok: bool)
    requires DistinctKeys(all) && i < |all| && Tally(all, i, applied, errors, done)
    ensures all[i].key !in done
    ensures if ok then Tally(all, i + 1, applied + 1, errors, done + {all[i].key})
            else Tally(all, i + 1, applied, errors + [all[i]], done)
  {
    KeysOfPrefix(all, i);
    assert all[i].key !in KeysOf(all[..i]);
    var longer := errors + [all[i]];
    KeysOfPrefix(longer, |errors|);
    assert longer[..|errors|] == errors && longer[..|longer|] == longer;
    forall j | 0 <= j < |errors| ensures errors[j].key in KeysOf(all[..i]) {
      assert errors[j].key in KeysOf(errors);
    }
  }

  lemma TallyDistinct<R, P>(all: seq<Change<R, P>>, i: nat, applied: nat, errors: seq<Change<R, P>>, done: set<Key<R>>)
    requires DistinctKeys(all) && i < |all| && Tally(all, i, applied, errors, done)
    ensures all[i].key !in done
  {
    assert all[i].key !in KeysOf(all[..i]);
  }

  /** What succeeded was accepted, what failed refused. */
  ghost predicate Judged<R(!new), P>(a: Answers<R>, done: set<Key<R>>, errors: seq<Change<R, P>>) {
    (forall k :: k in done ==> a.writes(k)) && forall i :: 0 <= i < |errors| ==> !a.writes(errors[i].key)
  }

  lemma JudgedStep<R(!new), P>(a: Answers<R>, done: set<Key<R>>, errors: seq<Change<R, P>>, ch: Change<R, P>, ok: bool)
    requires Judged(a, done, errors) && (ok <==> a.writes(ch.key))
    ensures if ok then Judged(a, done + {ch.key}, errors) else Judged(a, done, errors + [ch])
  {
  }

  ghost predicate Counting<R(!new), P>(a: Answers<R>, all: seq<Change<R, P>>, i: nat, applied: nat,
                                       errors: seq<Change<R, P>>, done: set<Key<R>>) {
    Tally(all, i, applied, errors, done) && Judged(a, done, errors)
  }

  lemma CountingStep<R(!new), P>(a: Answers<R>, all: seq<Change<R, P>>, i: nat, applied: nat,
                                 errors: seq<Change<R, P>>, done: set<Key<R>>, ok: bool)
    requires DistinctKeys(all) && i < |all| && Counting(a, all, i, applied, errors, done)
    requires ok <==> a.writes(all[i].key)
    ensures all[i].key !in done
    ensures if ok then Counting(a, all, i + 1, applied + 1, errors, done + {all[i].key})
            else Counting(a, all, i + 1, applied, errors + [all[i]], done)
  {
    TallyStep(all, i, applied, errors, done, ok);
    JudgedStep(a, done, errors, all[i], ok);
  }

  lemma AllApplied<R(!new), P, B>(
    kd: Kind<R, P, B>, c: Client, t: int, a: Answers<R>, v: map<Key<R>, P>, des: map<Key<R>, P>,
    all: seq<Change<R, P>>, ids0: Ids<R>, ids: Ids<R>, st0: Store<R, B>, st: Store<R, B>, applied: nat,
    errors: seq<Change<R, P>>, done: set<Key<R>>, at: map<Key<R>, Loc<R>>, whole: bool)
    requires Counting(a, all, |all|, applied, errors, done)
    requires Progress(kd, c, t, v, des, all, ids0, ids, st0, st, |all|, done, at, whole)
    ensures DoneExactly(kd, t, st0, st, v.Keys, des, KeysOf(all) - KeysOf(errors))
    ensures DistinctKeys(errors) && KeysOf(errors) == Refused(a, KeysOf(all))
    ensures applied == |KeysOf(all) - KeysOf(errors)|
    ensures whole ==> Mirrors(kd, t, st, Target(kd, v, des, KeysOf(all) - KeysOf(errors)))
  {
    assert all[..|all|] == all;
    JudgedAll(a, done, errors, KeysOf(all));
    assert KeysOf(all) - KeysOf(errors) == done;
    assert DoneAt(kd, t, st0, st, v.Keys, des, done, at);
  }

  lemma JudgedAll<R(!new), P>(a: Answers<R>, done: set<Key<R>>, errors: seq<Change<R, P>>, all: set<Key<R>>)
    requires Judged(a, done, errors) && done + KeysOf(errors) == all
    ensures KeysOf(errors) == Refused(a, all)
  {
    forall k ensures k in KeysOf(errors) <==> k in Refused(a, all) {}
  }

  ghost predicate LiveFrom<R, P, B>(kd: Kind<R, P, B>, c: Client, ids: Ids<R>, st: Store<R, B>, t: int,
                                    all: seq<Change<R, P>>, i: nat) {
    forall j :: i <= j < |all| && !all[j].op.Create? ==> Live(kd, c, ids, st, t, all[j].key, all[j].id)
  }

  lemma ViewStep<R(!new), P, B>(kd: Kind<R, P, B>, t: int, v: map<Key<R>, P>, des: map<Key<R>, P>, done: set<Key<R>>,
                                ch: Change<R, P>, l: Loc<R>, st: Store<R, B>, st': Store<R, B>)
    requires Mirrors(kd, t, st, Target(kd, v, des, done))
    requires Requested(kd, v, des, ch) && ch.key !in done
    requires Effect(kd, t, ch, l, st, st')
    ensures Mirrors(kd, t, st', Target(kd, v, des, done + {ch.key}))
  {
    assert View(kd, t, st).Keys == OwnedKeys(kd, t, st);
    EffectKeepsUnique(kd, t, ch, l, st, st');
    EffectOnView(kd, t, ch, l, st, st');
    TargetStep(kd, v, des, done, ch.key);
  }

  lemma KeysOfPrefix<R, P>(chs: seq<Change<R, P>>, i: nat)
    requires i < |chs|
    ensures KeysOf(chs[..i + 1]) == KeysOf(chs[..i]) + {chs[i].key}
  {
    var longer := chs[..i + 1];
    assert longer[i].key in KeysOf(longer);
    forall k | k in KeysOf(chs[..i]) ensures k in KeysOf(longer) {
      var j :| 0 <= j < i && chs[j].key == k;
      assert longer[j].key == k;
    }
  }

  /** Every change is counted once, as failed exactly if the service refuses it, else as applied. */
  ghost predicate Accounts<R(!new), P, B>(kd: Kind<R, P, B>, cur: map<Key<R>, P>, des: map<Key<R>, P>, a: Answers<R>,
                                          result: ApplyResult<R, P>) {
    && DistinctKeys(result.errors) && KeysOf(result.errors) == Refused(a, Pending(kd, cur, des))
    && result.applied == |Pending(kd, cur, des) - KeysOf(result.errors)|
  }
}

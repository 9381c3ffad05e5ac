/**
 * Lidarr import lists, which bypass the diff: every desired list is created or updated by
 * name, then tagged lists that are no longer desired are deleted. Every write may fail.
 */
module ImportLists {
  import opened Common

  datatype Wanted = Wanted(name: string, ltype: string, enableAuto: bool, searchOnAdd: bool, profile: int,
                           rootFolder: string,
                           settings: map<string, string>)
  datatype Schema = Schema(implementation: string, contract: string, fields: seq<string>)
  datatype Resource = Resource(name: string, implementation: string, contract: string, enableAuto: bool,
                               searchOnAdd: bool,
                               profile: int, rootFolder: string, tags: seq<int>, fields: map<string, string>)
  type Lists = map<int, Resource>

  datatype Failure =
    | UnknownType(name: string)
    | CreateFailed(name: string)
    | UpdateFailed(name: string)
    | DeleteFailed(name: string)
  datatype Stats = Stats(created: nat, updated: nat, deleted: nat, skipped: nat, errors: seq<Failure>)

  // ----- Payloads -----

  /** A list type is known if some schema implements it; the first such schema is used. */
  ghost predicate Known(schemas: seq<Schema>, ltype: string) {
    exists i :: 0 <= i < |schemas| && schemas[i].implementation == ltype
  }

  ghost function SchemaOf(schemas: seq<Schema>, ltype: string): Schema
    requires Known(schemas, ltype)
  {
    if schemas[0].implementation == ltype then schemas[0] else SchemaOf(schemas[1..], ltype)
  }

  /** The settings the schema has a field for; the others are dropped silently. */
  function Restrict(settings: map<string, string>, schema: Schema): map<string, string> {
    map k | k in settings && k in schema.fields :: settings[k]
  }

  function Payload(w: Wanted, schema: Schema, tag: int): Resource {
    Resource(w.name, w.ltype, schema.contract, w.enableAuto, w.searchOnAdd, w.profile, w.rootFolder, [tag],
             Restrict(w.settings, schema))
  }

  method FindSchemaByType(schemas: seq<Schema>, ltype: string) returns (schema: Option<Schema>)
    ensures schema.Some? <==> Known(schemas, ltype)
    ensures schema.Some? ==> schema.value == SchemaOf(schemas, ltype)
  {
    for i := 0 to |schemas|
      invariant forall j :: 0 <= j < i ==> schemas[j].implementation != ltype
      invariant Known(schemas, ltype) ==>
                  Known(schemas[i..], ltype) && SchemaOf(schemas[i..], ltype) == SchemaOf(schemas, ltype)
    {
      if schemas[i].implementation == ltype {
        assert schemas[i..][0] == schemas[i];
        return Some(schemas[i]);
      }
      assert schemas[i..][1..] == schemas[i + 1..];
      if Known(schemas, ltype) {
        var k :| 0 <= k < |schemas[i..]| && schemas[i..][k].implementation == ltype;
        assert schemas[i + 1..][k - 1] == schemas[i..][k];
      }
    }
    return None;
  }

  method BuildImportListFields(settings: map<string, string>, schema: Schema) returns (fields: map<string, string>)
    ensures fields == Restrict(settings, schema)
  {
    fields := map[];
    var todo := settings.Keys;
    while todo != {}
      invariant todo <= settings.Keys
      invariant fields == map k | k in settings && k !in todo && k in schema.fields :: settings[k]
    {
      var name := Pick(todo);
      if name in schema.fields { fields := fields[name := settings[name]]; }
      todo := todo - {name};
    }
  }

  // ----- The service -----

  /**
   * How Lidarr answers: the list of existing lists, the write of the `i`-th desired list, and the deletion of an
   * orphan by name.
   */
  datatype Answers = Answers(listed: bool, upserts: nat -> bool, deletes: string -> bool)

  class Service {
    var lists: Lists

    constructor () ensures lists == map[] { lists := map[]; }

    /** GET of all lists, as the index by name that applyImportLists builds: of lists that share a name, one is kept. */
    method IndexExisting(ok: bool) returns (byName: Option<map<string, (int, Resource)>>)
      ensures byName.Some? <==> ok
      ensures byName.Some? ==> IsIndex(lists, byName.value)
    {
      if !ok { return None; }
      var index: map<string, (int, Resource)> := map[];
      var todo := lists.Keys;
      while todo != {}
        invariant todo <= lists.Keys
        invariant forall n :: n in index ==>
                    index[n].0 in lists && lists[index[n].0] == index[n].1 && index[n].1.name == n
        invariant forall id :: id in lists && id !in todo ==> lists[id].name in index
      {
        var id := Pick(todo);
        index := index[lists[id].name := (id, lists[id])];
        todo := todo - {id};
      }
      byName := Some(index);
    }

    method UnusedId() returns (id: int)
      ensures id !in lists
    {
      id := 1;
      var todo := lists.Keys;
      while todo != {}
        invariant todo <= lists.Keys && forall i :: i in lists && i !in todo ==> i < id
      {
        var i := Pick(todo);
        if i >= id { id := i + 1; }
        todo := todo - {i};
      }
    }

    method Post(r: Resource, ok: bool) returns (id: Option<int>)
      modifies this
      ensures id.Some? <==> ok
      ensures if id.Some? then id.value !in old(lists) && lists == old(lists)[id.value := r] else lists == old(lists)
    {
      if !ok { return None; }
      var unused := UnusedId();
      lists := lists[unused := r];
      id := Some(unused);
    }

    method Put(id: int, r: Resource, accepted: bool) returns (ok: bool)
      modifies this
      ensures ok <==> accepted && id in old(lists)
      ensures lists == if ok then old(lists)[id := r] else old(lists)
    {
      ok := accepted && id in lists;
      if ok { lists := lists[id := r]; }
    }

    method Delete(id: int, accepted: bool) returns (ok: bool)
      modifies this
      ensures ok <==> accepted && id in old(lists)
      ensures lists == if ok then old(lists) - {id} else old(lists)
    {
      ok := accepted && id in lists;
      if ok { lists := lists - {id}; }
    }
  }

  // ----- What applying promises -----

  ghost predicate IsIndex(lists: Lists, byName: map<string, (int, Resource)>) {
    && (forall n :: n in byName ==> byName[n].0 in lists && lists[byName[n].0] == byName[n].1 && byName[n].1.name == n)
    && (forall id :: id in lists ==> lists[id].name in byName)
  }

  function Names(desired: seq<Wanted>): set<string> {
    set i | 0 <= i < |desired| :: desired[i].name
  }

  function Orphans(byName: map<string, (int, Resource)>, names: set<string>, tag: int): set<string> {
    set n | n in byName && n !in names && tag in byName[n].1.tags
  }

  /** Lists the operator neither tagged nor wants by name. */
  ghost predicate Foreign(lists: Lists, id: int, names: set<string>, tag: int) {
    id in lists && tag !in lists[id].tags && lists[id].name !in names
  }

  ghost predicate ForeignKept(before: Lists, after: Lists, names: set<string>, tag: int) {
    forall id :: Foreign(before, id, names, tag) ==> id in after && after[id] == before[id]
  }

  ghost predicate UniqueNames(lists: Lists) {
    forall i, j :: i in lists && j in lists && lists[i].name == lists[j].name ==> i == j
  }

  /** Every desired name exists and every tagged list is desired. */
  ghost predicate Settled(lists: Lists, names: set<string>, tag: int) {
    && (forall n :: n in names ==> exists id :: id in lists && lists[id].name == n)
    && (forall id :: id in lists && tag in lists[id].tags ==> lists[id].name in names)
  }

  /** The location `at` of the `i`-th desired list is the existing one of that name, or new. */
  ghost predicate Placed(lists: Lists, before: Lists, byName: map<string, (int, Resource)>, w: Wanted,
                         schemas: seq<Schema>, tag: int, at: int) {
    && Known(schemas, w.ltype) && at in lists && lists[at] == Payload(w, SchemaOf(schemas, w.ltype), tag)
    && (if w.name in byName then at == byName[w.name].0 else at !in before)
  }

  /** The desired list is there, exactly as written. */
  ghost predicate Stored(lists: Lists, w: Wanted, schemas: seq<Schema>, tag: int) {
    Known(schemas, w.ltype) && Payload(w, SchemaOf(schemas, w.ltype), tag) in lists.Values
  }

  function Tally(s: Stats): nat {
    s.created + s.updated + s.deleted + |s.errors|
  }

  ghost predicate DistinctNames(desired: seq<Wanted>) {
    forall i, j :: 0 <= i < j < |desired| ==> desired[i].name != desired[j].name
  }

  /**
   * Between two states of the service: nothing is removed or renamed, only wanted names are written, and what is
   * new is tagged.
   */
  ghost predicate Grew(before: Lists, after: Lists, names: set<string>, tag: int) {
    && (forall id :: id in before ==>
          id in after && after[id].name == before[id].name && (before[id].name !in names ==> after[id] == before[id]))
    && (forall id :: id in after && (id !in before || after[id] != before[id]) ==>
          after[id].name in names && after[id].tags == [tag])
  }

  ghost predicate Exists(lists: Lists, n: string) {
    exists id :: id in lists && lists[id].name == n
  }

  /** The first `i` desired lists are in place, at pairwise compatible locations. */
  ghost predicate AllPlaced(lists: Lists, before: Lists, byName: map<string, (int, Resource)>, desired: seq<Wanted>,
                            schemas: seq<Schema>, tag: int, ats: seq<int>) {
    |ats| <= |desired| && forall j :: 0 <= j < |ats| ==> Placed(lists, before, byName, desired[j], schemas, tag, ats[j])
  }

  lemma PlaceOne(lists: Lists, lists': Lists, before: Lists, byName: map<string, (int, Resource)>, desired: seq<Wanted>,
                 schemas: seq<Schema>, tag: int, ats: seq<int>, at: int)
    requires IsIndex(before, byName) && DistinctNames(desired) && |ats| < |desired|
    requires AllPlaced(lists, before, byName, desired, schemas, tag, ats) && before.Keys <= lists.Keys
    requires var w := desired[|ats|];
             && Known(schemas, w.ltype) && lists' == lists[at := Payload(w, SchemaOf(schemas, w.ltype), tag)]
             && if w.name in byName then at == byName[w.name].0 else at !in lists
    ensures AllPlaced(lists', before, byName, desired, schemas, tag, ats + [at])
  {
    var w := desired[|ats|];
    forall j | 0 <= j < |ats| ensures ats[j] != at && Placed(lists', before, byName, desired[j], schemas, tag, ats[j]) {
      assert Placed(lists, before, byName, desired[j], schemas, tag, ats[j]);
      assert desired[j].name != w.name;
    }
  }

  ghost function IdsOf(byName: map<string, (int, Resource)>, names: set<string>): set<int>
    requires names <= byName.Keys
  {
    set n | n in names :: byName[n].0
  }

  function Counted(stats: Stats, existed: bool): Stats {
    if existed then stats.(updated := stats.updated + 1) else stats.(created := stats.created + 1)
  }

  function Failed(stats: Stats, f: Failure, known: bool): Stats {
    stats.(errors := stats.errors + [f], skipped := if known then stats.skipped else stats.skipped + 1)
  }

  // ----- Which writes succeed -----

  /** The write of the `i`-th desired list succeeds. */
  ghost predicate Succeeds(desired: seq<Wanted>, schemas: seq<Schema>, a: Answers, i: nat)
    requires i < |desired|
  {
    Known(schemas, desired[i].ltype) && a.upserts(i)
  }

  ghost function Creates(desired: seq<Wanted>, byName: map<string, (int, Resource)>, schemas: seq<Schema>,
                         a: Answers): seq<bool> {
    seq(|desired|, i requires 0 <= i < |desired| => Succeeds(desired, schemas, a, i) && desired[i].name !in byName)
  }

  ghost function Updates(desired: seq<Wanted>, byName: map<string, (int, Resource)>, schemas: seq<Schema>,
                         a: Answers): seq<bool> {
    seq(|desired|, i requires 0 <= i < |desired| => Succeeds(desired, schemas, a, i) && desired[i].name in byName)
  }

  ghost function Skips(desired: seq<Wanted>, schemas: seq<Schema>): seq<bool> {
    seq(|desired|, i requires 0 <= i < |desired| => !Known(schemas, desired[i].ltype))
  }

  ghost function Fails(desired: seq<Wanted>, schemas: seq<Schema>, a: Answers): seq<bool> {
    seq(|desired|, i requires 0 <= i < |desired| => !Succeeds(desired, schemas, a, i))
  }

  /** The counters after the first `n` desired lists. */
  ghost predicate CountsFit(desired: seq<Wanted>, byName: map<string, (int, Resource)>, schemas: seq<Schema>,
                            a: Answers, n: nat, stats: Stats) {
    && n <= |desired|
    && stats.created == |Where(Creates(desired, byName, schemas, a), n)|
    && stats.updated == |Where(Updates(desired, byName, schemas, a), n)|
    && stats.skipped == |Where(Skips(desired, schemas), n)|
    && |stats.errors| == |Where(Fails(desired, schemas, a), n)|
  }

  lemma CountStep(desired: seq<Wanted>, byName: map<string, (int, Resource)>, schemas: seq<Schema>, a: Answers, n: nat,
                  stats: Stats, stats': Stats)
    requires n < |desired| && CountsFit(desired, byName, schemas, a, n, stats)
    requires if Succeeds(desired, schemas, a, n) then stats' == Counted(stats, desired[n].name in byName)
             else exists f: Failure :: stats' == Failed(stats, f, Known(schemas, desired[n].ltype))
    ensures CountsFit(desired, byName, schemas, a, n + 1, stats')
  {
    WhereStep(Creates(desired, byName, schemas, a), n);
    WhereStep(Updates(desired, byName, schemas, a), n);
    WhereStep(Skips(desired, schemas), n);
    WhereStep(Fails(desired, schemas, a), n);
  }

  /** Without an error every write succeeded, so what was created is what is new. */
  lemma CleanCounts(desired: seq<Wanted>, byName: map<string, (int, Resource)>, schemas: seq<Schema>, a: Answers,
                    n: nat, stats: Stats)
    requires CountsFit(desired, byName, schemas, a, n, stats)
    ensures stats.errors == [] <==> forall i :: 0 <= i < n ==> Succeeds(desired, schemas, a, i)
  {
    var failing := Where(Fails(desired, schemas, a), n);
    if stats.errors == [] {
      assert failing == {};
      forall i | 0 <= i < n ensures Succeeds(desired, schemas, a, i) {
        assert i !in failing;
      }
    }
    if forall i :: 0 <= i < n ==> Succeeds(desired, schemas, a, i) {
      assert failing == {};
    }
  }

  /** If every desired list exists already, none is created. */
  lemma NothingCreated(desired: seq<Wanted>, byName: map<string, (int, Resource)>, schemas: seq<Schema>, a: Answers,
                       n: nat)
    requires n <= |desired| && Names(desired) <= byName.Keys
    ensures Where(Creates(desired, byName, schemas, a), n) == {}
  {
    forall i | 0 <= i < n ensures desired[i].name in byName {
      assert desired[i].name in Names(desired);
    }
  }

  // ----- What becomes of each list -----

  /** The write of the `j`-th desired list succeeds and goes to `id`: the indexed list of that name. */
  ghost predicate Hits(desired: seq<Wanted>, byName: map<string, (int, Resource)>, schemas: seq<Schema>, a: Answers,
                       j: nat, id: int) {
    && j < |desired| && Succeeds(desired, schemas, a, j)
    && desired[j].name in byName && byName[desired[j].name].0 == id
  }

  /** The last of the first `n` desired lists that does. */
  ghost function LastHit(desired: seq<Wanted>, byName: map<string, (int, Resource)>, schemas: seq<Schema>, a: Answers,
                         n: nat, id: int): (j: Option<nat>)
    ensures j.Some? ==> j.value < n && Hits(desired, byName, schemas, a, j.value, id)
    ensures forall i :: 0 <= i < n && Hits(desired, byName, schemas, a, i, id) ==> j.Some? && i <= j.value
  {
    if n == 0 then None
    else if Hits(desired, byName, schemas, a, n - 1, id) then Some(n - 1)
    else LastHit(desired, byName, schemas, a, n - 1, id)
  }

  /** What the writes of the first `n` desired lists make of an existing list. */
  ghost function AsLeft(before: Resource, desired: seq<Wanted>, byName: map<string, (int, Resource)>,
                        schemas: seq<Schema>, tag: int, a: Answers, n: nat, id: int): Resource {
    var j := LastHit(desired, byName, schemas, a, n, id);
    if j.None? then before else Payload(desired[j.value], SchemaOf(schemas, desired[j.value].ltype), tag)
  }

  ghost predicate AsWritten(before: Lists, lists: Lists, desired: seq<Wanted>, byName: map<string, (int, Resource)>,
                            schemas: seq<Schema>, tag: int, a: Answers, n: nat) {
    && (forall id :: id in before ==>
          id in lists && lists[id] == AsLeft(before[id], desired, byName, schemas, tag, a, n, id))
    && (forall id :: id in lists && id !in before ==> IsNew(lists[id], desired, byName, schemas, tag, a, n))
    && (forall j :: 0 <= j < n && j < |desired| && Succeeds(desired, schemas, a, j) && desired[j].name !in byName ==>
          IsThere(before, lists, Payload(desired[j], SchemaOf(schemas, desired[j].ltype), tag)))
  }

  /** Some new list is this one. */
  ghost predicate IsThere(before: Lists, lists: Lists, r: Resource) {
    exists id :: id in lists && id !in before && lists[id] == r
  }

  /** A desired list under a name that was not indexed. */
  ghost predicate IsNew(r: Resource, desired: seq<Wanted>, byName: map<string, (int, Resource)>,
                        schemas: seq<Schema>, tag: int, a: Answers, n: nat) {
    exists j :: 0 <= j < n && j < |desired| && Succeeds(desired, schemas, a, j) && desired[j].name !in byName
                && r == Payload(desired[j], SchemaOf(schemas, desired[j].ltype), tag)
  }

  lemma AsWrittenStep(before: Lists, lists: Lists, lists': Lists, desired: seq<Wanted>,
                      byName: map<string, (int, Resource)>, schemas: seq<Schema>, tag: int, a: Answers, n: nat, at: int)
    requires n < |desired| && AsWritten(before, lists, desired, byName, schemas, tag, a, n) && IsIndex(before, byName)
    requires var w := desired[n];
             if Succeeds(desired, schemas, a, n) then
               && lists' == lists[at := Payload(w, SchemaOf(schemas, w.ltype), tag)]
               && (if w.name in byName then at == byName[w.name].0 else at !in lists)
             else lists' == lists
    ensures AsWritten(before, lists', desired, byName, schemas, tag, a, n + 1)
  {
    forall id | id in before
      ensures id in lists' && lists'[id] == AsLeft(before[id], desired, byName, schemas, tag, a, n + 1, id)
    {
      assert lists[id] == AsLeft(before[id], desired, byName, schemas, tag, a, n, id);
    }
    forall id | id in lists' && id !in before ensures IsNew(lists'[id], desired, byName, schemas, tag, a, n + 1) {
      assert id in lists ==> IsNew(lists[id], desired, byName, schemas, tag, a, n);
    }
    NewStayThere(before, lists, lists', desired, byName, schemas, tag, a, n, at);
  }

  lemma NewStayThere(before: Lists, lists: Lists, lists': Lists, desired: seq<Wanted>,
                     byName: map<string, (int, Resource)>, schemas: seq<Schema>, tag: int, a: Answers, n: nat, at: int)
    requires n < |desired| && AsWritten(before, lists, desired, byName, schemas, tag, a, n) && IsIndex(before, byName)
    requires var w := desired[n];
             if Succeeds(desired, schemas, a, n) then
               && lists' == lists[at := Payload(w, SchemaOf(schemas, w.ltype), tag)]
               && (if w.name in byName then at == byName[w.name].0 else at !in lists)
             else lists' == lists
    ensures forall j :: 0 <= j <= n && Succeeds(desired, schemas, a, j) && desired[j].name !in byName ==>
              IsThere(before, lists', Payload(desired[j], SchemaOf(schemas, desired[j].ltype), tag))
  {
    forall j | 0 <= j <= n && Succeeds(desired, schemas, a, j) && desired[j].name !in byName
      ensures IsThere(before, lists', Payload(desired[j], SchemaOf(schemas, desired[j].ltype), tag))
    {
      if j == n {
        assert at in before ==> at in lists;
        assert lists'[at] == Payload(desired[j], SchemaOf(schemas, desired[j].ltype), tag);
      } else {
        var id :| id in lists && id !in before
                  && lists[id] == Payload(desired[j], SchemaOf(schemas, desired[j].ltype), tag);
        assert Succeeds(desired, schemas, a, n) ==> id != at;
        assert id in lists' && lists'[id] == lists[id];
      }
    }
  }

  // ----- What is stored, field by field -----

  /** The list as it is wanted, written under the first schema of its type. */
  ghost predicate Matches(r: Resource, w: Wanted, schemas: seq<Schema>, tag: int) {
    && r.name == w.name && r.implementation == w.ltype && r.enableAuto == w.enableAuto
    && r.searchOnAdd == w.searchOnAdd && r.profile == w.profile && r.rootFolder == w.rootFolder && r.tags == [tag]
    && exists i :: 0 <= i < |schemas| && schemas[i].implementation == w.ltype
                   && (forall h :: 0 <= h < i ==> schemas[h].implementation != w.ltype)
                   && r.contract == schemas[i].contract
                   && r.fields == map n | n in w.settings && n in schemas[i].fields :: w.settings[n]
  }

  lemma {:induction false} FirstSchema(schemas: seq<Schema>, ltype: string) returns (i: nat)
    requires exists h :: 0 <= h < |schemas| && schemas[h].implementation == ltype
    ensures i < |schemas| && schemas[i].implementation == ltype && Known(schemas, ltype)
    ensures SchemaOf(schemas, ltype) == schemas[i]
    ensures forall h :: 0 <= h < i ==> schemas[h].implementation != ltype
  {
    if schemas[0].implementation == ltype {
      i := 0;
    } else {
      var h :| 0 <= h < |schemas| && schemas[h].implementation == ltype;
      assert schemas[1..][h - 1] == schemas[h];
      i := FirstSchema(schemas[1..], ltype);
      assert Known(schemas[1..], ltype);
      i := i + 1;
    }
  }

  lemma PayloadMatches(w: Wanted, schemas: seq<Schema>, tag: int)
    requires Known(schemas, w.ltype)
    ensures Matches(Payload(w, SchemaOf(schemas, w.ltype), tag), w, schemas, tag)
  {
    var i := FirstSchema(schemas, w.ltype);
    assert schemas[i].implementation == w.ltype;
  }

  /** The write of the `j`-th desired list goes through, and no later one of the same name does. */
  ghost predicate WrittenLast(desired: seq<Wanted>, schemas: seq<Schema>, a: Answers, j: nat) {
    && j < |desired| && (exists h :: 0 <= h < |schemas| && schemas[h].implementation == desired[j].ltype)
    && a.upserts(j)
    && forall i :: j < i < |desired| && desired[i].name == desired[j].name ==>
         !a.upserts(i) || forall h :: 0 <= h < |schemas| ==> schemas[h].implementation != desired[i].ltype
  }

  /** Of each desired name, what was written last is there in the end, field by field. */
  lemma LastWrittenIsStored(before: Lists, middle: Lists, removed: set<int>, desired: seq<Wanted>,
                            byName: map<string, (int, Resource)>, schemas: seq<Schema>, tag: int, a: Answers, j: nat)
    requires IsIndex(before, byName) && AsWritten(before, middle, desired, byName, schemas, tag, a, |desired|)
    requires removed == IdsOf(byName, Deletable(Orphans(byName, Names(desired), tag), a))
    requires WrittenLast(desired, schemas, a, j)
    ensures exists id :: id in middle - removed && Matches((middle - removed)[id], desired[j], schemas, tag)
  {
    var w := desired[j];
    assert Succeeds(desired, schemas, a, j) && w.name in Names(desired);
    PayloadMatches(w, schemas, tag);
    var r := Payload(w, SchemaOf(schemas, w.ltype), tag);
    if w.name in byName {
      var id := byName[w.name].0;
      LastHitIs(desired, byName, schemas, a, j, id);
      assert middle[id] == AsLeft(before[id], desired, byName, schemas, tag, a, |desired|, id) == r;
      NotAnOrphan(before, byName, desired, tag, a, removed, id, w.name);
      assert (middle - removed)[id] == r;
    } else {
      var id :| id in middle && id !in before && middle[id] == r;
      assert id !in removed;
      assert (middle - removed)[id] == r;
    }
  }

  lemma LastHitIs(desired: seq<Wanted>, byName: map<string, (int, Resource)>, schemas: seq<Schema>, a: Answers, j: nat,
                  id: int)
    requires WrittenLast(desired, schemas, a, j) && desired[j].name in byName && byName[desired[j].name].0 == id
    requires forall n :: n in byName && byName[n].0 == id ==> n == desired[j].name
    ensures LastHit(desired, byName, schemas, a, |desired|, id) == Some(j)
  {
    assert Hits(desired, byName, schemas, a, j, id);
    var last := LastHit(desired, byName, schemas, a, |desired|, id);
    assert Hits(desired, byName, schemas, a, last.value, id);
  }

  lemma NotAnOrphan(before: Lists, byName: map<string, (int, Resource)>, desired: seq<Wanted>, tag: int, a: Answers,
                    removed: set<int>, id: int, name: string)
    requires IsIndex(before, byName) && name in byName && byName[name].0 == id && name in Names(desired)
    requires removed == IdsOf(byName, Deletable(Orphans(byName, Names(desired), tag), a))
    ensures id !in removed
  {
    forall n | n in Deletable(Orphans(byName, Names(desired), tag), a) ensures byName[n].0 != id {}
  }

  /** Some write succeeds that goes to `id`. */
  ghost predicate Overwritten(desired: seq<Wanted>, byName: map<string, (int, Resource)>, schemas: seq<Schema>,
                              a: Answers, id: int) {
    exists j :: Hits(desired, byName, schemas, a, j, id)
  }

  /**
   * Where the rule that only tagged lists are modified stops: a list without the tag is as before exactly if no write
   * that succeeds goes to it, so exactly if its name is not desired, or it is not the indexed one of its name, or no
   * write of that name succeeds. Any other one is taken over.
   */
  lemma UntaggedStaysIff(before: Lists, after: Lists, desired: seq<Wanted>, byName: map<string, (int, Resource)>,
                         schemas: seq<Schema>, tag: int, a: Answers, id: int)
    requires id in before && tag !in before[id].tags && IsIndex(before, byName)
    requires Fate(before, after, desired, byName, schemas, tag, a, id)
    ensures id in after
    ensures after[id] == before[id] <==> !Overwritten(desired, byName, schemas, a, id)
    ensures Overwritten(desired, byName, schemas, a, id) ==> after[id].tags == [tag]
  {
    assert Overwritten(desired, byName, schemas, a, id) <==>
           LastHit(desired, byName, schemas, a, |desired|, id).Some?;
  }

  /**
   * What becomes of an existing list: it is deleted if it is an orphan and that is accepted; otherwise it is as the
   * last write to it left it, or as it was.
   */
  ghost predicate Fate(before: Lists, after: Lists, desired: seq<Wanted>, byName: map<string, (int, Resource)>,
                       schemas: seq<Schema>, tag: int, a: Answers, id: int)
    requires id in before
  {
    var n := before[id].name;
    if n in Deletable(Orphans(byName, Names(desired), tag), a) && byName[n].0 == id then id !in after
    else id in after && after[id] == AsLeft(before[id], desired, byName, schemas, tag, a, |desired|, id)
  }

  lemma FateOfAll(before: Lists, middle: Lists, removed: set<int>, desired: seq<Wanted>,
                  byName: map<string, (int, Resource)>, schemas: seq<Schema>, tag: int, a: Answers)
    requires IsIndex(before, byName) && AsWritten(before, middle, desired, byName, schemas, tag, a, |desired|)
    requires removed == IdsOf(byName, Deletable(Orphans(byName, Names(desired), tag), a))
    ensures forall id :: id in before ==> Fate(before, middle - removed, desired, byName, schemas, tag, a, id)
    ensures forall id :: id in middle - removed && id !in before ==>
              IsNew((middle - removed)[id], desired, byName, schemas, tag, a, |desired|)
  {
    forall id | id in before ensures Fate(before, middle - removed, desired, byName, schemas, tag, a, id) {
      assert id in middle;
      if id in removed {
        var n :| n in Deletable(Orphans(byName, Names(desired), tag), a) && byName[n].0 == id;
        assert n == before[id].name;
      }
    }
  }

  /** The orphans whose deletion is accepted. */
  function Deletable(orphans: set<string>, a: Answers): set<string> {
    set n | n in orphans && a.deletes(n)
  }

  class Applier {
    const service: Service

    constructor (service: Service) ensures this.service == service { this.service := service; }

    /** One desired list: it is counted as created, as updated, or as an error. */
    method ApplyOne(w: Wanted, byName: map<string, (int, Resource)>, schemas: seq<Schema>, tag: int, accepted: bool,
                    stats: Stats)
      returns (stats': Stats, ghost at: int)
      requires forall n :: n in byName ==> byName[n].0 in service.lists
      modifies service
      ensures if Known(schemas, w.ltype) && accepted then stats' == Counted(stats, w.name in byName)
              else exists f: Failure :: stats' == Failed(stats, f, Known(schemas, w.ltype)) && f.name == w.name
      ensures if Known(schemas, w.ltype) && accepted then
                && service.lists == old(service.lists)[at := Payload(w, SchemaOf(schemas, w.ltype), tag)]
                && (if w.name in byName then at == byName[w.name].0 else at !in old(service.lists))
              else service.lists == old(service.lists)
    {
      at := 0;
      var schema := FindSchemaByType(schemas, w.ltype);
      if schema.None? {
        stats' := stats.(skipped := stats.skipped + 1, errors := stats.errors + [UnknownType(w.name)]);
        return;
      }
      var fields := BuildImportListFields(w.settings, schema.value);
      var payload := Payload(w, schema.value, tag).(fields := fields);
      if w.name !in byName {
        var id := service.Post(payload, accepted);
        if id.None? {
          stats' := stats.(errors := stats.errors + [CreateFailed(w.name)]);
        } else {
          at := id.value;
          stats' := stats.(created := stats.created + 1);
        }
      } else {
        at := byName[w.name].0;
        var ok := service.Put(byName[w.name].0, payload, accepted);
        if !ok {
          stats' := stats.(errors := stats.errors + [UpdateFailed(w.name)]);
        } else {
          stats' := stats.(updated := stats.updated + 1);
        }
      }
    }

    /** One turn of the first loop, with what it means for the run so far. */
    method UpsertNext(desired: seq<Wanted>, byName: map<string, (int, Resource)>, schemas: seq<Schema>, tag: int,
                      a: Answers, i: nat, stats: Stats, ghost before: Lists, ghost ats: seq<int>)
      returns (stats': Stats, ghost ats': seq<int>)
      requires i < |desired| && IsIndex(before, byName)
      requires Upserting(before, service.lists, desired, byName, schemas, tag, a, i, stats, ats)
      modifies service
      ensures Upserting(before, service.lists, desired, byName, schemas, tag, a, i + 1, stats', ats')
    {
      ghost var lists := service.lists;
      ghost var at;
      StillThere(before, lists, byName, Names(desired), tag);
      stats', at := ApplyOne(desired[i], byName, schemas, tag, a.upserts(i), stats);
      UpsertingStep(before, lists, service.lists, desired, byName, schemas, tag, a, i, stats, stats', ats, at);
      ats' := if stats'.errors == stats.errors then ats + [at] else ats;
    }

    /** The first loop: create or update every desired list. */
    method Upsert(desired: seq<Wanted>, byName: map<string, (int, Resource)>, schemas: seq<Schema>, tag: int,
                  a: Answers)
      returns (stats: Stats, ghost ats: seq<int>)
      requires IsIndex(service.lists, byName)
      modifies service
      ensures Upserted(old(service.lists), service.lists, desired, byName, schemas, tag, |desired|, stats, ats)
      ensures CountsFit(desired, byName, schemas, a, |desired|, stats)
      ensures AsWritten(old(service.lists), service.lists, desired, byName, schemas, tag, a, |desired|)
    {
      stats, ats := Stats(0, 0, 0, 0, []), [];
      ghost var before := service.lists;
      for i := 0 to |desired|
        invariant Upserting(before, service.lists, desired, byName, schemas, tag, a, i, stats, ats)
      {
        stats, ats := UpsertNext(desired, byName, schemas, tag, a, i, stats, before, ats);
      }
    }

    /** The state of the first loop before the `i`-th desired list. */
    ghost predicate Upserting(before: Lists, lists: Lists, desired: seq<Wanted>, byName: map<string, (int, Resource)>,
                              schemas: seq<Schema>, tag: int, a: Answers, i: nat, stats: Stats, ats: seq<int>) {
      && Upserted(before, lists, desired, byName, schemas, tag, i, stats, ats)
      && CountsFit(desired, byName, schemas, a, i, stats)
      && AsWritten(before, lists, desired, byName, schemas, tag, a, i)
    }

    lemma UpsertingStep(before: Lists, lists: Lists, lists': Lists, desired: seq<Wanted>,
                        byName: map<string, (int, Resource)>, schemas: seq<Schema>, tag: int, a: Answers, i: nat,
                        stats: Stats, stats': Stats, ats: seq<int>, at: int)
      requires i < |desired| && IsIndex(before, byName)
      requires Upserting(before, lists, desired, byName, schemas, tag, a, i, stats, ats)
      requires if Succeeds(desired, schemas, a, i) then stats' == Counted(stats, desired[i].name in byName)
               else exists f: Failure :: stats' == Failed(stats, f, Known(schemas, desired[i].ltype))
      requires var w := desired[i];
               if Succeeds(desired, schemas, a, i) then
                 && lists' == lists[at := Payload(w, SchemaOf(schemas, w.ltype), tag)]
                 && (if w.name in byName then at == byName[w.name].0 else at !in lists)
               else lists' == lists
      ensures Upserting(before, lists', desired, byName, schemas, tag, a, i + 1, stats',
                        if stats'.errors == stats.errors then ats + [at] else ats)
    {
      CountStep(desired, byName, schemas, a, i, stats, stats');
      AsWrittenStep(before, lists, lists', desired, byName, schemas, tag, a, i, at);
      UpsertStep(before, lists, lists', desired, byName, schemas, tag, i, stats, stats', ats, at);
    }

    lemma StillThere(before: Lists, lists: Lists, byName: map<string, (int, Resource)>, names: set<string>, tag: int)
      requires IsIndex(before, byName) && Grew(before, lists, names, tag)
      ensures before.Keys <= lists.Keys && forall n :: n in byName ==> byName[n].0 in lists
    {
      forall id | id in before ensures id in lists {
        assert lists[id].name == before[id].name;
      }
    }

    /** After the first `i` desired lists; `ats` are the places of those that did not fail. */
    ghost predicate Upserted(before: Lists, lists: Lists, desired: seq<Wanted>, byName: map<string, (int, Resource)>,
                             schemas: seq<Schema>, tag: int, i: nat, stats: Stats, ats: seq<int>)
    {
      && i <= |desired| && Tally(stats) == i && stats.deleted == 0
      && Grew(before, lists, Names(desired), tag)
      && (stats.errors == [] ==>
            && (forall j :: 0 <= j < i ==> Exists(lists, desired[j].name))
            && (DistinctNames(desired) ==> |ats| == i && AllPlaced(lists, before, byName, desired, schemas, tag, ats)))
    }

    lemma UpsertStep(before: Lists, lists: Lists, lists': Lists, desired: seq<Wanted>,
                     byName: map<string, (int, Resource)>, schemas: seq<Schema>, tag: int, i: nat, stats: Stats,
                     stats': Stats, ats: seq<int>, at: int)
      requires i < |desired| && IsIndex(before, byName)
      requires Upserted(before, lists, desired, byName, schemas, tag, i, stats, ats)
      requires var w := desired[i];
               || stats' == Counted(stats, w.name in byName)
               || exists f: Failure :: stats' == Failed(stats, f, Known(schemas, w.ltype))
      requires var w := desired[i];
               if stats'.errors == stats.errors then
                 && Known(schemas, w.ltype) && lists' == lists[at := Payload(w, SchemaOf(schemas, w.ltype), tag)]
                 && (if w.name in byName then at == byName[w.name].0 else at !in lists)
               else lists' == lists
      ensures Upserted(before, lists', desired, byName, schemas, tag, i + 1, stats',
                       if stats'.errors == stats.errors then ats + [at] else ats)
    {
      var w := desired[i];
      assert w.name in Names(desired);
      StillThere(before, lists, byName, Names(desired), tag);
      if stats'.errors == stats.errors {
        assert stats' == Counted(stats, w.name in byName);
        UpsertedOne(before, lists, lists', desired, byName, schemas, tag, i, ats, at, stats.errors == []);
      }
    }

    /** The part of UpsertStep that is about the lists. */
    lemma UpsertedOne(before: Lists, lists: Lists, lists': Lists, desired: seq<Wanted>,
                      byName: map<string, (int, Resource)>, schemas: seq<Schema>, tag: int, i: nat, ats: seq<int>,
                      at: int, clean: bool)
      requires i < |desired| && IsIndex(before, byName) && Grew(before, lists, Names(desired), tag)
      requires desired[i].name in Names(desired)
      requires before.Keys <= lists.Keys
      requires clean ==> forall j :: 0 <= j < i ==> Exists(lists, desired[j].name)
      requires clean && DistinctNames(desired) ==>
                 |ats| == i && AllPlaced(lists, before, byName, desired, schemas, tag, ats)
      requires var w := desired[i];
               && Known(schemas, w.ltype) && lists' == lists[at := Payload(w, SchemaOf(schemas, w.ltype), tag)]
               && (if w.name in byName then at == byName[w.name].0 else at !in lists)
      ensures Grew(before, lists', Names(desired), tag)
      ensures clean ==> forall j :: 0 <= j <= i ==> Exists(lists', desired[j].name)
      ensures clean && DistinctNames(desired) ==> AllPlaced(lists', before, byName, desired, schemas, tag, ats + [at])
    {
      var w := desired[i];
      GrewByOne(before, lists, lists', Names(desired), tag, at, w, byName, Payload(w, SchemaOf(schemas, w.ltype), tag));
      forall n | Exists(lists, n) || n == w.name ensures Exists(lists', n) {
        NameStays(lists, lists', at, w.name, n);
      }
      if clean && DistinctNames(desired) {
        PlaceOne(lists, lists', before, byName, desired, schemas, tag, ats, at);
      }
    }

    lemma NameStays(lists: Lists, lists': Lists, at: int, name: string, n: string)
      requires at in lists' && lists'[at].name == name && lists' == lists[at := lists'[at]]
      requires at in lists ==> lists[at].name == name
      requires Exists(lists, n) || n == name
      ensures Exists(lists', n)
    {
      if n == name {
        assert lists'[at].name == n;
      } else {
        var id :| id in lists && lists[id].name == n;
        assert lists'[id].name == n;
      }
    }

    lemma GrewByOne(before: Lists, lists: Lists, lists': Lists, names: set<string>, tag: int, at: int, w: Wanted,
                    byName: map<string, (int, Resource)>, r: Resource)
      requires Grew(before, lists, names, tag) && IsIndex(before, byName) && w.name in names
      requires r.name == w.name && r.tags == [tag] && lists' == lists[at := r]
      requires if w.name in byName then at == byName[w.name].0 else at !in lists
      ensures Grew(before, lists', names, tag)
      ensures forall id :: id in lists ==> lists'[id].name == lists[id].name
    {
    }

    method DeleteOne(n: string, id: int, accepted: bool, stats: Stats, ghost all: Lists, ghost removed: set<int>)
      returns (stats': Stats, ghost gone: set<int>)
      requires service.lists == all - removed && id in all && id !in removed
      modifies service
      ensures stats' == if accepted then stats.(deleted := stats.deleted + 1)
              else stats.(errors := stats.errors + [DeleteFailed(n)])
      ensures service.lists == all - (removed + gone) && gone == if accepted then {id} else {}
    {
      var ok := service.Delete(id, accepted);
      if !ok {
        stats', gone := stats.(errors := stats.errors + [DeleteFailed(n)]), {};
        assert removed + gone == removed;
      } else {
        stats', gone := stats.(deleted := stats.deleted + 1), {id};
        RemoveOneMore(all, removed, id);
      }
    }

    /** The second loop: delete what is tagged, existed, and is not wanted. */
    method DeleteOrphans(byName: map<string, (int, Resource)>, names: set<string>, tag: int, a: Answers, stats: Stats)
      returns (stats': Stats, ghost removed: set<int>)
      requires forall n :: n in byName ==> byName[n].0 in service.lists
      requires OwnIds(byName)
      modifies service
      ensures service.lists == old(service.lists) - removed
      ensures Swept(byName, Orphans(byName, names, tag), {}, a, stats, stats', removed)
    {
      stats', removed := stats, {};
      var todo := byName.Keys;
      ghost var orphans, before := Orphans(byName, names, tag), service.lists;
      SweepStart(byName, orphans, a, stats);
      while todo != {}
        invariant todo <= byName.Keys && service.lists == before - removed
        invariant Swept(byName, orphans, todo, a, stats, stats', removed)
      {
        var n := Pick(todo);
        if n !in names && tag in byName[n].1.tags {
          ghost var earlier := stats';
          ghost var gone;
          NotRemovedYet(byName, orphans, todo, n, a, stats, stats', removed);
          stats', gone := DeleteOne(n, byName[n].0, a.deletes(n), stats', before, removed);
          SweepOrphan(byName, orphans, todo, n, a, stats, earlier, stats', removed, gone);
          removed := removed + gone;
        } else {
          SweepOther(byName, orphans, todo, n, a, stats, stats', removed);
        }
        todo := todo - {n};
      }
    }

    /** Different names are at different locations. */
    ghost predicate OwnIds(byName: map<string, (int, Resource)>) {
      forall n, m :: n in byName && m in byName && byName[n].0 == byName[m].0 ==> n == m
    }

    /**
     * Of the orphans, those no longer in `todo` have been dealt with: deleted if that is accepted, counted as an
     * error if not.
     */
    ghost predicate Swept(byName: map<string, (int, Resource)>, orphans: set<string>, todo: set<string>, a: Answers,
                          stats: Stats, stats': Stats, removed: set<int>)
      requires orphans <= byName.Keys
    {
      && (stats'.created, stats'.updated, stats'.skipped) == (stats.created, stats.updated, stats.skipped)
      && stats'.deleted == stats.deleted + |Deletable(orphans - todo, a)|
      && Tally(stats') == Tally(stats) + |orphans - todo|
      && stats.errors <= stats'.errors
      && (stats'.errors == stats.errors <==> forall n :: n in orphans - todo ==> a.deletes(n))
      && removed == IdsOf(byName, Deletable(orphans - todo, a))
    }

    lemma NotRemovedYet(byName: map<string, (int, Resource)>, orphans: set<string>, todo: set<string>, n: string,
                        a: Answers, stats: Stats, stats': Stats, removed: set<int>)
      requires orphans <= byName.Keys && OwnIds(byName) && n in todo && n in orphans
      requires Swept(byName, orphans, todo, a, stats, stats', removed)
      ensures byName[n].0 !in removed
    {
    }

    lemma SweepStart(byName: map<string, (int, Resource)>, orphans: set<string>, a: Answers, stats: Stats)
      requires orphans <= byName.Keys
      ensures Swept(byName, orphans, byName.Keys, a, stats, stats, {})
    {
      assert orphans - byName.Keys == {} && Deletable({}, a) == {};
    }

    lemma SweepOther(byName: map<string, (int, Resource)>, orphans: set<string>, todo: set<string>, n: string,
                     a: Answers, stats: Stats, stats': Stats, removed: set<int>)
      requires orphans <= byName.Keys && n !in orphans && Swept(byName, orphans, todo, a, stats, stats', removed)
      ensures Swept(byName, orphans, todo - {n}, a, stats, stats', removed)
    {
      assert orphans - (todo - {n}) == orphans - todo;
    }

    lemma SweepOrphan(byName: map<string, (int, Resource)>, orphans: set<string>, todo: set<string>, n: string,
                      a: Answers, stats: Stats, earlier: Stats, later: Stats, removed: set<int>, gone: set<int>)
      requires orphans <= byName.Keys && n in todo && n in orphans
      requires Swept(byName, orphans, todo, a, stats, earlier, removed)
      requires later == if a.deletes(n) then earlier.(deleted := earlier.deleted + 1)
              else earlier.(errors := earlier.errors + [DeleteFailed(n)])
      requires gone == if a.deletes(n) then {byName[n].0} else {}
      ensures Swept(byName, orphans, todo - {n}, a, stats, later, removed + gone)
    {
      var before, after := orphans - todo, orphans - (todo - {n});
      assert after == before + {n};
      SweptSets(byName, before, n, a);
      assert (forall m :: m in after ==> a.deletes(m)) <==> a.deletes(n) && forall m :: m in before ==> a.deletes(m);
    }

    /** What one more orphan adds to the sets that are counted. */
    lemma SweptSets(byName: map<string, (int, Resource)>, before: set<string>, n: string, a: Answers)
      requires before <= byName.Keys && n in byName && n !in before
      ensures |Deletable(before + {n}, a)| == |Deletable(before, a)| + if a.deletes(n) then 1 else 0
      ensures IdsOf(byName, Deletable(before + {n}, a)) == IdsOf(byName, Deletable(before, a)) +
              if a.deletes(n) then {byName[n].0} else {}
    {
      DeletableOneMore(before, n, a);
    }

    lemma DeletableOneMore(before: set<string>, n: string, a: Answers)
      ensures Deletable(before + {n}, a) == if a.deletes(n) then Deletable(before, a) + {n} else Deletable(before, a)
    {
    }

    lemma RemoveOneMore(lists: Lists, removed: set<int>, id: int)
      ensures lists - removed - {id} == lists - (removed + {id})
    {
    }

    /** With nothing desired nothing is done, so the last tagged list is never deleted. */
    method ApplyImportLists(desired: seq<Wanted>, schemas: Option<seq<Schema>>, tag: int, a: Answers)
      returns (stats: Option<Stats>, ghost byName: map<string, (int, Resource)>)
      modifies service
      ensures desired == [] ==> stats == Some(Stats(0, 0, 0, 0, [])) && service.lists == old(service.lists)
      ensures stats.None? <==> desired != [] && (!a.listed || schemas.None?)
      ensures stats.None? ==> service.lists == old(service.lists)
      ensures ForeignKept(old(service.lists), service.lists, Names(desired), tag)
      ensures stats.Some? && desired != [] ==>
                forall id :: id in old(service.lists) ==>
                    Fate(old(service.lists), service.lists, desired, byName, schemas.value, tag, a, id)
      ensures stats.Some? && desired != [] ==>
                forall id :: id in service.lists && id !in old(service.lists) ==>
                    IsNew(service.lists[id], desired, byName, schemas.value, tag, a, |desired|)
      // Of each desired name, what was written last is there in the end, field by field.
      ensures stats.Some? && desired != [] ==>
                forall j: nat :: WrittenLast(desired, schemas.value, a, j) ==>
                  exists id :: id in service.lists && Matches(service.lists[id], desired[j], schemas.value, tag)
      // Conservation: every desired list and every orphan is accounted for exactly once, under what the answers
      // make of it.
      ensures stats.Some? && desired != [] ==>
                && IsIndex(old(service.lists), byName)
                && Tally(stats.value) == |desired| + |Orphans(byName, Names(desired), tag)|
                && Accounted(desired, byName, schemas.value, tag, a, stats.value)
                && CountedOut(desired, byName, schemas.value, tag, a, stats.value)
      // Idempotence: an error-free run settles, and a settled service sees no creation and no deletion.
      ensures stats.Some? && desired != [] && stats.value.errors == [] && UniqueNames(old(service.lists)) ==>
                Settled(service.lists, Names(desired), tag)
      ensures stats.Some? && Settled(old(service.lists), Names(desired), tag) ==>
                stats.value.created == 0 && stats.value.deleted == 0
      ensures stats.Some? && desired != [] && stats.value.errors == [] && DistinctNames(desired) ==>
                forall i :: 0 <= i < |desired| ==> Stored(service.lists, desired[i], schemas.value, tag)
    {
      byName := map[];
      if desired == [] { return Some(Stats(0, 0, 0, 0, [])), byName; }
      var index := service.IndexExisting(a.listed);
      if index.None? || schemas.None? { return None, byName; }
      byName := index.value;
      ghost var before, names := service.lists, Names(desired);
      var upserted;
      ghost var ats;
      upserted, ats := Upsert(desired, index.value, schemas.value, tag, a);
      ghost var middle := service.lists;
      StillThere(before, middle, byName, names, tag);
      var done;
      ghost var removed;
      done, removed := DeleteOrphans(index.value, Names(desired), tag, a, upserted);
      stats := Some(done);
      Account(desired, byName, schemas.value, tag, a, upserted, done, removed);
      CountOut(desired, byName, schemas.value, tag, a, done);
      SettledMeansNone(before, byName, names, tag);
      if Settled(before, names, tag) { NothingCreated(desired, byName, schemas.value, a, |desired|); }
      OrphansOnly(before, middle, removed, byName, names, tag);
      FateOfAll(before, middle, removed, desired, byName, schemas.value, tag, a);
      forall j: nat | WrittenLast(desired, schemas.value, a, j)
        ensures exists id :: id in service.lists && Matches(service.lists[id], desired[j], schemas.value, tag)
      {
        LastWrittenIsStored(before, middle, removed, desired, byName, schemas.value, tag, a, j);
      }
      if done.errors == [] {
        SettledAfter(before, middle, removed, byName, names, tag);
        AllStored(before, middle, removed, byName, desired, schemas.value, tag, ats);
      }
    }

    /** Every counter, and when there are no errors. */
    ghost predicate Accounted(desired: seq<Wanted>, byName: map<string, (int, Resource)>, schemas: seq<Schema>,
                              tag: int, a: Answers, stats: Stats) {
      var orphans := Orphans(byName, Names(desired), tag);
      && stats.created == |Where(Creates(desired, byName, schemas, a), |desired|)|
      && stats.updated == |Where(Updates(desired, byName, schemas, a), |desired|)|
      && stats.skipped == |Where(Skips(desired, schemas), |desired|)|
      && stats.deleted == |Deletable(orphans, a)|
      && (stats.errors == [] <==>
            (forall i :: 0 <= i < |desired| ==> Succeeds(desired, schemas, a, i)) && forall n :: n in orphans ==>
                a.deletes(n))
    }

    /** The counters in terms of the answers: which types are known, which names existed, which requests go through. */
    ghost predicate CountedOut(desired: seq<Wanted>, byName: map<string, (int, Resource)>, schemas: seq<Schema>,
                               tag: int, a: Answers, stats: Stats) {
      var known := set s | s in schemas :: s.implementation;
      var names := set w | w in desired :: w.name;
      && stats.created == |set i | 0 <= i < |desired| && desired[i].ltype in known && a.upserts(i)
                                        && desired[i].name !in byName|
      && stats.updated == |set i | 0 <= i < |desired| && desired[i].ltype in known && a.upserts(i)
                                        && desired[i].name in byName|
      && stats.skipped == |set i | 0 <= i < |desired| && desired[i].ltype !in known|
      && stats.deleted == |set n | n in byName && n !in names && tag in byName[n].1.tags && a.deletes(n)|
      && (stats.errors == [] <==>
            && (forall i :: 0 <= i < |desired| ==> desired[i].ltype in known && a.upserts(i))
            && forall n :: n in byName && n !in names && tag in byName[n].1.tags ==> a.deletes(n))
    }

    lemma CountOut(desired: seq<Wanted>, byName: map<string, (int, Resource)>, schemas: seq<Schema>, tag: int,
                   a: Answers, stats: Stats)
      requires Accounted(desired, byName, schemas, tag, a, stats)
      ensures CountedOut(desired, byName, schemas, tag, a, stats)
    {
      var known := set s | s in schemas :: s.implementation;
      var names := set w | w in desired :: w.name;
      forall t ensures Known(schemas, t) <==> t in known {
        if t in known {
          var s :| s in schemas && s.implementation == t;
          var i :| 0 <= i < |schemas| && schemas[i] == s;
        }
        if Known(schemas, t) {
          var i :| 0 <= i < |schemas| && schemas[i].implementation == t;
          assert schemas[i] in schemas;
        }
      }
      forall n ensures n in Names(desired) <==> n in names {
        if n in names {
          var w :| w in desired && w.name == n;
          var i :| 0 <= i < |desired| && desired[i] == w;
        }
        if n in Names(desired) {
          var i :| 0 <= i < |desired| && desired[i].name == n;
          assert desired[i] in desired;
        }
      }
      CountSets(desired, byName, schemas, tag, a, known, names);
      forall i | 0 <= i < |desired|
        ensures Succeeds(desired, schemas, a, i) <==> desired[i].ltype in known && a.upserts(i) {}
      assert (forall n :: n in Orphans(byName, Names(desired), tag) ==> a.deletes(n)) <==>
             forall n :: n in byName && n !in names && tag in byName[n].1.tags ==> a.deletes(n);
    }

    lemma CountSets(desired: seq<Wanted>, byName: map<string, (int, Resource)>, schemas: seq<Schema>, tag: int,
                    a: Answers, known: set<string>, names: set<string>)
      requires (forall t :: Known(schemas, t) <==> t in known) && names == Names(desired)
      ensures |Where(Creates(desired, byName, schemas, a), |desired|)| ==
              |set i | 0 <= i < |desired| && desired[i].ltype in known && a.upserts(i) && desired[i].name !in byName|
      ensures |Where(Updates(desired, byName, schemas, a), |desired|)| ==
              |set i | 0 <= i < |desired| && desired[i].ltype in known && a.upserts(i) && desired[i].name in byName|
      ensures |Where(Skips(desired, schemas), |desired|)| ==
              |set i | 0 <= i < |desired| && desired[i].ltype !in known|
      ensures Deletable(Orphans(byName, Names(desired), tag), a) ==
              set n | n in byName && n !in names && tag in byName[n].1.tags && a.deletes(n)
    {
      assert Where(Creates(desired, byName, schemas, a), |desired|) ==
             set i | 0 <= i < |desired| && desired[i].ltype in known && a.upserts(i) && desired[i].name !in byName;
      assert Where(Updates(desired, byName, schemas, a), |desired|) ==
             set i | 0 <= i < |desired| && desired[i].ltype in known && a.upserts(i) && desired[i].name in byName;
      assert Where(Skips(desired, schemas), |desired|) ==
             set i | 0 <= i < |desired| && desired[i].ltype !in known;
    }

    /** Putting the accounts of the two loops together. */
    lemma Account(desired: seq<Wanted>, byName: map<string, (int, Resource)>, schemas: seq<Schema>, tag: int,
                  a: Answers, upserted: Stats, done: Stats, removed: set<int>)
      requires Tally(upserted) == |desired| && upserted.deleted == 0
      requires CountsFit(desired, byName, schemas, a, |desired|, upserted)
      requires Swept(byName, Orphans(byName, Names(desired), tag), {}, a, upserted, done, removed)
      ensures Tally(done) == |desired| + |Orphans(byName, Names(desired), tag)|
      ensures Accounted(desired, byName, schemas, tag, a, done)
      ensures removed == IdsOf(byName, Deletable(Orphans(byName, Names(desired), tag), a))
      ensures done.errors == [] ==>
                upserted.errors == [] && removed == IdsOf(byName, Orphans(byName, Names(desired), tag))
    {
      var orphans := Orphans(byName, Names(desired), tag);
      assert orphans - {} == orphans;
      CleanCounts(desired, byName, schemas, a, |desired|, upserted);
      if done.errors == [] { assert Deletable(orphans, a) == orphans; }
    }

    lemma SettledMeansNone(before: Lists, byName: map<string, (int, Resource)>, names: set<string>, tag: int)
      requires IsIndex(before, byName)
      ensures Settled(before, names, tag) ==> names <= byName.Keys && Orphans(byName, names, tag) == {}
    {
      if Settled(before, names, tag) {
        forall n | n in names ensures n in byName {
          assert Exists(before, n);
        }
        forall n | n in byName && tag in byName[n].1.tags ensures n in names {
          var id := byName[n].0;
          assert id in before && before[id] == byName[n].1 && before[id].name == n;
        }
      }
    }

    /** Deleting orphans leaves every desired list in its place. */
    lemma AllStored(before: Lists, middle: Lists, removed: set<int>, byName: map<string, (int, Resource)>,
                    desired: seq<Wanted>, schemas: seq<Schema>, tag: int, ats: seq<int>)
      requires DistinctNames(desired) ==>
                 |ats| == |desired| && AllPlaced(middle, before, byName, desired, schemas, tag, ats)
      requires forall id :: id in removed ==>
                 id in before && before[id].name !in Names(desired) && id in middle && middle[id] == before[id]
      ensures DistinctNames(desired) ==> forall i :: 0 <= i < |desired| ==>
                Stored(middle - removed, desired[i], schemas, tag)
    {
      if DistinctNames(desired) {
        forall i | 0 <= i < |desired| ensures Stored(middle - removed, desired[i], schemas, tag) {
          assert Placed(middle, before, byName, desired[i], schemas, tag, ats[i]);
          assert desired[i].name in Names(desired);
          assert ats[i] in middle - removed;
        }
      }
    }

    /** What the deletions removed existed before, was tagged and is not wanted. */
    lemma OrphansOnly(before: Lists, middle: Lists, removed: set<int>, byName: map<string, (int, Resource)>,
                      names: set<string>, tag: int)
      requires IsIndex(before, byName) && Grew(before, middle, names, tag)
      requires removed <= IdsOf(byName, Orphans(byName, names, tag))
      ensures forall id :: id in removed ==>
                id in before && before[id].name !in names && tag in before[id].tags && middle[id] == before[id]
      ensures ForeignKept(before, middle - removed, names, tag)
    {
      forall id | id in removed
        ensures id in before && before[id].name !in names && tag in before[id].tags && middle[id] == before[id]
      {
        var n :| n in Orphans(byName, names, tag) && byName[n].0 == id;
      }
    }

    lemma SettledAfter(before: Lists, middle: Lists, removed: set<int>, byName: map<string, (int, Resource)>,
                       names: set<string>, tag: int)
      requires IsIndex(before, byName) && Grew(before, middle, names, tag)
      requires removed == IdsOf(byName, Orphans(byName, names, tag)) && forall n :: n in names ==> Exists(middle, n)
      ensures UniqueNames(before) ==> Settled(middle - removed, names, tag)
    {
      if !UniqueNames(before) { return; }
      var after := middle - removed;
      OrphansOnly(before, middle, removed, byName, names, tag);
      forall n | n in names ensures exists id :: id in after && after[id].name == n {
        var id :| id in middle && middle[id].name == n;
        assert id in after;
      }
      forall id | id in after && tag in after[id].tags ensures after[id].name in names {
        if id in before && before[id] == after[id] {
          var n := before[id].name;
          assert n in byName && byName[n].0 == id;
          assert n in Orphans(byName, names, tag) ==> id in removed;
        }
      }
    }
  }
}

/**
 * `Diff`: index the current and the desired resources by key, then walk the two maps in an
 * arbitrary order and append what is missing, unequal or surplus to a change set.
 */
module ChangeSets {
  import opened Common
  import opened Sync
  import opened Remote

  datatype Held<P> = Held(id: Option<int>, value: P)  // what CurrentState knows of one resource
  datatype Change<R, P> = Change(op: Op, key: Key<R>, id: Option<int>, payload: Option<P>)
  datatype ChangeSet<R, P> = ChangeSet(creates: seq<Change<R, P>>, updates: seq<Change<R, P>>,
                                       deletes: seq<Change<R, P>>)

  function All<R, P>(cs: ChangeSet<R, P>): seq<Change<R, P>> {
    cs.creates + cs.updates + cs.deletes
  }

  ghost predicate DistinctKeys<R, P>(chs: seq<Change<R, P>>) {
    forall i, j :: 0 <= i < j < |chs| ==> chs[i].key != chs[j].key
  }

  ghost function KeysOf<R, P>(chs: seq<Change<R, P>>): set<Key<R>> {
    set i | 0 <= i < |chs| :: chs[i].key
  }

  ghost function Values<R, P>(cur: map<Key<R>, Held<P>>): map<Key<R>, P> {
    map k | k in cur :: cur[k].value
  }

  ghost predicate Asked<R, P, B>(kd: Kind<R, P, B>, cur: map<Key<R>, Held<P>>, des: map<Key<R>, P>, ch: Change<R, P>) {
    && PendingOp(kd, Values(cur), des, ch.key) == Some(ch.op)
    && ch.payload == (if ch.op.Delete? then None else Some(des[ch.key]))
    && ch.id == (if ch.op.Create? then None else cur[ch.key].id)
  }

  /** `chs` asks exactly once for each pending change of kind `op` on the keys in `scope`, and for nothing else. */
  ghost predicate Lists<R, P, B>(kd: Kind<R, P, B>, cur: map<Key<R>, Held<P>>, des: map<Key<R>, P>, op: Op,
                                 scope: set<Key<R>>, chs: seq<Change<R, P>>) {
    && DistinctKeys(chs)
    && (forall i :: 0 <= i < |chs| ==> Asked(kd, cur, des, chs[i]) && chs[i].op == op)
    && KeysOf(chs) == set k | k in scope && PendingOp(kd, Values(cur), des, k) == Some(op)
  }

  ghost predicate IsDiff<R, P, B>(kd: Kind<R, P, B>, cur: map<Key<R>, Held<P>>, des: map<Key<R>, P>,
                                  cs: ChangeSet<R, P>) {
    && Lists(kd, cur, des, Create, cur.Keys + des.Keys, cs.creates)
    && Lists(kd, cur, des, Update, cur.Keys + des.Keys, cs.updates)
    && Lists(kd, cur, des, Delete, cur.Keys + des.Keys, cs.deletes)
  }

  lemma ListsStep<R, P, B>(kd: Kind<R, P, B>, cur: map<Key<R>, Held<P>>, des: map<Key<R>, P>, op: Op,
                           scope: set<Key<R>>, chs: seq<Change<R, P>>, ch: Change<R, P>)
    requires Lists(kd, cur, des, op, scope, chs) && ch.key !in scope
    ensures PendingOp(kd, Values(cur), des, ch.key) != Some(op) ==> Lists(kd, cur, des, op, scope + {ch.key}, chs)
    ensures Asked(kd, cur, des, ch) && ch.op == op ==> Lists(kd, cur, des, op, scope + {ch.key}, chs + [ch])
  {
    forall i | 0 <= i < |chs| ensures chs[i].key in scope {
      assert chs[i].key in KeysOf(chs);
    }
    var more := chs + [ch];
    assert KeysOf(more) == KeysOf(chs) + {ch.key} by {
      assert more[|chs|] == ch;
      forall k | k in KeysOf(chs) ensures k in KeysOf(more) {
        var i :| 0 <= i < |chs| && chs[i].key == k;
        assert more[i].key == k;
      }
    }
  }

  /** The first loop: what is missing or unequal. */
  method DiffWanted<R(==), P, B>(kd: Kind<R, P, B>, cur: map<Key<R>, Held<P>>, des: map<Key<R>, P>)
    returns (creates: seq<Change<R, P>>, updates: seq<Change<R, P>>)
    ensures Lists(kd, cur, des, Create, des.Keys, creates) && Lists(kd, cur, des, Update, des.Keys, updates)
  {
    creates, updates := [], [];
    var todo := des.Keys;
    while todo != {}
      invariant todo <= des.Keys
      invariant Lists(kd, cur, des, Create, des.Keys - todo, creates)
      invariant Lists(kd, cur, des, Update, des.Keys - todo, updates)
    {
      var k :| k in todo;
      ghost var seen := des.Keys - todo;
      ListsStep(kd, cur, des, Create, seen, creates, Change(Create, k, None, Some(des[k])));
      ListsStep(kd, cur, des, Update, seen, updates,
                Change(Update, k, if k in cur then cur[k].id else None, Some(des[k])));
      if k !in cur {
        creates := creates + [Change(Create, k, None, Some(des[k]))];
      } else if !kd.same(cur[k].value, des[k]) {
        updates := updates + [Change(Update, k, cur[k].id, Some(des[k]))];
      }
      todo := todo - {k};
      assert des.Keys - todo == seen + {k};
    }
    assert des.Keys - todo == des.Keys;
  }

  /** The second loop: what is surplus. */
  method DiffSurplus<R(==), P, B>(kd: Kind<R, P, B>, cur: map<Key<R>, Held<P>>, des: map<Key<R>, P>)
    returns (deletes: seq<Change<R, P>>)
    ensures Lists(kd, cur, des, Delete, cur.Keys, deletes)
  {
    deletes := [];
    var todo := cur.Keys;
    while todo != {}
      invariant todo <= cur.Keys && Lists(kd, cur, des, Delete, cur.Keys - todo, deletes)
    {
      var k :| k in todo;
      ghost var seen := cur.Keys - todo;
      ListsStep(kd, cur, des, Delete, seen, deletes, Change(Delete, k, cur[k].id, None));
      if k !in des {
        deletes := deletes + [Change(Delete, k, cur[k].id, None)];
      }
      todo := todo - {k};
      assert cur.Keys - todo == seen + {k};
    }
    assert cur.Keys - todo == cur.Keys;
  }

  method Diff<R(==), P, B>(kd: Kind<R, P, B>, current: seq<(Key<R>, Held<P>)>, desired: seq<(Key<R>, P)>)
    returns (cs: ChangeSet<R, P>)
    ensures IsDiff(kd, Index(current), Index(desired), cs)
  {
    var cur := BuildIndex(current);
    var des := BuildIndex(desired);
    var creates, updates := DiffWanted(kd, cur, des);
    var deletes := DiffSurplus(kd, cur, des);
    ListsWiden(kd, cur, des, Create, des.Keys, creates);
    ListsWiden(kd, cur, des, Update, des.Keys, updates);
    ListsWiden(kd, cur, des, Delete, cur.Keys, deletes);
    cs := ChangeSet(creates, updates, deletes);
  }

  /** Outside the desired keys nothing is created or updated, outside the current ones nothing is deleted. */
  lemma ListsWiden<R, P, B>(kd: Kind<R, P, B>, cur: map<Key<R>, Held<P>>, des: map<Key<R>, P>, op: Op,
                            scope: set<Key<R>>, chs: seq<Change<R, P>>)
    requires Lists(kd, cur, des, op, scope, chs) && scope == if op.Delete? then cur.Keys else des.Keys
    ensures Lists(kd, cur, des, op, cur.Keys + des.Keys, chs)
  {
    forall k | PendingOp(kd, Values(cur), des, k) == Some(op) ensures k in scope {}
  }

  // ----- The desired side as an adapter sees it -----

  /**
   * Prowlarr's resources form a part of the IR that may be missing; those of the other adapters are lists of the IR
   * itself.
   */
  datatype IR<R, P> = IR(prowlarr: Option<seq<(Key<R>, P)>>, lists: seq<(Key<R>, P)>)

  function Part<R, P>(ir: IR<R, P>, ownPart: bool): Option<seq<(Key<R>, P)>> {
    if ownPart then ir.prowlarr else Some(ir.lists)
  }

  /** The changes an adapter asks for: none at all if its part is missing. */
  ghost function PendingPart<R, P, B>(kd: Kind<R, P, B>, v: map<Key<R>, P>,
                                      part: Option<seq<(Key<R>, P)>>): set<Key<R>> {
    if part.None? then {} else Pending(kd, v, Index(part.value))
  }

  ghost predicate IsDiffOfPart<R, P, B>(kd: Kind<R, P, B>, cur: map<Key<R>, Held<P>>, part: Option<seq<(Key<R>, P)>>,
                                        cs: ChangeSet<R, P>) {
    if part.None? then All(cs) == [] else IsDiff(kd, cur, Index(part.value), cs)
  }

  /** An adapter's Diff: it returns early if its part of the desired IR is missing. */
  method DiffPart<R(==), P, B>(kd: Kind<R, P, B>, current: seq<(Key<R>, Held<P>)>, part: Option<seq<(Key<R>, P)>>)
    returns (cs: ChangeSet<R, P>)
    ensures IsDiffOfPart(kd, Index(current), part, cs)
  {
    if part.None? { return ChangeSet([], [], []); }
    cs := Diff(kd, current, part.value);
  }

  /** There is something to apply exactly if something is pending. */
  lemma EmptyIffNothingPending<R, P, B>(kd: Kind<R, P, B>, cur: map<Key<R>, Held<P>>, part: Option<seq<(Key<R>, P)>>,
                                        cs: ChangeSet<R, P>)
    requires IsDiffOfPart(kd, cur, part, cs)
    ensures All(cs) == [] <==> PendingPart(kd, Values(cur), part) == {}
  {
    if part.Some? {
      DiffIsPartition(kd, cur, Index(part.value), cs);
      if All(cs) != [] { assert All(cs)[0].key in KeysOf(All(cs)); }
    }
  }

  /** Which of the three lists the `i`-th of all changes comes from. */
  lemma AllAsked<R, P, B>(kd: Kind<R, P, B>, cur: map<Key<R>, Held<P>>, des: map<Key<R>, P>, cs: ChangeSet<R, P>,
                          i: nat)
    requires IsDiff(kd, cur, des, cs) && i < |All(cs)|
    ensures Asked(kd, cur, des, All(cs)[i])
    ensures All(cs)[i].op == if i < |cs.creates| then Create else if i < |cs.creates| + |cs.updates| then Update
            else Delete
  {
    var c, u := |cs.creates|, |cs.creates| + |cs.updates|;
    if i < c {
      assert All(cs)[i] == cs.creates[i];
    } else if i < u {
      assert All(cs)[i] == cs.updates[i - c];
    } else {
      assert All(cs)[i] == cs.deletes[i - u];
    }
  }

  lemma AllDistinct<R, P, B>(kd: Kind<R, P, B>, cur: map<Key<R>, Held<P>>, des: map<Key<R>, P>, cs: ChangeSet<R, P>,
                             i: nat, j: nat)
    requires IsDiff(kd, cur, des, cs) && i < j < |All(cs)|
    ensures All(cs)[i].key != All(cs)[j].key
  {
    AllAsked(kd, cur, des, cs, i);
    AllAsked(kd, cur, des, cs, j);
    var c, u := |cs.creates|, |cs.creates| + |cs.updates|;
    if j < c {
      assert cs.creates[i].key != cs.creates[j].key;
    } else if c <= i && j < u {
      assert cs.updates[i - c].key != cs.updates[j - c].key;
    } else if u <= i {
      assert cs.deletes[i - u].key != cs.deletes[j - u].key;
    }
  }

  lemma KeysOfAll<R, P>(cs: ChangeSet<R, P>)
    ensures KeysOf(All(cs)) == KeysOf(cs.creates) + KeysOf(cs.updates) + KeysOf(cs.deletes)
  {
    KeysOfConcat(cs.creates, cs.updates);
    KeysOfConcat(cs.creates + cs.updates, cs.deletes);
  }

  lemma KeysOfConcat<R, P>(xs: seq<Change<R, P>>, ys: seq<Change<R, P>>)
    ensures KeysOf(xs + ys) == KeysOf(xs) + KeysOf(ys)
  {
    forall k | k in KeysOf(xs) ensures k in KeysOf(xs + ys) {
      var i :| 0 <= i < |xs| && xs[i].key == k;
      assert (xs + ys)[i].key == k;
    }
    forall k | k in KeysOf(ys) ensures k in KeysOf(xs + ys) {
      var i :| 0 <= i < |ys| && ys[i].key == k;
      assert (xs + ys)[|xs| + i].key == k;
    }
  }

  /**
   * The three lists partition the pending changes: no key occurs twice, in one list or in
   * two, and together they name exactly the keys that are missing, unequal or surplus.
   */
  lemma DiffIsPartition<R, P, B>(kd: Kind<R, P, B>, cur: map<Key<R>, Held<P>>, des: map<Key<R>, P>, cs: ChangeSet<R, P>)
    requires IsDiff(kd, cur, des, cs)
    ensures DistinctKeys(All(cs))
    ensures KeysOf(All(cs)) == Pending(kd, Values(cur), des)
    ensures forall i :: 0 <= i < |All(cs)| ==> Asked(kd, cur, des, All(cs)[i])
  {
    var all := All(cs);
    forall i | 0 <= i < |all| ensures Asked(kd, cur, des, all[i]) {
      AllAsked(kd, cur, des, cs, i);
    }
    forall i, j | 0 <= i < j < |all| ensures all[i].key != all[j].key {
      AllDistinct(kd, cur, des, cs, i, j);
    }
    KeysOfAll(cs);
    PendingByKind(kd, Values(cur), des);
  }

  lemma PendingByKind<R, P, B>(kd: Kind<R, P, B>, v: map<Key<R>, P>, des: map<Key<R>, P>)
    ensures Pending(kd, v, des) == (set k | k in v.Keys + des.Keys && PendingOp(kd, v, des, k) == Some(Create))
                                   + (set k | k in v.Keys + des.Keys && PendingOp(kd, v, des, k) == Some(Update))
                                   + (set k | k in v.Keys + des.Keys && PendingOp(kd, v, des, k) == Some(Delete))
  {
    forall k | k in v.Keys + des.Keys && PendingOp(kd, v, des, k).Some?
      ensures PendingOp(kd, v, des, k).value in {Create, Update, Delete} {}
  }

  /** The effect of one successful change, at location `l`, on an owned resource. */
  ghost predicate Effect<R, P, B>(kd: Kind<R, P, B>, tag: int, ch: Change<R, P>, l: Loc<R>, st: Store<R, B>,
                                  st': Store<R, B>) {
    && (ch.op.Delete? || ch.payload.Some?)
    && (if ch.op.Create? then l !in st else l in st && Owned(kd, tag, st[l]) && st[l].key == ch.key)
    && st' == if ch.op.Delete? then st - {l} else st[l := Written(kd, tag, ch.key, ch.payload.value)]
  }

  lemma EffectKeepsUnique<R(!new), P, B>(kd: Kind<R, P, B>, tag: int, ch: Change<R, P>, l: Loc<R>, st: Store<R, B>,
                                         st': Store<R, B>)
    requires UniqueNames(kd, tag, st) && Effect(kd, tag, ch, l, st, st')
    requires ch.op.Create? ==> ch.key !in OwnedKeys(kd, tag, st)
    ensures UniqueNames(kd, tag, st')
  {
    forall m, n, k | Holds(kd, tag, st', m, k) && Holds(kd, tag, st', n, k) ensures m == n {
      assert m != l ==> Holds(kd, tag, st, m, k);
      assert n != l ==> Holds(kd, tag, st, n, k);
      assert !ch.op.Create? ==> Holds(kd, tag, st, l, ch.key);
    }
  }

  /** Every other name holds what it held. */
  lemma OtherNameKept<R(!new), P, B>(kd: Kind<R, P, B>, tag: int, ch: Change<R, P>, l: Loc<R>, st: Store<R, B>,
                                     st': Store<R, B>, k: Key<R>)
    requires UniqueNames(kd, tag, st) && UniqueNames(kd, tag, st') && Effect(kd, tag, ch, l, st, st') && k != ch.key
    ensures k in View(kd, tag, st) <==> k in View(kd, tag, st')
    ensures k in View(kd, tag, st) ==> View(kd, tag, st')[k] == View(kd, tag, st)[k]
  {
    if k in View(kd, tag, st) {
      assert Holds(kd, tag, st', Locate(kd, tag, st, k), k);
    }
    if k in View(kd, tag, st') {
      assert Holds(kd, tag, st, Locate(kd, tag, st', k), k);
    }
  }

  /** The name of the change is gone, or holds what reads back. */
  lemma OwnNameWritten<R(!new), P, B>(kd: Kind<R, P, B>, tag: int, ch: Change<R, P>, l: Loc<R>, st: Store<R, B>,
                                      st': Store<R, B>)
    requires UniqueNames(kd, tag, st) && UniqueNames(kd, tag, st') && Effect(kd, tag, ch, l, st, st')
    ensures if ch.op.Delete? then ch.key !in View(kd, tag, st')
            else ch.key in View(kd, tag, st') && View(kd, tag, st')[ch.key] == Back(kd, ch.payload.value)
  {
    if ch.op.Delete? {
      assert Holds(kd, tag, st, l, ch.key);
      forall m ensures !Holds(kd, tag, st', m, ch.key) {
        assert Holds(kd, tag, st', m, ch.key) ==> Holds(kd, tag, st, m, ch.key);
      }
    } else {
      assert Holds(kd, tag, st', l, ch.key);
    }
  }

  lemma EffectOnView<R(!new), P, B>(kd: Kind<R, P, B>, tag: int, ch: Change<R, P>, l: Loc<R>, st: Store<R, B>,
                                    st': Store<R, B>)
    requires UniqueNames(kd, tag, st) && Effect(kd, tag, ch, l, st, st')
    requires ch.op.Create? ==> ch.key !in OwnedKeys(kd, tag, st)
    ensures View(kd, tag, st') ==
            if ch.op.Delete? then View(kd, tag, st) - {ch.key}
            else View(kd, tag, st)[ch.key := Back(kd, ch.payload.value)]
  {
    EffectKeepsUnique(kd, tag, ch, l, st, st');
    OwnNameWritten(kd, tag, ch, l, st, st');
    forall k | k != ch.key
      ensures k in View(kd, tag, st) <==> k in View(kd, tag, st')
      ensures k in View(kd, tag, st) ==> View(kd, tag, st')[k] == View(kd, tag, st)[k]
    {
      OtherNameKept(kd, tag, ch, l, st, st', k);
    }
  }
}

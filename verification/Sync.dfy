/**
 * The theory of the by-name diff that every adapter shares: `CurrentState` yields a
 * map from keys to values, `Diff` compares it with the desired map, and `Apply` writes
 * the differences. Nothing here knows how a server stores a resource; a `Kind` supplies
 * what one family of resources needs: how a desired value is written (`build`), how a
 * stored body is read back (`read`), and the comparer the adapter uses (`same`, whose
 * first argument is the current value and whose second is the desired one).
 */
module Sync {
  import opened Common

  datatype Kind<!R, !P, !B> = Kind(
    build: P -> B,
    read: B -> P,
    same: (P, P) -> bool,
    filtered: R -> bool)  // whether resources of this type are selected by the ownership tag

  datatype Op = Create | Update | Delete

  /** What the adapter reads back after it has written `p`. */
  ghost function Back<R, P, B>(kd: Kind<R, P, B>, p: P): P {
    kd.read(kd.build(p))
  }

  /** Writing `p` and reading it back satisfies the comparer. */
  ghost predicate Stable<R, P, B>(kd: Kind<R, P, B>, p: P) {
    kd.same(Back(kd, p), p)
  }

  /** Two kinds that no reader can tell apart: the bodies they write may differ, but read back alike. */
  ghost predicate Alike<R(!new), P(!new), B(!new)>(kd: Kind<R, P, B>, other: Kind<R, P, B>) {
    && (forall p :: Back(kd, p) == Back(other, p))
    && (forall b :: kd.read(b) == other.read(b))
    && (forall p, q :: kd.same(p, q) == other.same(p, q))
    && (forall r :: kd.filtered(r) == other.filtered(r))
  }

  ghost predicate AllStable<R, K, P, B>(kd: Kind<R, P, B>, desired: map<K, P>) {
    forall k :: k in desired ==> Stable(kd, desired[k])
  }

  /** The change, if any, that the diff asks for on one key. */
  ghost function PendingOp<R, K, P, B>(kd: Kind<R, P, B>, current: map<K, P>, desired: map<K, P>, k: K): Option<Op> {
    if k in desired then
      if k !in current then Some(Create)
      else if !kd.same(current[k], desired[k]) then Some(Update)
      else None
    else if k in current then Some(Delete)
    else None
  }

  ghost function Pending<R, K, P, B>(kd: Kind<R, P, B>, current: map<K, P>, desired: map<K, P>): set<K> {
    set k | k in current.Keys + desired.Keys && PendingOp(kd, current, desired, k).Some?
  }

  /** The by-name state once the changes on exactly the keys in `done` have taken effect. */
  ghost function Target<R, K, P, B>(kd: Kind<R, P, B>, current: map<K, P>, desired: map<K, P>,
                                    done: set<K>): map<K, P> {
    map k | k in current.Keys + desired.Keys && (if k in done then k in desired else k in current)
      :: if k in done then Back(kd, desired[k]) else current[k]
  }

  /** One successful change, as the adapter carries it out. */
  ghost function ApplyOne<R, K, P, B>(kd: Kind<R, P, B>, current: map<K, P>, desired: map<K, P>, k: K): map<K, P> {
    if k in desired then current[k := Back(kd, desired[k])] else current - {k}
  }

  ghost function ApplyAll<R, K, P, B>(kd: Kind<R, P, B>, current: map<K, P>, desired: map<K, P>,
                                      ks: seq<K>): map<K, P> {
    if ks == [] then current
    else ApplyOne(kd, ApplyAll(kd, current, desired, ks[..|ks| - 1]), desired, ks[|ks| - 1])
  }

  lemma TargetStep<R, K, P, B>(kd: Kind<R, P, B>, current: map<K, P>, desired: map<K, P>, done: set<K>, k: K)
    requires k in current.Keys + desired.Keys
    ensures Target(kd, current, desired, done + {k}) == ApplyOne(kd, Target(kd, current, desired, done), desired, k)
  {
    var left := Target(kd, current, desired, done + {k});
    var right := ApplyOne(kd, Target(kd, current, desired, done), desired, k);
    assert left.Keys == right.Keys;
  }

  /** Whatever order the changes run in, the result depends only on which of them succeeded. */
  lemma {:induction false} ApplyAllIsTarget<R, K, P, B>(kd: Kind<R, P, B>, current: map<K, P>, desired: map<K, P>,
                                                        ks: seq<K>)
    requires Elements(ks) <= current.Keys + desired.Keys
    ensures ApplyAll(kd, current, desired, ks) == Target(kd, current, desired, Elements(ks))
  {
    if ks == [] {
      assert Target(kd, current, desired, {}) == current;
    } else {
      var front, last := ks[..|ks| - 1], ks[|ks| - 1];
      assert forall x :: x in front ==> x in ks;
      assert last in Elements(ks);
      assert Elements(ks) == Elements(front) + {last} by {
        assert ks == front + [last];
      }
      ApplyAllIsTarget(kd, current, desired, front);
      TargetStep(kd, current, desired, Elements(front), last);
    }
  }

  lemma OrderIrrelevant<R, K, P, B>(kd: Kind<R, P, B>, current: map<K, P>, desired: map<K, P>, ks: seq<K>, js: seq<K>)
    requires Elements(ks) == Elements(js) <= current.Keys + desired.Keys
    ensures ApplyAll(kd, current, desired, ks) == ApplyAll(kd, current, desired, js)
  {
    ApplyAllIsTarget(kd, current, desired, ks);
    ApplyAllIsTarget(kd, current, desired, js);
  }

  /**
   * The next diff, exactly: a change that failed is asked for again with the same kind, a
   * change that succeeded is not, except that a value which does not survive the write and
   * read back is asked for as an update for ever.
   */
  lemma Residual<R, K, P, B>(kd: Kind<R, P, B>, current: map<K, P>, desired: map<K, P>, done: set<K>, k: K)
    ensures var next := Target(kd, current, desired, done);
            PendingOp(kd, next, desired, k) ==
            if k in done && k in current.Keys + desired.Keys then
              if k in desired && !Stable(kd, desired[k]) then Some(Update) else None
            else PendingOp(kd, current, desired, k)
  {
  }

  lemma ResidualIsFailures<R, K, P, B>(kd: Kind<R, P, B>, current: map<K, P>, desired: map<K, P>, done: set<K>)
    requires AllStable(kd, desired)
    requires done <= Pending(kd, current, desired)
    ensures var next := Target(kd, current, desired, done);
            && Pending(kd, next, desired) == Pending(kd, current, desired) - done
            && (forall k :: k in Pending(kd, next, desired) ==>
                 PendingOp(kd, next, desired, k) == PendingOp(kd, current, desired, k))
            && |Pending(kd, current, desired)| == |done| + |Pending(kd, next, desired)|
  {
    var next := Target(kd, current, desired, done);
    var before, after := Pending(kd, current, desired), Pending(kd, next, desired);
    forall k ensures k in after <==> k in before - done {
      Residual(kd, current, desired, done, k);
    }
    assert after == before - done;
    assert before == done + after && done !! after;
    forall k | k in after ensures PendingOp(kd, next, desired, k) == PendingOp(kd, current, desired, k) {
      Residual(kd, current, desired, done, k);
    }
  }

  /** When every change succeeds, the second diff is empty exactly if all desired values are stable. */
  lemma ConvergesIffStable<R, K, P, B>(kd: Kind<R, P, B>, current: map<K, P>, desired: map<K, P>)
    ensures var next := Target(kd, current, desired, Pending(kd, current, desired));
            Pending(kd, next, desired) == {} <==>
            forall k :: k in Pending(kd, current, desired) && k in desired ==> Stable(kd, desired[k])
  {
    var done := Pending(kd, current, desired);
    var next := Target(kd, current, desired, done);
    forall k ensures k in Pending(kd, next, desired) <==> k in done && k in desired && !Stable(kd, desired[k]) {
      Residual(kd, current, desired, done, k);
    }
    if Pending(kd, next, desired) != {} {
      var k :| k in Pending(kd, next, desired);
      assert k in done && k in desired && !Stable(kd, desired[k]);
    }
  }

  /** Rounds of reconciling without outside edits; `dones[i]` is the set of keys whose change succeeded in round i. */
  ghost function AfterRounds<R, K, P, B>(kd: Kind<R, P, B>, current: map<K, P>, desired: map<K, P>,
                                         dones: seq<set<K>>): map<K, P>
    decreases |dones|
  {
    if dones == [] then current
    else AfterRounds(kd, Target(kd, current, desired, dones[0]), desired, dones[1..])
  }

  ghost predicate PossibleRounds<R, K, P, B>(kd: Kind<R, P, B>, current: map<K, P>, desired: map<K, P>,
                                             dones: seq<set<K>>)
    decreases |dones|
  {
    dones == [] ||
    (dones[0] <= Pending(kd, current, desired) &&
     PossibleRounds(kd, Target(kd, current, desired, dones[0]), desired, dones[1..]))
  }

  /** A change is still pending after any number of rounds exactly if it failed in every one of them. */
  lemma {:induction false} PendingAfterRounds<R, K, P, B>(
    kd: Kind<R, P, B>, current: map<K, P>, desired: map<K, P>, dones: seq<set<K>>, k: K)
    requires AllStable(kd, desired) && PossibleRounds(kd, current, desired, dones)
    ensures k in Pending(kd, AfterRounds(kd, current, desired, dones), desired) <==>
            k in Pending(kd, current, desired) && forall i :: 0 <= i < |dones| ==> k !in dones[i]
    decreases |dones|
  {
    if dones != [] {
      var next := Target(kd, current, desired, dones[0]);
      ResidualIsFailures(kd, current, desired, dones[0]);
      PendingAfterRounds(kd, next, desired, dones[1..], k);
      assert forall i :: 0 < i < |dones| ==> dones[i] == dones[1..][i - 1];
      assert forall i :: 0 <= i < |dones[1..]| ==> dones[1..][i] == dones[i + 1];
    }
  }

  /** No diff can ask for less: any state the comparer accepts differs from the current one on every pending key. */
  lemma DiffIsMinimal<R, K, P, B>(kd: Kind<R, P, B>, current: map<K, P>, desired: map<K, P>, other: map<K, P>, k: K)
    requires Pending(kd, other, desired) == {}
    requires k in Pending(kd, current, desired)
    ensures (k in other) != (k in current) || (k in current && other[k] != current[k])
  {
    assert k !in Pending(kd, other, desired);
  }
}

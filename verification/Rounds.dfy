/**
 * Any number of reconciles of one service, with others editing it in between: which changes
 * are still pending after the last of them.
 */
module Rounds {
  import opened Common
  import opened Sync
  import opened Remote
  import opened ChangeSets
  import opened Reconcile

  /** The reconcile does not get to write `k`: it ends before, or the service refuses. */
  ghost predicate Blocked<R(!new)>(env: Env<R>, t: int, k: Key<R>) {
    !Undisturbed(env) || !Ensurable(Some(t), env.tag) || !env.answers.writes(k)
  }

  /** A desired value that does not survive being written and read back. */
  ghost predicate Unstable<R, P, B>(kd: Kind<R, P, B>, des: map<Key<R>, P>, k: Key<R>) {
    k in des && !Stable(kd, des[k])
  }

  ghost predicate IsPending<R(!new), P, B>(kd: Kind<R, P, B>, t: int, st: Store<R, B>, des: map<Key<R>, P>, k: Key<R>) {
    k in Pending(kd, View(kd, t, st), des)
  }

  /** One round: what was pending stays so exactly if it was not written, or could not be written for good. */
  lemma PendingAfterRound<R(!new), P, B>(kd: Kind<R, P, B>, t: int, part: Option<seq<(Key<R>, P)>>, env: Env<R>,
                                         st: Store<R, B>, st': Store<R, B>, outcome: Outcome, seen: map<Key<R>, P>,
                                         failed: set<Key<R>>)
    requires part.Some? && Reads(env.answers) && UniqueNames(kd, t, st)
    requires Reported(kd, part, env, Some(t), st, Some(t), st', outcome, seen, failed)
    ensures UniqueNames(kd, t, st')
    ensures forall k :: IsPending(kd, t, st', Index(part.value), k) <==>
              && IsPending(kd, t, st, Index(part.value), k)
              && (Unstable(kd, Index(part.value), k) || Blocked(env, t, k))
  {
    var v, des := View(kd, t, st), Index(part.value);
    if outcome != Unreachable { SeenIsView(kd, Some(t), st, t, env.answers, seen); }
    if outcome.Finished? {
      forall k
        ensures IsPending(kd, t, st', des, k) <==>
                IsPending(kd, t, st, des, k) && (Unstable(kd, des, k) || Blocked(env, t, k))
      {
        ResidualAt(kd, v, des, Pending(kd, v, des) - failed, k);
      }
    }
  }

  lemma ResidualAt<R, P, B>(kd: Kind<R, P, B>, v: map<Key<R>, P>, des: map<Key<R>, P>, done: set<Key<R>>, k: Key<R>)
    requires done <= Pending(kd, v, des)
    ensures k in Pending(kd, Target(kd, v, des, done), des) <==>
            k in Pending(kd, v, des) && (Unstable(kd, des, k) || k !in done)
  {
    Residual(kd, v, des, done, k);
  }

  // ----- Edits by others -----

  type Edit<!R, !B> = Store<R, B> -> Store<R, B>

  /** An edit keeps resources under their types and owned names unique. */
  ghost predicate Orderly<R(!new), P, B(!new)>(kd: Kind<R, P, B>, t: int, edit: Edit<R, B>) {
    forall st :: WellTyped(st) && UniqueNames(kd, t, st) ==> WellTyped(edit(st)) && UniqueNames(kd, t, edit(st))
  }

  /** What `k` stands for is not edited. */
  ghost predicate LeavesAlone<R(!new), P, B(!new)>(kd: Kind<R, P, B>, t: int, edit: Edit<R, B>, k: Key<R>) {
    forall st :: UniqueNames(kd, t, st) ==>
        && (k in View(kd, t, edit(st)) <==> k in View(kd, t, st))
        && (k in View(kd, t, st) ==> View(kd, t, edit(st))[k] == View(kd, t, st)[k])
  }

  /** The edits before the first `n` rounds leave `k` alone. */
  ghost predicate Unedited<R(!new), P, B(!new)>(kd: Kind<R, P, B>, t: int, edits: seq<Edit<R, B>>, n: nat, k: Key<R>) {
    forall i :: 0 <= i < n && i < |edits| ==> LeavesAlone(kd, t, edits[i], k)
  }

  ghost predicate BlockedThroughout<R(!new)>(envs: seq<Env<R>>, t: int, n: nat, k: Key<R>) {
    forall i :: 0 <= i < n && i < |envs| ==> Blocked(envs[i], t, k)
  }

  lemma PendingUnderEdit<R(!new), P, B(!new)>(kd: Kind<R, P, B>, t: int, edit: Edit<R, B>, st: Store<R, B>,
                                              des: map<Key<R>, P>, k: Key<R>)
    requires UniqueNames(kd, t, st) && LeavesAlone(kd, t, edit, k)
    ensures IsPending(kd, t, edit(st), des, k) <==> IsPending(kd, t, st, des, k)
  {
    assert PendingOp(kd, View(kd, t, edit(st)), des, k) == PendingOp(kd, View(kd, t, st), des, k);
  }

  /** What is pending after the first `n` rounds, of whatever was not edited. */
  ghost predicate Remains<R(!new), P, B(!new)>(kd: Kind<R, P, B>, t: int, st0: Store<R, B>, st: Store<R, B>,
                                               des: map<Key<R>, P>, envs: seq<Env<R>>, edits: seq<Edit<R, B>>,
                                               n: nat) {
    forall k :: Unedited(kd, t, edits, n, k) ==>
        (IsPending(kd, t, st, des, k) <==>
           IsPending(kd, t, st0, des, k) && (n == 0 || Unstable(kd, des, k) || BlockedThroughout(envs, t, n, k)))
  }

  lemma RemainsStep<R(!new), P, B(!new)>(kd: Kind<R, P, B>, t: int, st0: Store<R, B>, st: Store<R, B>,
                                         st': Store<R, B>, des: map<Key<R>, P>, envs: seq<Env<R>>,
                                         edits: seq<Edit<R, B>>, n: nat)
    requires n < |envs| == |edits| && UniqueNames(kd, t, st) && Remains(kd, t, st0, st, des, envs, edits, n)
    requires forall k :: IsPending(kd, t, st', des, k) <==>
               IsPending(kd, t, edits[n](st), des, k) && (Unstable(kd, des, k) || Blocked(envs[n], t, k))
    ensures Remains(kd, t, st0, st', des, envs, edits, n + 1)
  {
    forall k | Unedited(kd, t, edits, n + 1, k)
      ensures IsPending(kd, t, st', des, k) <==>
              IsPending(kd, t, st0, des, k) && (Unstable(kd, des, k) || BlockedThroughout(envs, t, n + 1, k))
    {
      assert Unedited(kd, t, edits, n, k) && LeavesAlone(kd, t, edits[n], k);
      PendingUnderEdit(kd, t, edits[n], st, des, k);
      assert BlockedThroughout(envs, t, n + 1, k) <==> BlockedThroughout(envs, t, n, k) && Blocked(envs[n], t, k);
    }
  }

  /**
   * Reconciles with complete reads, each of which finds the service as others left it. Of what others left alone, a
   * change is still pending after the last one if and only if it was pending before the first and either every
   * reconcile was kept from making it, or its value never survives.
   */
  method ReconcileRounds<R(==,!new), P(!new), B(!new)>(c: Controller<R, P, B>, ir: IR<R, P>, envs: seq<Env<R>>,
                                                       edits: seq<Edit<R, B>>, status: ConfigStatus)
    requires c.adapter.server.Valid() && (forall r: R :: r in c.adapter.types) && |envs| == |edits|
    requires Part(ir, c.adapter.client.ownPart).Some? && c.adapter.server.tag.Some?
    requires UniqueNames(c.adapter.kd, c.adapter.server.tag.value, c.adapter.server.store)
    requires forall i :: 0 <= i < |envs| ==>
               Reads(envs[i].answers) && Orderly(c.adapter.kd, c.adapter.server.tag.value, edits[i])
    modifies c.adapter.server, c.adapter.cache, status
    ensures c.adapter.server.Valid() && c.adapter.server.tag == old(c.adapter.server.tag)
    ensures var t, des := c.adapter.server.tag.value, Index(Part(ir, c.adapter.client.ownPart).value);
            forall k :: Unedited(c.adapter.kd, t, edits, |edits|, k) ==>
              (IsPending(c.adapter.kd, t, c.adapter.server.store, des, k) <==>
                 && IsPending(c.adapter.kd, t, old(c.adapter.server.store), des, k)
                 && (envs == [] || Unstable(c.adapter.kd, des, k) || BlockedThroughout(envs, t, |envs|, k)))
  {
    ghost var t, part, st0 := c.adapter.server.tag.value, Part(ir, c.adapter.client.ownPart), c.adapter.server.store;
    for i := 0 to |envs|
      invariant c.adapter.server.Valid() && c.adapter.server.tag == Some(t)
      invariant UniqueNames(c.adapter.kd, t, c.adapter.server.store)
      invariant Remains(c.adapter.kd, t, st0, c.adapter.server.store, Index(part.value), envs, edits, i)
    {
      ghost var st := c.adapter.server.store;
      c.adapter.server.Edit(edits[i](c.adapter.server.store));
      var outcome;
      ghost var seen, failed;
      outcome, seen, failed := c.ReconcileConfig(ir, envs[i], status);
      PendingAfterRound(c.adapter.kd, t, part, envs[i], edits[i](st), c.adapter.server.store, outcome, seen, failed);
      RemainsStep(c.adapter.kd, t, st0, st, c.adapter.server.store, Index(part.value), envs, edits, i);
    }
  }
}

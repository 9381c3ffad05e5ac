/**
 * The finalizer lifecycle of the generic reconciler: one config object, users who create,
 * edit and delete it, and a controller whose single worker fetches the object from a cache
 * that may lag behind but never goes back, and later acts on that snapshot. Writes carry the
 * fetched version and fail on a conflict.
 */
module Lifecycle {
  import opened Common

  datatype Obj = Obj(
    finalizer: bool,   // this controller's finalizer
    others: bool,      // somebody else's finalizers
    deleting: bool,    // the deletion timestamp is set
    suspended: bool,
    hasRef: bool,      // spec.indexers.prowlarrRef
    registers: bool,   // ShouldRegisterWithProwlarr
    version: nat)

  datatype Event =
    | Created
    | DeletionStarted(since: nat)      // the first version that is under deletion
    | Fetched(version: nat)
    | FinalizerAdded
    | SecretsFailed                 // connection secrets could not be resolved, in a deletion
    | CleanupAttempted
    | Unregistered                  // an attempt, whatever came of it
    | FinalizerRemoved
    | Applied(obj: Obj)                // ReconcileConfig was called, for this snapshot
    | AppliedDirect
    | Registered
    | Gone

  /** What the environment answers during one reconcile. */
  datatype Env = Env(
    connSecrets: bool, clientSecrets: bool, indexerSecrets: bool, importListSecrets: bool, authSecrets: bool,
    adapterKnown: bool, discovers: bool, compiles: bool, reconciles: bool, updates: bool)

  /** Everything before ReconcileConfig went through. */
  predicate ReachesApply(env: Env) {
    && env.connSecrets && env.clientSecrets && env.indexerSecrets && env.importListSecrets && env.authSecrets
    && env.adapterKnown && env.discovers && env.compiles
  }

  /** The events of acting on a snapshot, in order, apart from the finalizer update. */
  function ActEvents(o: Obj, env: Env): seq<Event> {
    if o.suspended then []
    else if o.deleting then
      (if o.hasRef then [Unregistered] else []) + [if env.connSecrets then CleanupAttempted else SecretsFailed]
    else if !o.finalizer || !ReachesApply(env) then []
    else if !env.reconciles then [Applied(o)]
    else [Applied(o), AppliedDirect] + if o.registers && o.hasRef then [Registered] else []
  }

  /** The finalizer the controller writes back, if it writes the object at all. */
  function FinalizerWrite(o: Obj): Option<bool> {
    if o.suspended then None
    else if o.deleting then Some(false)
    else if !o.finalizer then Some(true)
    else None
  }

  /**
   * What acting on a snapshot does, flag by flag: the finalizer is added to what has none and given up by what is under
   * deletion; the desired state is applied, first of all, exactly if the finalizer is there and every step before it
   * went through; under deletion cleanup or the failure of its secrets comes last.
   */
  lemma ActFlagByFlag(o: Obj, env: Env)
    ensures FinalizerWrite(o) == Some(true) <==> !o.suspended && !o.deleting && !o.finalizer
    ensures FinalizerWrite(o) == Some(false) <==> !o.suspended && o.deleting
    ensures var live := !o.suspended && !o.deleting && o.finalizer
                        && env.connSecrets && env.clientSecrets && env.indexerSecrets && env.importListSecrets
                        && env.authSecrets && env.adapterKnown && env.discovers && env.compiles;
            && (Applied(o) in ActEvents(o, env) <==> live) && (live ==> ActEvents(o, env)[0] == Applied(o))
            && (AppliedDirect in ActEvents(o, env) <==> live && env.reconciles)
            && (Registered in ActEvents(o, env) <==> live && env.reconciles && o.registers && o.hasRef)
    ensures var going := !o.suspended && o.deleting;
            && (Unregistered in ActEvents(o, env) <==> going && o.hasRef)
            && (CleanupAttempted in ActEvents(o, env) <==> going && env.connSecrets)
            && (SecretsFailed in ActEvents(o, env) <==> going && !env.connSecrets)
            && (going ==> ActEvents(o, env)[|ActEvents(o, env)| - 1] in {CleanupAttempted, SecretsFailed})
    ensures forall e :: e in ActEvents(o, env) ==>
              e in {Applied(o), AppliedDirect, Registered, Unregistered, CleanupAttempted, SecretsFailed}
    ensures forall i, j :: 0 <= i < j < |ActEvents(o, env)| ==> ActEvents(o, env)[i] != ActEvents(o, env)[j]
  {
    var events := ActEvents(o, env);
    if !o.suspended && o.deleting {
      assert events[|events| - 1] == if env.connSecrets then CleanupAttempted else SecretsFailed;
      assert o.hasRef ==> events[0] == Unregistered;
    } else if !o.suspended && o.finalizer && ReachesApply(env) {
      assert events[0] == Applied(o);
      assert env.reconciles ==> events[1] == AppliedDirect && (o.registers && o.hasRef ==> events[2] == Registered);
    }
  }

  /** The controller's code, with its exits. Status writes do not bear on the lifecycle. */
  class GenericReconciler {
    var log: seq<Event>
    var ready: Option<(bool, string)>  // the Ready condition: status and reason

    constructor () ensures log == [] { log, ready := [], None; }

    method Reconcile(o: Obj, env: Env) returns (write: Option<bool>)
      modifies this
      ensures log == old(log) + ActEvents(o, env)
      ensures write == FinalizerWrite(o)
      ensures write == Some(true) <==> !o.suspended && !o.deleting && !o.finalizer
      ensures write == Some(false) <==> !o.suspended && o.deleting
      ensures !o.suspended && !o.deleting && o.finalizer ==>
                ready.Some? && (ready.value.0 <==> ReachesApply(env) && env.reconciles) && ReadyTells(ready.value, env)
      ensures o.suspended || o.deleting || !o.finalizer ==> ready == old(ready)
    {
      if o.suspended { return None; }
      if o.deleting {
        write := ReconcileDelete(o, env);
        return;
      }
      if !o.finalizer { return Some(true); }
      ReconcileNormal(o, env);
      return None;
    }

    method ReconcileNormal(o: Obj, env: Env)
      requires !o.suspended && !o.deleting && o.finalizer
      modifies this
      ensures log == old(log) + ActEvents(o, env)
      ensures ready.Some? && (ready.value.0 <==> ReachesApply(env) && env.reconciles) && ReadyTells(ready.value, env)
    {
      if !env.connSecrets || !env.clientSecrets || !env.indexerSecrets || !env.importListSecrets || !env.authSecrets {
        ready := Some((false, "SecretResolutionFailed"));
        return;
      }
      if !env.adapterKnown { ready := Some((false, "AdapterNotFound")); return; }
      if !env.discovers { ready := Some((false, "DiscoveryFailed")); return; }
      if !env.compiles { ready := Some((false, "CompilationFailed")); return; }
      log := log + [Applied(o)];
      if !env.reconciles { ready := Some((false, "ReconcileFailed")); return; }
      ready := Some((true, "Ready"));
      log := log + [AppliedDirect];
      if o.registers && o.hasRef { log := log + [Registered]; }
    }

    method ReconcileDelete(o: Obj, env: Env) returns (write: Option<bool>)
      requires !o.suspended && o.deleting
      modifies this`log
      ensures log == old(log) + ActEvents(o, env) && write == Some(false)
    {
      if o.hasRef { log := log + [Unregistered]; }
      if env.connSecrets {
        log := log + [CleanupAttempted];
      } else {
        log := log + [SecretsFailed];
      }
      write := Some(false);
    }
  }

  /** The Ready condition names the first step that failed. */
  ghost predicate ReadyTells(ready: (bool, string), env: Env) {
    var secrets := env.connSecrets && env.clientSecrets && env.indexerSecrets && env.importListSecrets &&
                   env.authSecrets;
    && (!secrets ==> ready == (false, "SecretResolutionFailed"))
    && (secrets && !env.adapterKnown ==> ready == (false, "AdapterNotFound"))
    && (secrets && env.adapterKnown && !env.discovers ==> ready == (false, "DiscoveryFailed"))
    && (secrets && env.adapterKnown && env.discovers && !env.compiles ==> ready == (false, "CompilationFailed"))
    && (secrets && env.adapterKnown && env.discovers && env.compiles ==>
          ready == if env.reconciles then (true, "Ready") else (false, "ReconcileFailed"))
  }

  // ----- Runs -----

  /**
   * All versions the object has had, with None for its absence; the last one is stored. `cached` is the one the
   * controller's cache holds, `inflight` the snapshot its worker acts on and where that is in the history. `clock`
   * is the next version.
   */
  datatype World = World(history: seq<Option<Obj>>, cached: nat, inflight: Option<(Obj, nat)>, clock: nat,
                         log: seq<Event>)

  datatype Label =
    | Create(born: Obj)
    | Edit(suspend: bool, hasRef: bool)
    | Release          // somebody else gives up their finalizer
    | Delete
    | Observe(to: nat) // the cache moves forward, perhaps skipping versions
    | Fetch
    | Act(env: Env)
    | Collect          // the API server removes an object under deletion that has no finalizers left

  function Stored(w: World): Option<Obj> {
    if w.history == [] then None else w.history[|w.history| - 1]
  }

  predicate Enabled(w: World, l: Label) {
    match l
    case Create(o) => Stored(w).None? && !o.finalizer && !o.deleting
    case Edit(_, _) => Stored(w).Some?
    case Release => Stored(w).Some?
    case Delete => Stored(w).Some? && !Stored(w).value.deleting
    case Observe(to) => w.cached < to < |w.history|
    case Fetch => w.cached < |w.history| && w.history[w.cached].Some? && w.inflight.None?
    case Act(_) => w.inflight.Some?
    case Collect => Stored(w).Some? && Stored(w).value.deleting && !Stored(w).value.finalizer && !Stored(w).value.others
  }

  function Emit(w: World, e: Event): World {
    w.(log := w.log + [e])
  }

  function Emits(w: World, events: seq<Event>): World {
    w.(log := w.log + events)
  }

  /** A write to the API server, which gives it the next version. */
  function Store(w: World, obj: Option<Obj>): World {
    w.(history := w.history + [if obj.Some? then Some(obj.value.(version := w.clock)) else None], clock := w.clock + 1)
  }

  function Next(w: World, l: Label): World
    requires Enabled(w, l)
  {
    match l
    case Create(o) => Store(Emit(w, Created), Some(o))
    case Edit(s, r) => Store(w, Some(Stored(w).value.(suspended := s, hasRef := r)))
    case Release => Store(w, Some(Stored(w).value.(others := false)))
    case Delete =>
      var o := Stored(w).value;
      if o.finalizer || o.others then Emit(Store(w, Some(o.(deleting := true))), DeletionStarted(w.clock))
      else Emit(Emit(Store(w, None), DeletionStarted(w.clock)), Gone)
    case Observe(to) => w.(cached := to)
    case Fetch => Emit(w.(inflight := Some((w.history[w.cached].value, w.cached))),
                       Fetched(w.history[w.cached].value.version))
    case Act(env) =>
      var (o, _) := w.inflight.value;
      var acted := Emits(w.(inflight := None), ActEvents(o, env));
      var write := FinalizerWrite(o);
      if write.Some? && env.updates && Stored(w) == Some(o) then
        Emit(Store(acted, Some(o.(finalizer := write.value))), if write.value then FinalizerAdded else FinalizerRemoved)
      else acted
    case Collect => Emit(Store(w, None), Gone)
  }

  predicate IsRun(w: World, labels: seq<Label>)
    decreases |labels|
  {
    labels == [] || (Enabled(w, labels[0]) && IsRun(Next(w, labels[0]), labels[1..]))
  }

  function After(w: World, labels: seq<Label>): World
    requires IsRun(w, labels)
    decreases |labels|
  {
    if labels == [] then w else After(Next(w, labels[0]), labels[1..])
  }

  // ----- What holds of every log -----

  predicate CleansUp(e: Event) {
    e.CleanupAttempted? || e.SecretsFailed?
  }

  /** Desired state is applied only from a snapshot that carried the finalizer and no deletion timestamp. */
  ghost predicate AppliesOnlyGuarded(log: seq<Event>) {
    forall j :: 0 <= j < |log| && log[j].Applied? ==>
        log[j].obj.finalizer && !log[j].obj.deleting && !log[j].obj.suspended
  }

  /** What is applied after deletion has started is a version from before. */
  ghost predicate NoNewApplyAfterDeletion(log: seq<Event>) {
    forall i, j :: 0 <= i < j < |log| && log[j].Applied? && DeletedAt(log[..j], i) ==> log[j].obj.version < log[i].since
  }

  /** Neither a fetch nor an apply goes back behind an earlier fetch. */
  ghost predicate FetchesForward(log: seq<Event>) {
    && (forall i, j :: 0 <= i < j < |log| && log[i].Fetched? && log[j].Fetched? ==> log[i].version <= log[j].version)
    && (forall i, j :: 0 <= i < j < |log| && log[i].Fetched? && log[j].Applied? ==>
          log[i].version <= log[j].obj.version)
  }

  /** The finalizer goes only right after cleanup was attempted, or the secrets for it could not be had. */
  ghost predicate FinalizerGoesAfterCleanup(log: seq<Event>) {
    forall j :: 0 <= j < |log| && log[j].FinalizerRemoved? ==> j > 0 && CleansUp(log[j - 1])
  }

  /** Something was applied to this incarnation of the object and no cleanup has been attempted since. */
  ghost predicate Dirty(log: seq<Event>) {
    exists i :: 0 <= i < |log| && log[i].Applied? && forall k :: i < k < |log| ==> !CleansUp(log[k]) && !log[k].Created?
  }

  /** The object never disappears with applied state left unattended. */
  ghost predicate NeverAbandons(log: seq<Event>) {
    forall j :: 0 <= j < |log| && log[j].Gone? ==> !Dirty(log[..j])
  }

  /** The position of the last deletion not followed by a creation, if any: deletion is under way or done. */
  ghost predicate DeletedAt(log: seq<Event>, i: nat) {
    i < |log| && log[i].DeletionStarted? && forall k :: i < k < |log| ==> !log[k].Created?
  }

  ghost predicate LogOk(log: seq<Event>) {
    AppliesOnlyGuarded(log) && NoNewApplyAfterDeletion(log) && FetchesForward(log) && FinalizerGoesAfterCleanup(log) &&
        NeverAbandons(log)
  }

  /** So once a fetch has seen the deletion, nothing is applied any more until the object is created anew. */
  lemma NothingAppliedOnceSeen(log: seq<Event>, i: nat, k: nat, j: nat)
    requires LogOk(log) && k < j < |log| && i < j && DeletedAt(log[..j], i)
    requires log[k].Fetched? && log[k].version >= log[i].since
    ensures !log[j].Applied?
  {
  }

  // ----- The invariant -----

  /** Versions only grow, and the cache and the snapshot are versions there were. */
  ghost predicate Sane(w: World) {
    && w.cached < |w.history|
    && (forall a :: 0 <= a < |w.history| && w.history[a].Some? ==> w.history[a].value.version < w.clock)
    && (forall a, b :: 0 <= a < b < |w.history| && w.history[a].Some? && w.history[b].Some? ==>
          w.history[a].value.version < w.history[b].value.version)
    && (w.inflight.Some? ==>
          w.inflight.value.1 <= w.cached && w.history[w.inflight.value.1] == Some(w.inflight.value.0))
  }

  /** The oldest version that can still be acted on. */
  function Oldest(w: World): nat {
    if w.inflight.Some? then w.inflight.value.1 else w.cached
  }

  /** A version that the worker, if it sees it, may apply. */
  predicate Appliable(o: Option<Obj>) {
    o.Some? && o.value.finalizer && !o.value.deleting
  }

  predicate HasFinalizer(o: Option<Obj>) { o.Some? && o.value.finalizer }

  /**
   * As long as some version still to be seen may be applied, or something applied is unattended, the stored object
   * is kept by the finalizer.
   */
  ghost predicate Held(w: World) {
    && (Dirty(w.log) ==> HasFinalizer(Stored(w)))
    && (forall k :: Oldest(w) <= k < |w.history| && Appliable(w.history[k]) ==> HasFinalizer(Stored(w)))
  }

  predicate Since(o: Option<Obj>, version: nat) { o.Some? && o.value.version >= version }

  /** Versions since a deletion are under deletion, and while one is under way so is the stored object. */
  ghost predicate DeletionSticks(w: World) {
    && (forall i: nat, k :: DeletedAt(w.log, i) && 0 <= k < |w.history| && Since(w.history[k], w.log[i].since) ==>
          w.history[k].value.deleting)
    && (Stored(w).Some? && !Stored(w).value.deleting ==> forall i: nat :: !DeletedAt(w.log, i))
  }

  /** What was fetched is not newer than what can still be acted on. */
  ghost predicate FetchedIsOld(w: World) {
    forall j :: 0 <= j < |w.log| && w.log[j].Fetched? ==>
      w.log[j].version < w.clock
      && forall k :: Oldest(w) <= k < |w.history| && w.history[k].Some? ==>
          w.log[j].version <= w.history[k].value.version
  }

  ghost predicate Inv(w: World) {
    LogOk(w.log) && Sane(w) && Held(w) && DeletionSticks(w) && FetchedIsOld(w)
  }

  /** What appending one event needs for the log to stay as it should be. */
  ghost predicate EventOk(log: seq<Event>, e: Event) {
    && (e.Applied? ==>
          && e.obj.finalizer && !e.obj.deleting && !e.obj.suspended
          && (forall i: nat :: DeletedAt(log, i) ==> e.obj.version < log[i].since)
          && (forall j :: 0 <= j < |log| && log[j].Fetched? ==> log[j].version <= e.obj.version))
    && (e.Fetched? ==> forall j :: 0 <= j < |log| && log[j].Fetched? ==> log[j].version <= e.version)
    && (e.FinalizerRemoved? ==> |log| > 0 && CleansUp(log[|log| - 1]))
    && (e.Gone? ==> !Dirty(log))
  }

  lemma AppendEvent(log: seq<Event>, e: Event)
    requires LogOk(log) && EventOk(log, e)
    ensures LogOk(log + [e])
  {
    var longer := log + [e];
    forall j | 0 <= j < |longer| ensures longer[..j] == log[..j] && log[..|log|] == log {}
  }

  lemma AppendDirty(log: seq<Event>, e: Event)
    ensures Dirty(log + [e]) <==> e.Applied? || (Dirty(log) && !CleansUp(e) && !e.Created?)
  {
    var longer := log + [e];
    if e.Applied? { assert longer[|log|] == e; }
    if Dirty(longer) && !e.Applied? {
      var i :| 0 <= i < |longer| && longer[i].Applied? && forall k :: i < k < |longer| ==>
          !CleansUp(longer[k]) && !longer[k].Created?;
      assert log[i].Applied? && longer[|log|] == e;
      forall k | i < k < |log| ensures !CleansUp(log[k]) && !log[k].Created? { assert longer[k] == log[k]; }
    }
    if Dirty(log) && !CleansUp(e) && !e.Created? {
      var i :| 0 <= i < |log| && log[i].Applied? && forall k :: i < k < |log| ==> !CleansUp(log[k]) && !log[k].Created?;
      assert longer[i].Applied?;
    }
  }

  lemma AppendDeleted(log: seq<Event>, e: Event, i: nat)
    ensures DeletedAt(log + [e], i) <==> (DeletedAt(log, i) && !e.Created?) || (i == |log| && e.DeletionStarted?)
  {
    var longer := log + [e];
    assert longer[|log|] == e;
    if DeletedAt(longer, i) && i < |log| {
      forall k | i < k < |log| ensures !log[k].Created? { assert longer[k] == log[k]; }
    }
  }

  /** What an event needs of the world to keep the invariant. */
  ghost predicate EmitOk(w: World, e: Event) {
    && EventOk(w.log, e)
    && (e.Applied? ==> HasFinalizer(Stored(w)))
    && (e.DeletionStarted? ==>
          && (Stored(w).Some? ==> Stored(w).value.deleting)
          && forall k :: 0 <= k < |w.history| && w.history[k].Some? && w.history[k].value.version >= e.since ==>
              w.history[k].value.deleting)
    && (e.Fetched? ==>
          && e.version < w.clock
          && forall k :: Oldest(w) <= k < |w.history| && w.history[k].Some? ==> e.version <= w.history[k].value.version)
  }

  lemma EmitKeepsDeletions(w: World, e: Event)
    requires DeletionSticks(w) && EmitOk(w, e)
    ensures DeletionSticks(Emit(w, e))
  {
    forall i: nat ensures DeletedAt(w.log + [e], i) <==>
        (DeletedAt(w.log, i) && !e.Created?) || (i == |w.log| && e.DeletionStarted?) {
      AppendDeleted(w.log, e, i);
    }
    forall i: nat, k | DeletedAt(w.log + [e], i) && 0 <= k < |w.history| && w.history[k].Some? &&
        w.history[k].value.version >= (w.log + [e])[i].since
      ensures w.history[k].value.deleting
    {
      assert i < |w.log| ==> (w.log + [e])[i] == w.log[i];
    }
  }

  lemma EmitKeepsFetches(w: World, e: Event)
    requires FetchedIsOld(w) && EmitOk(w, e)
    ensures FetchedIsOld(Emit(w, e))
  {
    forall j | 0 <= j < |w.log| ensures (w.log + [e])[j] == w.log[j] {}
  }

  lemma EmitKeeps(w: World, e: Event)
    requires Inv(w) && EmitOk(w, e)
    ensures Inv(Emit(w, e))
  {
    AppendEvent(w.log, e);
    AppendDirty(w.log, e);
    EmitKeepsDeletions(w, e);
    EmitKeepsFetches(w, e);
  }

  /** Events that need nothing. */
  predicate Quiet(e: Event) {
    || e.Created? || e.FinalizerAdded? || e.SecretsFailed? || e.CleanupAttempted?
    || e.Unregistered? || e.AppliedDirect? || e.Registered?
  }

  lemma QuietKeeps(w: World, e: Event)
    requires Inv(w) && Quiet(e)
    ensures Inv(Emit(w, e))
  {
    EmitKeeps(w, e);
  }

  /** The object goes, once nothing needs its finalizer. */
  lemma GoneKeeps(w: World)
    requires Inv(w) && Stored(w).None?
    ensures Inv(Emit(w, Gone))
  {
    EmitKeeps(w, Gone);
  }

  /** What a write needs: it keeps the finalizer while that is needed, and the deletion mark for good. */
  ghost predicate StoreOk(w: World, obj: Option<Obj>) {
    && (Dirty(w.log) || (exists k :: Oldest(w) <= k < |w.history| && Appliable(w.history[k])) ==> HasFinalizer(obj))
    && (obj.Some? && !obj.value.deleting ==> forall i: nat :: !DeletedAt(w.log, i))
  }

  lemma StoreKeepsHistory(w: World, obj: Option<Obj>)
    requires Sane(w) && FetchedIsOld(w)
    ensures Sane(Store(w, obj)) && FetchedIsOld(Store(w, obj))
  {
    var w' := Store(w, obj);
    forall k | 0 <= k < |w.history| ensures w'.history[k] == w.history[k] {}
  }

  lemma StoreKeepsHeld(w: World, obj: Option<Obj>)
    requires Sane(w) && Held(w) && StoreOk(w, obj)
    ensures Held(Store(w, obj))
  {
    var w' := Store(w, obj);
    forall k | 0 <= k < |w.history| ensures w'.history[k] == w.history[k] {}
  }

  lemma StoreKeepsDeletions(w: World, obj: Option<Obj>)
    requires DeletionSticks(w) && StoreOk(w, obj)
    ensures DeletionSticks(Store(w, obj))
  {
    var w' := Store(w, obj);
    forall i: nat, k | DeletedAt(w'.log, i) && 0 <= k < |w'.history| && w'.history[k].Some? &&
        w'.history[k].value.version >= w'.log[i].since
      ensures w'.history[k].value.deleting
    {
      assert k < |w.history| ==> w'.history[k] == w.history[k];
    }
  }

  lemma StoreKeeps(w: World, obj: Option<Obj>)
    requires Inv(w) && StoreOk(w, obj)
    ensures Inv(Store(w, obj))
    ensures Stored(Store(w, obj)) == if obj.Some? then Some(obj.value.(version := w.clock)) else None
  {
    StoreKeepsHistory(w, obj);
    StoreKeepsHeld(w, obj);
    StoreKeepsDeletions(w, obj);
  }

  /** A write that changes neither finalizer nor deletion mark. */
  lemma TouchKeeps(w: World, o: Obj)
    requires Inv(w) && Stored(w).Some? && o.finalizer == Stored(w).value.finalizer
    requires o.deleting == Stored(w).value.deleting
    ensures Inv(Store(w, Some(o)))
  {
    StoreKeeps(w, Some(o));
  }

  lemma StepKeepsInv(w: World, l: Label)
    requires Inv(w) && Enabled(w, l)
    ensures Inv(Next(w, l))
  {
    match l
    case Create(o) => CreateKeepsInv(w, o);
    case Edit(s, r) => TouchKeeps(w, Stored(w).value.(suspended := s, hasRef := r));
    case Release => TouchKeeps(w, Stored(w).value.(others := false));
    case Delete => DeleteKeepsInv(w);
    case Observe(to) => ObserveKeepsInv(w, to);
    case Fetch => FetchKeepsInv(w);
    case Act(env) => ActKeepsInv(w, env);
    case Collect =>
      StoreKeeps(w, None);
      GoneKeeps(Store(w, None));
  }

  lemma CreateKeepsInv(w: World, o: Obj)
    requires Inv(w) && Enabled(w, Create(o))
    ensures Inv(Next(w, Create(o)))
  {
    QuietKeeps(w, Created);
    NoDeletionSinceCreation(w.log);
    AppendDirty(w.log, Created);
    StoreKeeps(Emit(w, Created), Some(o));
  }

  lemma ObserveKeepsInv(w: World, to: nat)
    requires Inv(w) && w.cached < to < |w.history|
    ensures Inv(w.(cached := to))
  {
  }

  lemma NoDeletionSinceCreation(log: seq<Event>)
    ensures forall i: nat :: !DeletedAt(log + [Created], i)
  {
    forall i: nat ensures !DeletedAt(log + [Created], i) { AppendDeleted(log, Created, i); }
  }

  /** The worker takes up what the cache holds. */
  lemma TakeUpKeeps(w: World)
    requires Inv(w) && w.inflight.None? && w.history[w.cached].Some?
    ensures Inv(w.(inflight := Some((w.history[w.cached].value, w.cached))))
  {
  }

  lemma FetchedKeeps(w: World)
    requires Inv(w) && w.inflight.Some?
    ensures Inv(Emit(w, Fetched(w.inflight.value.0.version)))
  {
    var (o, at) := w.inflight.value;
    forall k | at < k < |w.history| && w.history[k].Some? ensures o.version <= w.history[k].value.version {}
    EmitKeeps(w, Fetched(o.version));
  }

  lemma FetchKeepsInv(w: World)
    requires Inv(w) && Enabled(w, Fetch)
    ensures Inv(Next(w, Fetch))
  {
    TakeUpKeeps(w);
    FetchedKeeps(w.(inflight := Some((w.history[w.cached].value, w.cached))));
  }

  /** The mark itself: what is stored now is under deletion, or gone, and no older version counts as since. */
  lemma DeletionStartedKeeps(w: World, v: nat)
    requires Inv(w) && (Stored(w).Some? ==> Stored(w).value.deleting)
    requires forall k :: 0 <= k < |w.history| - 1 && w.history[k].Some? ==> w.history[k].value.version < v
    ensures Inv(Emit(w, DeletionStarted(v)))
  {
    EmitKeeps(w, DeletionStarted(v));
  }

  lemma DeleteKeepsInv(w: World)
    requires Inv(w) && Enabled(w, Delete)
    ensures Inv(Next(w, Delete))
  {
    var o := Stored(w).value;
    var obj := if o.finalizer || o.others then Some(o.(deleting := true)) else None;
    StoreKeeps(w, obj);
    StoredSince(w, obj);
    DeletionStartedKeeps(Store(w, obj), w.clock);
    if obj.None? { GoneKeeps(Emit(Store(w, None), DeletionStarted(w.clock))); }
  }

  /** All versions but the one just written are older. */
  lemma StoredSince(w: World, obj: Option<Obj>)
    requires Sane(w)
    ensures var w' := Store(w, obj);
            forall k :: 0 <= k < |w'.history| - 1 && w'.history[k].Some? ==> w'.history[k].value.version < w.clock
  {
    var w' := Store(w, obj);
    forall k | 0 <= k < |w.history| ensures w'.history[k] == w.history[k] {}
  }

  lemma ActKeepsInv(w: World, env: Env)
    requires Inv(w) && w.inflight.Some?
    ensures Inv(Next(w, Act(env)))
  {
    var (o, at) := w.inflight.value;
    var idle := w.(inflight := None);
    IdleKeepsInv(w);
    if o.suspended {
      assert Emits(idle, ActEvents(o, env)) == idle;
    } else if o.deleting {
      ActOnDeletion(w, env);
    } else if !o.finalizer {
      assert Emits(idle, ActEvents(o, env)) == idle;
      if env.updates && Stored(w) == Some(o) {
        StoreKeeps(idle, Some(o.(finalizer := true)));
        QuietKeeps(Store(idle, Some(o.(finalizer := true))), FinalizerAdded);
      }
    } else {
      ActNormally(w, env);
    }
  }

  lemma IdleKeepsInv(w: World)
    requires Inv(w)
    ensures Inv(w.(inflight := None))
  {
  }

  /** A write succeeds only for the newest version, and then the cache is not behind either. */
  lemma NewestSeen(w: World)
    requires Inv(w) && w.inflight.Some? && Stored(w) == Some(w.inflight.value.0)
    ensures w.inflight.value.1 == w.cached == |w.history| - 1
  {
  }

  /** Right after a cleanup attempt, with the newest version at hand, the finalizer may go. */
  lemma FinalizerRemovedKeeps(w: World, o: Obj, e: Event)
    requires Inv(w) && Inv(Emit(w, e)) && CleansUp(e)
    requires w.inflight.None? && w.cached == |w.history| - 1 && Stored(w) == Some(o) && o.deleting
    ensures Inv(Emit(Store(Emit(w, e), Some(o.(finalizer := false))), FinalizerRemoved))
  {
    var w1 := Emit(w, e);
    AppendDirty(w.log, e);
    StoreKeeps(w1, Some(o.(finalizer := false)));
    EmitKeeps(Store(w1, Some(o.(finalizer := false))), FinalizerRemoved);
  }

  /** The log of a deletion step: perhaps an attempt to unregister, then `e`. */
  function AfterUnregistering(w: World, o: Obj): World {
    if o.hasRef then Emit(w, Unregistered) else w
  }

  lemma DeletionEvents(w: World, o: Obj, env: Env)
    requires o.deleting && !o.suspended
    ensures Emits(w, ActEvents(o, env)) == Emit(AfterUnregistering(w, o), if env.connSecrets then CleanupAttempted
                                                else SecretsFailed)
  {
  }

  lemma DeletionStep(w: World, env: Env, e: Event)
    requires w.inflight.Some? && w.inflight.value.0.deleting && !w.inflight.value.0.suspended
    requires e == if env.connSecrets then CleanupAttempted else SecretsFailed
    ensures var o := w.inflight.value.0;
            var acted := Emit(AfterUnregistering(w.(inflight := None), o), e);
            Next(w, Act(env)) ==
            if env.updates && Stored(w) == Some(o) then Emit(Store(acted, Some(o.(finalizer := false))),
                                                             FinalizerRemoved) else acted
  {
    DeletionEvents(w.(inflight := None), w.inflight.value.0, env);
  }

  lemma UnregisteringKeeps(w: World, o: Obj, e: Event)
    requires Inv(w) && CleansUp(e)
    ensures Inv(AfterUnregistering(w, o)) && Inv(Emit(AfterUnregistering(w, o), e))
    ensures AfterUnregistering(w, o) == w.(log := AfterUnregistering(w, o).log)
    ensures Stored(AfterUnregistering(w, o)) == Stored(w)
  {
    QuietKeeps(w, Unregistered);
    QuietKeeps(AfterUnregistering(w, o), e);
  }

  lemma RemovalKeeps(w: World, o: Obj, e: Event)
    requires Inv(w) && w.inflight.None? && w.cached == |w.history| - 1 && Stored(w) == Some(o) && o.deleting
    requires CleansUp(e)
    ensures Inv(Emit(Store(Emit(AfterUnregistering(w, o), e), Some(o.(finalizer := false))), FinalizerRemoved))
  {
    UnregisteringKeeps(w, o, e);
    FinalizerRemovedKeeps(AfterUnregistering(w, o), o, e);
  }

  lemma ActOnDeletion(w: World, env: Env)
    requires Inv(w) && Inv(w.(inflight := None)) && w.inflight.Some? && w.inflight.value.0.deleting
    requires !w.inflight.value.0.suspended
    ensures Inv(Next(w, Act(env)))
  {
    var o, idle := w.inflight.value.0, w.(inflight := None);
    var e := if env.connSecrets then CleanupAttempted else SecretsFailed;
    DeletionStep(w, env, e);
    UnregisteringKeeps(idle, o, e);
    if env.updates && Stored(w) == Some(o) {
      NewestSeen(w);
      RemovalKeeps(idle, o, e);
    }
  }

  /** The snapshot may be applied although the object has changed since. */
  lemma AppliedKeeps(w: World)
    requires Inv(w) && Inv(w.(inflight := None)) && w.inflight.Some?
    requires var o := w.inflight.value.0; o.finalizer && !o.deleting && !o.suspended
    ensures Inv(Emit(w.(inflight := None), Applied(w.inflight.value.0)))
  {
    assert Appliable(w.history[w.inflight.value.1]);
    EmitKeeps(w.(inflight := None), Applied(w.inflight.value.0));
  }

  lemma NormalEvents(w: World, o: Obj, env: Env)
    requires o.finalizer && !o.deleting && !o.suspended
    ensures Emits(w, ActEvents(o, env)) ==
            if !ReachesApply(env) then w
            else if !env.reconciles then Emit(w, Applied(o))
            else if o.registers && o.hasRef then Emit(Emit(Emit(w, Applied(o)), AppliedDirect), Registered)
            else Emit(Emit(w, Applied(o)), AppliedDirect)
  {
  }

  lemma ActNormally(w: World, env: Env)
    requires Inv(w) && Inv(w.(inflight := None)) && w.inflight.Some?
    requires var o := w.inflight.value.0; o.finalizer && !o.deleting && !o.suspended
    ensures Inv(Next(w, Act(env)))
  {
    var o, idle := w.inflight.value.0, w.(inflight := None);
    NormalEvents(idle, o, env);
    AppliedKeeps(w);
    DirectAndRegisteredKeep(Emit(idle, Applied(o)));
  }

  lemma DirectAndRegisteredKeep(w: World)
    requires Inv(w)
    ensures Inv(Emit(w, AppliedDirect)) && Inv(Emit(Emit(w, AppliedDirect), Registered))
  {
    QuietKeeps(w, AppliedDirect);
    QuietKeeps(Emit(w, AppliedDirect), Registered);
  }

  /**
   * Over every run from an empty cluster, however far the cache lags: applies are guarded, none is of a version under
   * deletion, the finalizer outlives the cleanup attempt, and the object never goes with state applied to it left
   * unattended.
   */
  lemma {:induction false} EveryRunIsSafe(w: World, labels: seq<Label>)
    requires Inv(w) && IsRun(w, labels)
    ensures Inv(After(w, labels))
    decreases |labels|
  {
    if labels != [] {
      StepKeepsInv(w, labels[0]);
      EveryRunIsSafe(Next(w, labels[0]), labels[1..]);
    }
  }

  lemma EmptyClusterInv()
    ensures Inv(World([None], 0, None, 0, []))
  {
  }

  // ----- Progress -----

  /** An object that is neither suspended nor under deletion gets its finalizer as soon as an update succeeds. */
  lemma FinalizerIsAdded(w: World, env: Env)
    requires w.inflight.Some? && Stored(w) == Some(w.inflight.value.0) && env.updates
    requires var o := w.inflight.value.0; !o.suspended && !o.deleting && !o.finalizer
    ensures var w' := Next(w, Act(env));
            && Stored(w') == Some(w.inflight.value.0.(finalizer := true, version := w.clock))
            && w'.log == w.log + [FinalizerAdded] && w'.inflight.None?
  {
  }

  /**
   * An object that carries the finalizer and is neither suspended nor under deletion is applied, in its newest version,
   * by fetching it and acting, exactly if everything before the apply goes through.
   */
  lemma NewestIsApplied(w: World, env: Env)
    requires w.cached == |w.history| - 1 && w.inflight.None?
    requires Stored(w).Some? && Stored(w).value.finalizer && !Stored(w).value.suspended && !Stored(w).value.deleting
    ensures IsRun(w, [Fetch, Act(env)])
    ensures var o, w' := Stored(w).value, After(w, [Fetch, Act(env)]);
            && Stored(w') == Stored(w) && w'.inflight.None? && |w'.log| > |w.log| && w'.log[..|w.log|] == w.log
            && (Applied(o) in w'.log[|w.log|..] <==>
                  && env.connSecrets && env.clientSecrets && env.indexerSecrets && env.importListSecrets
                  && env.authSecrets && env.adapterKnown && env.discovers && env.compiles)
  {
    var o := Stored(w).value;
    var w1 := Next(w, Fetch);
    var w2 := Next(w1, Act(env));
    assert [Fetch, Act(env)][1..] == [Act(env)] && [Act(env)][1..] == [];
    assert After(w1, [Act(env)]) == w2;
    assert w2.log == w.log + ([Fetched(o.version)] + ActEvents(o, env));
    ActFlagByFlag(o, env);
    assert w2.log[|w.log|..] == [Fetched(o.version)] + ActEvents(o, env);
  }

  /**
   * So a new object, once an update of it has succeeded and the cache has caught up, is applied exactly if everything
   * before the apply goes through: after the steps act, observe, fetch and act.
   */
  lemma NewObjectIsApplied(w: World, env: Env, env': Env)
    requires w.inflight.Some? && w.cached < |w.history| && Stored(w) == Some(w.inflight.value.0) && env.updates
    requires var o := w.inflight.value.0; !o.suspended && !o.deleting && !o.finalizer
    ensures IsRun(w, [Act(env), Observe(|w.history|), Fetch, Act(env')])
    ensures var o := w.inflight.value.0.(finalizer := true, version := w.clock);
            var w' := After(w, [Act(env), Observe(|w.history|), Fetch, Act(env')]);
            && Stored(w') == Some(o) && |w'.log| > |w.log| && w'.log[|w.log|] == FinalizerAdded
            && (Applied(o) in w'.log[|w.log|..] <==>
                  && env'.connSecrets && env'.clientSecrets && env'.indexerSecrets && env'.importListSecrets
                  && env'.authSecrets && env'.adapterKnown && env'.discovers && env'.compiles)
  {
    var labels := [Act(env), Observe(|w.history|), Fetch, Act(env')];
    FinalizerIsAdded(w, env);
    var w1 := Next(w, Act(env));
    var w2 := Next(w1, Observe(|w.history|));
    NewestIsApplied(w2, env');
    TwoThenRest(w, Act(env), Observe(|w.history|), [Fetch, Act(env')]);
    assert labels == [Act(env), Observe(|w.history|)] + [Fetch, Act(env')];
    AfterOneMore(w.log, FinalizerAdded, After(w, labels).log);
  }

  lemma TwoThenRest(w: World, a: Label, b: Label, rest: seq<Label>)
    requires Enabled(w, a) && Enabled(Next(w, a), b) && IsRun(Next(Next(w, a), b), rest)
    ensures IsRun(w, [a, b] + rest) && After(w, [a, b] + rest) == After(Next(Next(w, a), b), rest)
  {
    assert ([a, b] + rest)[1..] == [b] + rest && ([b] + rest)[1..] == rest;
  }

  lemma AfterOneMore(log: seq<Event>, e: Event, longer: seq<Event>)
    requires |longer| > |log| && longer[..|log| + 1] == log + [e]
    ensures longer[|log|] == e && longer[|log|..] == [e] + longer[|log| + 1..]
  {
    assert longer[|log|] == longer[..|log| + 1][|log|];
  }

  /**
   * A deletion step that is not suspended gives the finalizer up whenever its update succeeds, whatever failed
   * before.
   */
  lemma DeletionCompletes(w: World, env: Env)
    requires w.inflight.Some? && Stored(w) == Some(w.inflight.value.0) && w.inflight.value.0.deleting && env.updates
    ensures var w' := Next(w, Act(env));
            if w.inflight.value.0.suspended then Stored(w') == Stored(w) && w'.log == w.log
            else
              && Stored(w').Some? && !Stored(w').value.finalizer
              && |w'.log| > |w.log| && w'.log[|w'.log| - 1].FinalizerRemoved?
              && (CleanupAttempted in w'.log[|w.log|..] <==> env.connSecrets)
              && (Unregistered in w'.log[|w.log|..] <==> w.inflight.value.0.hasRef)
  {
    var o, w' := w.inflight.value.0, Next(w, Act(env));
    ActFlagByFlag(o, env);
    if !o.suspended { assert w'.log[|w.log|..] == ActEvents(o, env) + [FinalizerRemoved]; }
  }

  /**
   * The object is then collected as soon as nobody else holds it: a foreign finalizer that is released does not
   * keep it.
   */
  lemma ReleasedIsCollected(w: World)
    requires Stored(w).Some? && Stored(w).value.deleting && !Stored(w).value.finalizer
    ensures IsRun(w, [Release, Collect]) && Stored(After(w, [Release, Collect])).None?
  {
    var w1 := Next(w, Release);
    assert [Release, Collect][1..] == [Collect] && [Collect][1..] == [];
    assert Enabled(w1, Collect);
    assert After(w1, [Collect]) == Next(w1, Collect);
  }
}

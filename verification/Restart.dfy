/**
 * Restarting the download stack when the environment of its VPN container changes. The hash of
 * the environment last seen is kept in the status of the config, which is written at every exit,
 * and the pod template of the Deployment is annotated with the hash it was restarted for.
 */
module Restart {
  import opened Common
  import opened Env
  import Gluetun

  /**
   * What one reconcile meets: `hash` is that of the environment it generates, `clients` says of each of the
   * possible download clients whether it is configured and, if so, whether configuring it succeeds.
   */
  datatype Event = Event(credentials: bool, hash: string, secretWritten: bool, enabled: bool, deploymentUpdated: bool,
                         clients: seq<Option<bool>>, statusWritten: bool)

  /** `persisted` is the hash in the stored status, `annotated` the one the running pods were started for. */
  datatype State = State(persisted: string, annotated: string, attempts: nat)

  datatype Exit = Credentials | Secret | NoClient | ClientFailed | StatusFailed | Reconciled

  /** The event gets as far as comparing hashes. */
  predicate Reaches(e: Event) { e.credentials && e.secretWritten }

  predicate Attempts(s: State, e: Event) {
    Reaches(e) && e.enabled && e.hash != s.persisted
  }

  /** The only thing the clients and the exit taken decide is the error reported. */
  function Next(s: State, e: Event): State {
    State(if Reaches(e) && e.statusWritten then e.hash else s.persisted,
          if Attempts(s, e) && e.deploymentUpdated then e.hash else s.annotated,
          if Attempts(s, e) then s.attempts + 1 else s.attempts)
  }

  class Reconciler {
    var persisted: string
    var annotated: string
    var attempts: nat

    constructor (persisted: string, annotated: string)
      ensures Value() == State(persisted, annotated, 0)
    {
      this.persisted, this.annotated, this.attempts := persisted, annotated, 0;
    }

    ghost function Value(): State reads this { State(persisted, annotated, attempts) }

    /** The status in memory replaces the stored one, if the write succeeds. */
    method UpdateStatus(hash: string, ok: bool)
      modifies this`persisted
      ensures persisted == if ok then hash else old(persisted)
    {
      if ok { persisted := hash; }
    }

    method RestartDeployment(hash: string, ok: bool)
      modifies this`annotated, this`attempts
      ensures attempts == old(attempts) + 1 && annotated == if ok then hash else old(annotated)
    {
      attempts := attempts + 1;
      if ok { annotated := hash; }
    }

    method ReconcileNormal(e: Event) returns (exit: Exit)
      modifies this
      ensures Value() == Next(old(Value()), e)
      ensures persisted == if e.credentials && e.secretWritten && e.statusWritten then e.hash else old(persisted)
      ensures var due := e.credentials && e.secretWritten && e.enabled && e.hash != old(persisted);
              && attempts == old(attempts) + (if due then 1 else 0)
              && annotated == if due && e.deploymentUpdated then e.hash else old(annotated)
      ensures (exit == Credentials <==> !e.credentials) && (exit == Secret <==> e.credentials && !e.secretWritten)
      ensures exit == NoClient <==> Reaches(e) && Some(true) !in e.clients && Some(false) !in e.clients
      ensures exit == ClientFailed <==> Reaches(e) && Some(false) in e.clients
      ensures exit == Reconciled <==>
                Reaches(e) && Some(true) in e.clients && Some(false) !in e.clients && e.statusWritten
    {
      var status := persisted;
      if !e.credentials {
        UpdateStatus(status, e.statusWritten);
        return Credentials;
      }
      if !e.secretWritten {
        UpdateStatus(status, e.statusWritten);
        return Secret;
      }
      var configChanged := e.hash != status;
      status := e.hash;
      if configChanged && e.enabled {
        RestartDeployment(status, e.deploymentUpdated);
      }
      var any := false;
      for i := 0 to |e.clients|
        invariant any <==> Some(true) in e.clients[..i] || Some(false) in e.clients[..i]
      {
        assert e.clients[..i + 1] == e.clients[..i] + [e.clients[i]];
        if e.clients[i].Some? {
          if e.clients[i].value { assert e.clients[i] == Some(true); } else { assert e.clients[i] == Some(false); }
          any := true;
        }
      }
      assert e.clients[..|e.clients|] == e.clients;
      if !any {
        UpdateStatus(status, e.statusWritten);
        return NoClient;
      }
      for i := 0 to |e.clients|
        invariant Some(false) !in e.clients[..i]
        invariant persisted == old(persisted) && annotated == Next(old(Value()), e).annotated
        invariant attempts == Next(old(Value()), e).attempts
      {
        if e.clients[i] == Some(false) {
          UpdateStatus(status, e.statusWritten);
          return ClientFailed;
        }
      }
      assert e.clients[..|e.clients|] == e.clients;
      UpdateStatus(status, e.statusWritten);
      exit := if e.statusWritten then Reconciled else StatusFailed;
    }
  }

  // ----- Runs -----

  function Run(s: State, events: seq<Event>): State
    decreases |events|
  {
    if events == [] then s else Run(Next(s, events[0]), events[1..])
  }

  /** The hashes that reconciles got to compare, in order. */
  function Seen(events: seq<Event>): seq<string> {
    if events == [] then [] else (if Reaches(events[0]) then [events[0].hash] else []) + Seen(events[1..])
  }

  /** How often a sequence of values differs from the one before, starting at `from`. */
  function Changes(from: string, values: seq<string>): nat
    decreases values
  {
    if values == [] then 0 else (if values[0] != from then 1 else 0) + Changes(values[0], values[1..])
  }

  function LastOf(from: string, values: seq<string>): string {
    if values == [] then from else values[|values| - 1]
  }

  ghost predicate StatusKept(events: seq<Event>) {
    forall i :: 0 <= i < |events| && Reaches(events[i]) ==> events[i].statusWritten
  }

  ghost predicate Enabled(events: seq<Event>) {
    forall i :: 0 <= i < |events| && Reaches(events[i]) ==> events[i].enabled
  }

  ghost predicate DeploymentReached(events: seq<Event>) {
    forall i :: 0 <= i < |events| && Reaches(events[i]) ==> events[i].deploymentUpdated
  }

  /** Every change is met with exactly one attempt to restart, however reconciles end before or after comparing. */
  lemma {:induction false} AttemptsAreChanges(s: State, events: seq<Event>)
    requires StatusKept(events) && Enabled(events)
    ensures Run(s, events).attempts == s.attempts + Changes(s.persisted, Seen(events))
    ensures Run(s, events).persisted == LastOf(s.persisted, Seen(events))
    decreases |events|
  {
    if events != [] {
      var e, rest := events[0], events[1..];
      assert forall i :: 0 <= i < |rest| ==> rest[i] == events[i + 1];
      AttemptsAreChanges(Next(s, e), rest);
      if Reaches(e) {
        assert Seen(events) == [e.hash] + Seen(rest);
      } else {
        assert Seen(events) == Seen(rest);
      }
    }
  }

  /** If moreover no attempt fails, what runs is always what was last generated. */
  lemma {:induction false} RunningIsCurrent(s: State, events: seq<Event>)
    requires StatusKept(events) && Enabled(events) && DeploymentReached(events) && s.annotated == s.persisted
    ensures Run(s, events).annotated == Run(s, events).persisted == LastOf(s.persisted, Seen(events))
    decreases |events|
  {
    AttemptsAreChanges(s, events);
    if events != [] {
      var rest := events[1..];
      assert forall i :: 0 <= i < |rest| ==> rest[i] == events[i + 1];
      RunningIsCurrent(Next(s, events[0]), rest);
      AttemptsAreChanges(Next(s, events[0]), rest);
    }
  }

  /** One reconcile leaves running what it generated exactly if no restart was due or the restart was made. */
  lemma InSyncIff(s: State, e: Event)
    requires Reaches(e) && e.statusWritten
    ensures Next(s, e).annotated == Next(s, e).persisted <==>
              s.annotated == e.hash || (e.hash != s.persisted && e.enabled && e.deploymentUpdated)
  {
  }

  /**
   * As long as the stored hash is met again nothing is restarted, whatever fails: so a restart that failed, or was
   * switched off when it was due, is never made up for.
   */
  lemma {:induction false} NothingNewNothingRestarted(s: State, events: seq<Event>)
    requires forall h :: h in Seen(events) ==> h == s.persisted
    ensures Run(s, events) == s
    decreases |events|
  {
    if events != [] {
      var e, rest := events[0], events[1..];
      assert Seen(events) == (if Reaches(e) then [e.hash] else []) + Seen(rest);
      assert Reaches(e) ==> e.hash in Seen(events);
      assert Next(s, e) == s;
      forall h | h in Seen(rest) ensures h == s.persisted {
        assert h in Seen(events);
      }
      NothingNewNothingRestarted(s, rest);
    }
  }

  /**
   * An environment that stays the same is printed the same, whatever order its map is walked in, so it never
   * restarts.
   */
  lemma SameEnvironmentNeverRestarts(s: State, events: seq<Event>, env: Env, hash: string -> string)
    requires exists text :: IsText(env, text) && s.persisted == hash(text)
    requires forall h :: h in Seen(events) ==> exists text :: IsText(env, text) && h == hash(text)
    ensures Run(s, events) == s
  {
    var was :| IsText(env, was) && s.persisted == hash(was);
    forall h | h in Seen(events) ensures h == s.persisted {
      var text :| IsText(env, text) && h == hash(text);
      TextIsUnique(env, text, was);
    }
    NothingNewNothingRestarted(s, events);
  }

  /** How a status write that is lost throws the count out, depending on the hash that is compared next. */
  function Surplus(persisted: string, lost: string, later: seq<string>): int {
    if lost == persisted || later == [] then 0
    else if later[0] == lost then 1        // the change is met with a second attempt
    else if later[0] == persisted then -1  // the attempt made for it is never undone
    else 0
  }

  /**
   * One lost status write in a run that keeps the others: attempts equal changes if and only if there is no
   * surplus.
   */
  lemma LostStatusWrite(s: State, lost: Event, rest: seq<Event>)
    requires Reaches(lost) && !lost.statusWritten && lost.enabled && StatusKept(rest) && Enabled(rest)
    ensures Seen([lost] + rest) == [lost.hash] + Seen(rest)
    ensures Run(s, [lost] + rest).attempts - s.attempts ==
            Changes(s.persisted, Seen([lost] + rest)) + Surplus(s.persisted, lost.hash, Seen(rest))
  {
    var events := [lost] + rest;
    assert events[1..] == rest;
    AttemptsAreChanges(Next(s, lost), rest);
    assert ([lost.hash] + Seen(rest))[1..] == Seen(rest);
  }

  // ----- In terms of the variables -----

  ghost predicate SameValues(i: Gluetun.Input, j: Gluetun.Input) {
    forall v :: Gluetun.Value(i, v) == Gluetun.Value(j, v)
  }

  /** How often the value of some variable differs from the input before, starting at `from`. */
  ghost function ValueChanges(from: Gluetun.Input, inputs: seq<Gluetun.Input>): nat
    decreases inputs
  {
    if inputs == [] then 0 else (if SameValues(inputs[0], from) then 0 else 1) + ValueChanges(inputs[0], inputs[1..])
  }

  /** `x` is the hash of the text of `i`. */
  ghost predicate IsHashOf(hash: string -> string, i: Gluetun.Input, x: string) {
    exists text :: Gluetun.IsTextOf(i, text) && x == hash(text)
  }

  ghost predicate AllHashes(hash: string -> string, inputs: seq<Gluetun.Input>, xs: seq<string>) {
    |xs| == |inputs| && forall k :: 0 <= k < |xs| ==> IsHashOf(hash, inputs[k], xs[k])
  }

  /** No two of these inputs have different texts with one hash. */
  ghost predicate CollisionFree(hash: string -> string, inputs: seq<Gluetun.Input>) {
    forall i, j, t, u :: i in inputs && j in inputs && Gluetun.IsTextOf(i, t) && Gluetun.IsTextOf(j, u) ==>
      hash(t) == hash(u) ==> t == u
  }

  ghost predicate AllNewlineFree(inputs: seq<Gluetun.Input>) {
    forall i :: i in inputs ==> Gluetun.NewlineFree(i)
  }

  lemma HashesDifferIff(hash: string -> string, inputs: seq<Gluetun.Input>, i: Gluetun.Input, j: Gluetun.Input,
                        x: string, y: string)
    requires AllNewlineFree(inputs) && CollisionFree(hash, inputs) && i in inputs && j in inputs
    requires IsHashOf(hash, i, x) && IsHashOf(hash, j, y)
    ensures x == y <==> SameValues(i, j)
  {
    var t :| Gluetun.IsTextOf(i, t) && x == hash(t);
    var u :| Gluetun.IsTextOf(j, u) && y == hash(u);
    Gluetun.TextsAgreeIff(i, j, t, u);
  }

  lemma HeadAndTail(hash: string -> string, inputs: seq<Gluetun.Input>, xs: seq<string>, all: seq<Gluetun.Input>)
    requires AllHashes(hash, inputs, xs) && xs != [] && forall i :: i in inputs ==> i in all
    ensures inputs[0] in all && IsHashOf(hash, inputs[0], xs[0])
    ensures AllHashes(hash, inputs[1..], xs[1..]) && forall i :: i in inputs[1..] ==> i in all
  {
    assert inputs[0] in inputs;
    forall i | i in inputs[1..] ensures i in inputs {}
  }

  lemma {:induction false} ChangesAreValueChanges(hash: string -> string, all: seq<Gluetun.Input>, from: Gluetun.Input,
                                                  x: string, inputs: seq<Gluetun.Input>, xs: seq<string>)
    requires AllNewlineFree(all) && CollisionFree(hash, all) && from in all && forall i :: i in inputs ==> i in all
    requires IsHashOf(hash, from, x) && AllHashes(hash, inputs, xs)
    ensures Changes(x, xs) == ValueChanges(from, inputs)
    decreases xs
  {
    if xs != [] {
      HeadAndTail(hash, inputs, xs, all);
      HashesDifferIff(hash, all, inputs[0], from, xs[0], x);
      ChangesAreValueChanges(hash, all, inputs[0], xs[0], inputs[1..], xs[1..]);
    }
  }

  /**
   * The number of attempts is the number of times the value of some variable changed: for inputs without a newline,
   * and a hash without collision among their texts. `inputs` are those of the reconciles that got to compare.
   */
  lemma AttemptsAreValueChanges(s: State, events: seq<Event>, hash: string -> string, from: Gluetun.Input,
                                inputs: seq<Gluetun.Input>)
    requires StatusKept(events) && Enabled(events)
    requires AllNewlineFree([from] + inputs) && CollisionFree(hash, [from] + inputs)
    requires IsHashOf(hash, from, s.persisted) && AllHashes(hash, inputs, Seen(events))
    ensures Run(s, events).attempts == s.attempts + ValueChanges(from, inputs)
  {
    AttemptsAreChanges(s, events);
    assert ([from] + inputs)[0] == from;
    ChangesAreValueChanges(hash, [from] + inputs, from, s.persisted, inputs, Seen(events));
  }
}

/**
 * The Prowlarr coordinator: for one ProwlarrConfig it walks all app configs of the namespace,
 * registers those that reference it, and overwrites their registration status in place.
 */
module Coordinator {
  import opened Common

  datatype Registration = Registration(registered: bool, prowlarr: string, message: string)

  datatype Ref = Ref(name: string, autoRegister: Option<bool>)
  datatype App = App(appType: string, name: string, ref: Option<Ref>)

  /** How the environment answers for one app: whether its API key resolves and whether Register succeeds. */
  datatype Answer = Answer(hasKey: bool, registers: bool)

  function AutoRegister(r: Ref): bool {
    r.autoRegister.None? || r.autoRegister.value
  }

  function PushKey(a: App): string {
    a.appType + "/" + a.name
  }

  /** The calls the registration service offers. */
  datatype Call = Register | Unregister

  /** The status after processing, whether processing erred, and the call made to the registration service, if any. */
  datatype Processed = Processed(status: Option<Registration>, erred: bool, call: Option<Call>)

  function Process(p: string, push: set<string>, a: App, status: Option<Registration>, answer: Answer): Processed {
    if a.ref.None? then
      if status.Some? && status.value.registered && status.value.prowlarr == p then
        Processed(Some(Registration(false, "", "ProwlarrRef removed from config")), false, None)
      else Processed(status, false, None)
    else if a.ref.value.name != p then Processed(status, false, None)
    else if PushKey(a) in push then Processed(Some(Registration(false, p, "Conflict")), true, None)
    else if !AutoRegister(a.ref.value) then Processed(Some(Registration(false, p, "Auto-registration disabled")), false,
                                                      None)
    else if !answer.hasKey then Processed(Some(Registration(false, p, "Could not resolve API key")), true, None)
    else if !answer.registers then Processed(Some(Registration(false, p, "Registration failed")), true, Some(Register))
    else Processed(Some(Registration(true, p, "Registered")), false, Some(Register))
  }

  /**
   * This ProwlarrConfig may write the app's status: it is referenced, or it holds a registration whose reference is
   * gone.
   */
  predicate Owns(p: string, a: App, status: Option<Registration>) {
    if a.ref.Some? then a.ref.value.name == p
    else status.Some? && status.value.registered && status.value.prowlarr == p
  }

  lemma ProcessOwnership(p: string, push: set<string>, a: App, status: Option<Registration>, answer: Answer)
    ensures var r := Process(p, push, a, status, answer);
            && (!Owns(p, a, status) ==> r == Processed(status, false, None))
            && (a.ref.Some? && Owns(p, a, status) ==>
                 && r.status.Some? && r.status.value.prowlarr == p
                 && (r.status.value.registered <==> !r.erred && AutoRegister(a.ref.value)))
            && (r.status.Some? && r.status.value.registered && r.status != status ==>
                  r.call == Some(Register) && answer.registers && r.status.value.prowlarr == p)
  {
  }

  /**
   * What becomes of an app in every case. One that references this Prowlarr is registered exactly if registration is
   * not switched off, the app is not pushed as well, its key resolves and the call goes through; it is an error if the
   * app is pushed as well, or registration is not switched off and fails. Only a registration whose reference is gone
   * is cleared.
   */
  lemma ProcessInFull(p: string, push: set<string>, a: App, status: Option<Registration>, answer: Answer)
    ensures var r, pushed := Process(p, push, a, status, answer), a.appType + "/" + a.name in push;
            a.ref.Some? && a.ref.value.name == p ==>
              && r.status.Some? && r.status.value.prowlarr == p
              && (r.status.value.registered <==>
                    a.ref.value.autoRegister != Some(false) && !pushed && answer.hasKey && answer.registers)
              && (r.erred <==>
                    pushed || (a.ref.value.autoRegister != Some(false) && (!answer.hasKey || !answer.registers)))
              && r.call == if a.ref.value.autoRegister != Some(false) && !pushed && answer.hasKey then Some(Register)
                           else None
    ensures a.ref.Some? && a.ref.value.name != p ==>
              Process(p, push, a, status, answer) == Processed(status, false, None)
    ensures a.ref.None? ==>
              var r := Process(p, push, a, status, answer);
              && !r.erred && r.call.None?
              && (if status.Some? && status.value.registered && status.value.prowlarr == p then
                    r.status.Some? && !r.status.value.registered && r.status.value.prowlarr == ""
                  else r.status == status)
  {
  }

  /**
   * Two coordinators never fight over an app: at most one of them owns it. Whichever goes first, the status in the
   * end and the error and the call of either are the same.
   */
  lemma StepsCommute(p: string, q: string, push: set<string>, push': set<string>, a: App, status: Option<Registration>,
                     answer: Answer, answer': Answer)
    requires p != q
    ensures var p1, q1 := Process(p, push, a, status, answer), Process(q, push', a, status, answer');
            var q2, p2 := Process(q, push', a, p1.status, answer'), Process(p, push, a, q1.status, answer);
            p2.status == q2.status && (p1.erred, p1.call) == (p2.erred, p2.call) &&
                (q1.erred, q1.call) == (q2.erred, q2.call)
  {
    assert !(Owns(p, a, status) && Owns(q, a, status));
  }

  // ----- One coordination pass -----

  predicate Listed(listed: set<string>, a: App) {
    a.appType in listed
  }

  predicate Gained(before: Option<Registration>, after: Option<Registration>) {
    after != before && after.Some? && after.value.registered
  }

  /** Which apps' processing errs. */
  ghost function Errs(p: string, push: set<string>, apps: seq<App>, listed: set<string>, answers: seq<Answer>,
                      before: seq<Option<Registration>>): seq<bool>
    requires |apps| == |answers| == |before|
  {
    seq(|apps|, i requires 0 <= i < |apps| => Listed(listed, apps[i]) &&
        Process(p, push, apps[i], before[i], answers[i]).erred)
  }

  /** The apps, among the first `n`, whose processing errs. */
  ghost function Erring(p: string, push: set<string>, apps: seq<App>, listed: set<string>, answers: seq<Answer>,
                        before: seq<Option<Registration>>, n: nat): set<int>
    requires n <= |apps| == |answers| == |before|
  {
    Where(Errs(p, push, apps, listed, answers, before), n)
  }

  class Coordinator {
    var calls: seq<(string, App, Call, bool)>  // calls made: Prowlarr, app, which, success

    constructor () ensures calls == [] { calls := []; }

    method ProcessAppConfig(p: string, push: set<string>, a: App, answer: Answer,
                            registrations: array<Option<Registration>>, i: nat)
      returns (erred: bool)
      requires i < registrations.Length
      modifies this, registrations
      ensures var r := Process(p, push, a, old(registrations[i]), answer);
              && registrations[i] == r.status && erred == r.erred
              && calls == old(calls) + if r.call.Some? then [(p, a, r.call.value, answer.registers)] else []
      ensures a.ref.Some? && a.ref.value.name == p ==>
                var pushed, off := a.appType + "/" + a.name in push, a.ref.value.autoRegister == Some(false);
                && registrations[i].Some? && registrations[i].value.prowlarr == p
                && (registrations[i].value.registered <==> !off && !pushed && answer.hasKey && answer.registers)
                && (erred <==> pushed || (!off && (!answer.hasKey || !answer.registers)))
                && calls == old(calls) + if !off && !pushed && answer.hasKey then [(p, a, Register, answer.registers)]
                                         else []
      ensures forall j :: 0 <= j < registrations.Length && j != i ==> registrations[j] == old(registrations[j])
    {
      ProcessInFull(p, push, a, registrations[i], answer);
      if a.ref.None? {
        var status := registrations[i];
        if status.Some? && status.value.registered && status.value.prowlarr == p {
          registrations[i] := Some(Registration(false, "", "ProwlarrRef removed from config"));
        }
        return false;
      }
      var ref := a.ref.value;
      if ref.name != p { return false; }
      if PushKey(a) in push {
        registrations[i] := Some(Registration(false, p, "Conflict"));
        return true;
      }
      var autoRegister := true;
      if ref.autoRegister.Some? { autoRegister := ref.autoRegister.value; }
      if !autoRegister {
        registrations[i] := Some(Registration(false, p, "Auto-registration disabled"));
        return false;
      }
      if !answer.hasKey {
        registrations[i] := Some(Registration(false, p, "Could not resolve API key"));
        return true;
      }
      calls := calls + [(p, a, Register, answer.registers)];
      if !answer.registers {
        registrations[i] := Some(Registration(false, p, "Registration failed"));
        return true;
      }
      registrations[i] := Some(Registration(true, p, "Registered"));
      return false;
    }

    /**
     * One pass for ProwlarrConfig `p`. The apps of a type whose list request failed are
     * skipped; every other app is processed exactly once and every error is counted.
     */
    method Reconcile(p: string, push: set<string>, apps: seq<App>, listed: set<string>, answers: seq<Answer>,
                     registrations: array<Option<Registration>>)
      returns (errs: nat)
      requires |answers| == |apps| == registrations.Length
      modifies this, registrations
      ensures forall i :: 0 <= i < |apps| ==>
                registrations[i] == if Listed(listed, apps[i]) then Process(p, push, apps[i], old(registrations[i]),
                                                                            answers[i]).status
                                    else old(registrations[i])
      ensures errs == |Erring(p, push, apps, listed, answers, old(registrations[..]), |apps|)|
      ensures calls == old(calls) + CallsOf(p, push, apps, listed, answers, old(registrations[..]), |apps|)
      ensures PassInFull(p, push, apps, listed, answers, old(registrations[..]), registrations[..], errs)
    {
      errs := 0;
      ghost var before, calls0 := registrations[..], calls;
      for i := 0 to |apps|
        invariant Passed(p, push, apps, listed, answers, before, registrations[..], i)
        invariant errs == |Erring(p, push, apps, listed, answers, before, i)|
        invariant calls == calls0 + CallsOf(p, push, apps, listed, answers, before, i)
      {
        WhereStep(Errs(p, push, apps, listed, answers, before), i);
        ghost var now := registrations[..];
        if Listed(listed, apps[i]) {
          var erred := ProcessAppConfig(p, push, apps[i], answers[i], registrations, i);
          if erred { errs := errs + 1; }
          assert registrations[..] == now[i := Process(p, push, apps[i], before[i], answers[i]).status];
        }
        PassStep(p, push, apps, listed, answers, before, now, registrations[..], i);
      }
      PassedInFull(p, push, apps, listed, answers, before, registrations[..]);
    }
  }

  /** The first `n` apps have been processed, if listed; the others are as before. */
  ghost predicate Passed(p: string, push: set<string>, apps: seq<App>, listed: set<string>, answers: seq<Answer>,
                         before: seq<Option<Registration>>, now: seq<Option<Registration>>, n: nat)
  {
    && n <= |apps| == |answers| == |before| == |now|
    && (forall j :: n <= j < |apps| ==> now[j] == before[j])
    && (forall j :: 0 <= j < n ==>
          now[j] == if Listed(listed, apps[j]) then Process(p, push, apps[j], before[j], answers[j]).status
              else before[j])
  }

  /** What a pass does to every app, and which errors it counts. */
  ghost predicate PassInFull(p: string, push: set<string>, apps: seq<App>, listed: set<string>, answers: seq<Answer>,
                             before: seq<Option<Registration>>, now: seq<Option<Registration>>, errs: nat)
    requires |apps| == |answers| == |before| == |now|
  {
    && (forall i ::
          0 <= i < |apps| && apps[i].appType in listed && apps[i].ref.Some? && apps[i].ref.value.name == p ==>
          && now[i].Some? && now[i].value.prowlarr == p
          && (now[i].value.registered <==>
                && apps[i].ref.value.autoRegister != Some(false) && apps[i].appType + "/" + apps[i].name !in push
                && answers[i].hasKey && answers[i].registers))
    && (forall i ::
          && 0 <= i < |apps|
          && (apps[i].appType !in listed || (apps[i].ref.Some? && apps[i].ref.value.name != p)) ==>
            now[i] == before[i])
    && errs == |set i | 0 <= i < |apps| && apps[i].appType in listed && apps[i].ref.Some? && apps[i].ref.value.name == p
                        && (|| apps[i].appType + "/" + apps[i].name in push
                            || (apps[i].ref.value.autoRegister != Some(false)
                                && (!answers[i].hasKey || !answers[i].registers)))|
  }

  lemma PassedInFull(p: string, push: set<string>, apps: seq<App>, listed: set<string>, answers: seq<Answer>,
                     before: seq<Option<Registration>>, now: seq<Option<Registration>>)
    requires Passed(p, push, apps, listed, answers, before, now, |apps|)
    ensures PassInFull(p, push, apps, listed, answers, before, now,
                       |Erring(p, push, apps, listed, answers, before, |apps|)|)
  {
    forall i | 0 <= i < |apps|
      ensures Errs(p, push, apps, listed, answers, before)[i] <==>
              && apps[i].appType in listed && apps[i].ref.Some? && apps[i].ref.value.name == p
              && (|| apps[i].appType + "/" + apps[i].name in push
                  || (apps[i].ref.value.autoRegister != Some(false)
                      && (!answers[i].hasKey || !answers[i].registers)))
    {
      ProcessInFull(p, push, apps[i], before[i], answers[i]);
    }
    forall i | 0 <= i < |apps| && apps[i].appType in listed && apps[i].ref.Some? && apps[i].ref.value.name == p
      ensures now[i].Some? && now[i].value.prowlarr == p
      ensures now[i].value.registered <==>
              && apps[i].ref.value.autoRegister != Some(false) && apps[i].appType + "/" + apps[i].name !in push
              && answers[i].hasKey && answers[i].registers
    {
      ProcessInFull(p, push, apps[i], before[i], answers[i]);
    }
    assert Erring(p, push, apps, listed, answers, before, |apps|) ==
           set i | 0 <= i < |apps| && apps[i].appType in listed && apps[i].ref.Some? && apps[i].ref.value.name == p
                   && (|| apps[i].appType + "/" + apps[i].name in push
                       || (apps[i].ref.value.autoRegister != Some(false)
                           && (!answers[i].hasKey || !answers[i].registers)));
  }

  /** The calls made for the first `n` apps: one, in order, for each listed app whose processing calls. */
  function CallsOf(p: string, push: set<string>, apps: seq<App>, listed: set<string>, answers: seq<Answer>,
                   before: seq<Option<Registration>>, n: nat): seq<(string, App, Call, bool)>
    requires n <= |apps| == |answers| == |before|
  {
    if n == 0 then []
    else
      var i := n - 1;
      var call := Process(p, push, apps[i], before[i], answers[i]).call;
      CallsOf(p, push, apps, listed, answers, before, i) +
      if Listed(listed, apps[i]) && call.Some? then [(p, apps[i], call.value, answers[i].registers)] else []
  }

  /**
   * Nothing is called but Register, for apps that reference this Prowlarr, and every registration gained was called
   * for.
   */
  lemma {:induction false} CallsFit(p: string, push: set<string>, apps: seq<App>, listed: set<string>,
                                    answers: seq<Answer>, before: seq<Option<Registration>>,
                                    now: seq<Option<Registration>>, n: nat)
    requires Passed(p, push, apps, listed, answers, before, now, |apps|) && n <= |apps|
    ensures var calls := CallsOf(p, push, apps, listed, answers, before, n);
            && |calls| <= n
            && (forall c :: c in calls ==> c.0 == p && c.2 == Register && c.1.ref.Some? && c.1.ref.value.name == p)
            && (forall i :: 0 <= i < n && Gained(before[i], now[i]) ==> (p, apps[i], Register, true) in calls)
  {
    if n > 0 {
      CallsFit(p, push, apps, listed, answers, before, now, n - 1);
      ProcessOwnership(p, push, apps[n - 1], before[n - 1], answers[n - 1]);
    }
  }

  lemma PassStep(p: string, push: set<string>, apps: seq<App>, listed: set<string>, answers: seq<Answer>,
                 before: seq<Option<Registration>>, now: seq<Option<Registration>>, now': seq<Option<Registration>>,
                 n: nat)
    requires n < |apps| && Passed(p, push, apps, listed, answers, before, now, n)
    requires now' == if Listed(listed, apps[n]) then now[n := Process(p, push, apps[n], before[n], answers[n]).status]
            else now
    ensures Passed(p, push, apps, listed, answers, before, now', n + 1)
  {
  }

  // ----- Runs -----

  /**
   * One app as seen over a run: its reference, its status, and the Prowlarrs at which the coordinators have it
   * registered.
   */
  datatype World = World(app: App, status: Option<Registration>, registeredAt: set<string>)

  datatype Label = Respec(ref: Option<Ref>) | Coordinate(p: string, push: set<string>, answer: Answer)

  function Next(w: World, l: Label): World {
    match l
    case Respec(r) => w.(app := w.app.(ref := r))
    case Coordinate(p, push, answer) =>
      var done := Process(p, push, w.app, w.status, answer);
      World(w.app, done.status, Effect(w.registeredAt, p, done.call, answer.registers))
  }

  /** What a call leaves at a Prowlarr: a registration, or none. */
  function Effect(registeredAt: set<string>, p: string, call: Option<Call>, ok: bool): set<string> {
    if call.None? || !ok then registeredAt
    else if call.value.Register? then registeredAt + {p}
    else registeredAt - {p}
  }

  function After(w: World, labels: seq<Label>): World {
    if labels == [] then w else Next(After(w, labels[..|labels| - 1]), labels[|labels| - 1])
  }

  /**
   * However references change and coordinators interleave, a status that says Registered is backed by a successful
   * call.
   */
  lemma {:induction false} RegisteredIsBacked(w: World, labels: seq<Label>)
    requires w.status.None? || !w.status.value.registered || w.status.value.prowlarr in w.registeredAt
    ensures var w' := After(w, labels);
            w'.status.Some? && w'.status.value.registered ==> w'.status.value.prowlarr in w'.registeredAt
  {
    if labels != [] {
      var front := labels[..|labels| - 1];
      RegisteredIsBacked(w, front);
      match labels[|labels| - 1]
      case Respec(_) =>
      case Coordinate(p, push, answer) =>
        var before := After(w, front);
        ProcessOwnership(p, push, before.app, before.status, answer);
    }
  }

  /** While an app keeps its reference, steps of other coordinators leave its status exactly as it was. */
  lemma {:induction false} OthersAreInert(w: World, labels: seq<Label>)
    requires w.app.ref.Some?
    requires forall i :: 0 <= i < |labels| ==> labels[i].Coordinate? && labels[i].p != w.app.ref.value.name
    ensures After(w, labels) == w
  {
    if labels != [] {
      OthersAreInert(w, labels[..|labels| - 1]);
    }
  }

  /**
   * A coordinator's step changes where the app is registered exactly by a successful Register for a referencing
   * app, so a reference that is removed, or changed to another Prowlarr, leaves the application behind; in the
   * first case the status no longer says so.
   */
  lemma RegisteredAfterStepIff(w: World, p: string, push: set<string>, answer: Answer, q: string)
    ensures var w' := Next(w, Coordinate(p, push, answer));
            q in w'.registeredAt <==>
            || q in w.registeredAt
            || (&& q == p && w.app.ref.Some? && w.app.ref.value.name == p
                && w.app.appType + "/" + w.app.name !in push && w.app.ref.value.autoRegister != Some(false)
                && answer.hasKey && answer.registers)
  {
  }

  lemma {:induction false} ClearingDoesNotUnregister(w: World, labels: seq<Label>, q: string)
    requires q in w.registeredAt
    ensures q in After(w, labels).registeredAt
  {
    if labels != [] {
      var front := labels[..|labels| - 1];
      ClearingDoesNotUnregister(w, front, q);
      match labels[|labels| - 1]
      case Respec(_) =>
      case Coordinate(p, push, answer) => RegisteredAfterStepIff(After(w, front), p, push, answer, q);
    }
  }

  /**
   * While the registration is still there, the status is cleared by the coordinator exactly if the reference is
   * gone.
   */
  lemma StatusClearedIff(w: World, push: set<string>, answer: Answer)
    requires w.status.Some? && w.status.value.registered && w.status.value.prowlarr in w.registeredAt
    ensures var p := w.status.value.prowlarr;
            var w' := Next(w, Coordinate(p, push, answer));
            && p in w'.registeredAt
            && (w'.status == Some(Registration(false, "", "ProwlarrRef removed from config")) <==> w.app.ref.None?)
  {
    var p := w.status.value.prowlarr;
    ProcessOwnership(p, push, w.app, w.status, answer);
  }
}

/**
 * Any number of actors registering and unregistering with one Prowlarr: each lookup and each
 * write is one step, steps of different actors interleave freely, and any request may fail.
 */
module RegistrationRuns {
  import opened Common
  import opened Registration

  datatype Phase<D> =
    | Idle(settled: Option<Task<D>>)  // the last task, if it completed without error
    | Started(task: Task<D>)
    | Looked(task: Task<D>, id: int)

  datatype Actor<D> = Actor(name: string, phase: Phase<D>)
  datatype State<D> = State(apps: Apps<D>, actors: seq<Actor<D>>)

  ghost predicate DistinctActors<D>(s: State<D>) {
    forall i, j :: 0 <= i < j < |s.actors| ==> s.actors[i].name != s.actors[j].name
  }

  ghost predicate Moves<D>(s: State<D>, s': State<D>, i: nat, phase: Phase<D>) {
    i < |s.actors| && s'.actors == s.actors[i := Actor(s.actors[i].name, phase)]
  }

  /** Actor `i` begins a task, does its lookup, or does its write; either request may fail. */
  ghost predicate Step<D>(s: State<D>, s': State<D>, i: nat, task: Task<D>, id: int, ok: bool) {
    && i < |s.actors|
    && match s.actors[i].phase
       case Idle(_) => s'.apps == s.apps && Moves(s, s', i, Started(task))
       case Started(t) =>
         s'.apps == s.apps &&
         if ok then Found(s.apps, s.actors[i].name, id) && Moves(s, s', i, Looked(t, id))
             else Moves(s, s', i, Idle(None))
       case Looked(t, found) =>
         Written(s.apps, s'.apps, s.actors[i].name, t, found, id, ok) &&
             Moves(s, s', i, Idle(if ok then Some(t) else None))
  }

  ghost predicate Next<D(!new)>(s: State<D>, s': State<D>) {
    exists i: nat, task: Task<D>, id: int, ok: bool :: Step(s, s', i, task, id, ok)
  }

  /** What an actor may rely on: its lookup is still accurate, and a settled task still holds. */
  ghost predicate ActorInv<D>(apps: Apps<D>, a: Actor<D>) {
    match a.phase
    case Idle(settled) => settled.Some? ==> Achieved(apps, a.name, settled.value)
    case Started(_) => true
    case Looked(_, id) => Found(apps, a.name, id)
  }

  ghost predicate Inv<D>(s: State<D>) {
    && DistinctActors(s) && UniqueNames(s.apps)
    && forall i :: 0 <= i < |s.actors| ==> ActorInv(s.apps, s.actors[i])
  }

  ghost predicate OthersKept<D>(s: State<D>, s': State<D>) {
    forall id, n :: (forall i :: 0 <= i < |s.actors| ==> s.actors[i].name != n) ==>
      (Named(s'.apps, id, n) <==> Named(s.apps, id, n)) && (Named(s.apps, id, n) ==> s'.apps[id] == s.apps[id])
  }

  ghost predicate SameActors<D>(s: State<D>, s': State<D>) {
    |s'.actors| == |s.actors| && forall i :: 0 <= i < |s.actors| ==> s'.actors[i].name == s.actors[i].name
  }

  lemma ActorInvKept<D>(apps: Apps<D>, apps': Apps<D>, name: string, a: Actor<D>)
    requires a.name != name && ActorInv(apps, a)
    requires forall i, n :: n != name ==>
               (Named(apps', i, n) <==> Named(apps, i, n)) && (Named(apps, i, n) ==> apps'[i] == apps[i])
    ensures ActorInv(apps', a)
  {
    match a.phase
    case Idle(Some(Present(d))) =>
      var id :| Named(apps, id, a.name) && apps[id] == App(a.name, d);
      assert Named(apps', id, a.name) && apps'[id] == App(a.name, d);
    case _ =>
  }

  lemma StepKeepsInv<D>(s: State<D>, s': State<D>, i: nat, task: Task<D>, id: int, ok: bool)
    requires Inv(s) && Step(s, s', i, task, id, ok)
    ensures Inv(s') && OthersKept(s, s') && SameActors(s, s')
  {
    var a := s.actors[i];
    if a.phase.Looked? {
      assert ActorInv(s.apps, a);
      WriteEffect(s.apps, s'.apps, a.name, a.phase.task, a.phase.id, id, ok);
      forall j | 0 <= j < |s'.actors| ensures ActorInv(s'.apps, s'.actors[j]) {
        if j != i { ActorInvKept(s.apps, s'.apps, a.name, s.actors[j]); }
      }
    }
  }

  ghost predicate IsRun<D(!new)>(run: seq<State<D>>) {
    |run| > 0 && forall k :: 0 <= k < |run| - 1 ==> Next(run[k], run[k + 1])
  }

  /**
   * In every interleaving of actors with pairwise distinct names: no two applications ever
   * share a name, applications no actor is named after stay exactly as they were, and what
   * an actor has settled remains so until that actor acts again.
   */
  lemma {:induction false} RunIsSafe<D(!new)>(run: seq<State<D>>, k: nat)
    requires IsRun(run) && Inv(run[0]) && k < |run|
    ensures Inv(run[k]) && OthersKept(run[0], run[k]) && SameActors(run[0], run[k])
  {
    if k > 0 {
      RunIsSafe(run, k - 1);
      var s, s' := run[k - 1], run[k];
      assert Next(s, s');
      var i: nat, task: Task<D>, id: int, ok: bool :| Step(s, s', i, task, id, ok);
      StepKeepsInv(s, s', i, task, id, ok);
    }
  }

  /** The initial states of such runs: unique names, and every actor idle. */
  lemma InitialInv<D>(s: State<D>)
    requires DistinctActors(s) && UniqueNames(s.apps)
    requires forall i :: 0 <= i < |s.actors| ==> s.actors[i].phase == Idle(None)
    ensures Inv(s)
  {
  }

  // ----- Actors that share a name -----

  ghost predicate Initial<D>(s: State<D>) {
    && UniqueNames(s.apps) && (forall id :: id in s.apps ==> id > 0)
    && forall i :: 0 <= i < |s.actors| ==> s.actors[i].phase == Idle(None)
  }

  ghost predicate Safe<D(!new)>(s: State<D>) {
    forall run: seq<State<D>> :: IsRun(run) && run[0] == s ==> forall k :: 0 <= k < |run| ==> UniqueNames(run[k].apps)
  }

  /**
   * Distinct names are not only enough, they are needed: from an initial state no run ever yields two applications of
   * one name if and only if no two actors share a name.
   */
  lemma SafeIffDistinct<D(!new)>(s: State<D>, d: D)
    requires Initial(s)
    ensures Safe(s) <==> DistinctActors(s)
  {
    if DistinctActors(s) {
      forall run: seq<State<D>>, k | IsRun(run) && run[0] == s && 0 <= k < |run| ensures UniqueNames(run[k].apps) {
        RunIsSafe(run, k);
      }
    } else {
      var i, j :| 0 <= i < j < |s.actors| && s.actors[i].name == s.actors[j].name;
      var run := TwoOfAName(s, i, j, d);
      assert !UniqueNames(run[|run| - 1].apps);
    }
  }

  /** If there is an application of their name, one of the two first unregisters it. */
  lemma TwoOfAName<D(!new)>(s: State<D>, i: nat, j: nat, d: D) returns (run: seq<State<D>>)
    requires Initial(s) && i < j < |s.actors| && s.actors[i].name == s.actors[j].name
    ensures IsRun(run) && run[0] == s && !UniqueNames(run[|run| - 1].apps)
  {
    if id :| Named(s.apps, id, s.actors[i].name) {
      var cleared := Clear(s, i, id);
      var rest := Collide(cleared[3], i, j, d);
      run := cleared + rest[1..];
      forall k | 0 <= k < |run| - 1 ensures Next(run[k], run[k + 1]) {
        assert k < 3 ==> run[k] == cleared[k] && run[k + 1] == cleared[k + 1];
        assert k >= 3 ==> run[k] == rest[k - 3] && run[k + 1] == rest[k - 2];
      }
    } else {
      run := Collide(s, i, j, d);
    }
  }

  function At<D>(s: State<D>, i: nat, phase: Phase<D>): State<D>
    requires i < |s.actors|
  {
    s.(actors := s.actors[i := Actor(s.actors[i].name, phase)])
  }

  lemma Clear<D(!new)>(s: State<D>, i: nat, id: int) returns (run: seq<State<D>>)
    requires UniqueNames(s.apps) && i < |s.actors| && s.actors[i].phase.Idle?
    requires id != 0 && Named(s.apps, id, s.actors[i].name)
    ensures |run| == 4 && IsRun(run) && run[0] == s && run[3].apps == s.apps - {id}
    ensures run[3].actors == s.actors[i := Actor(s.actors[i].name, Idle(Some(Absent)))]
    ensures forall x :: !Named(run[3].apps, x, s.actors[i].name)
  {
    var s1 := At(s, i, Started(Absent));
    var s2 := At(s1, i, Looked(Absent, id));
    var s3 := At(s2, i, Idle(Some(Absent))).(apps := s.apps - {id});
    assert Step(s, s1, i, Absent, 0, true) && Step(s1, s2, i, Absent, id, true) && Step(s2, s3, i, Absent, 0, true);
    run := [s, s1, s2, s3];
    assert s3.actors == s.actors[i := Actor(s.actors[i].name, Idle(Some(Absent)))];
    forall x ensures !Named(s3.apps, x, s.actors[i].name) {
      assert Named(s3.apps, x, s.actors[i].name) ==> Named(s.apps, x, s.actors[i].name);
    }
  }

  /** Both look, find nothing, and then both write. */
  lemma Collide<D(!new)>(s: State<D>, i: nat, j: nat, d: D) returns (run: seq<State<D>>)
    requires i < j < |s.actors| && s.actors[i].name == s.actors[j].name
    requires s.actors[i].phase.Idle? && s.actors[j].phase.Idle?
    requires forall id :: !Named(s.apps, id, s.actors[i].name)
    ensures IsRun(run) && run[0] == s && !UniqueNames(run[|run| - 1].apps)
  {
    var n, task := s.actors[i].name, Present(d);
    var a := Unused(s.apps);
    var b := Unused(s.apps[a := App(n, d)]);
    var s1 := At(s, i, Started(task));
    var s2 := At(s1, j, Started(task));
    var s3 := At(s2, i, Looked(task, 0));
    var s4 := At(s3, j, Looked(task, 0));
    var s5 := At(s4, i, Idle(Some(task))).(apps := s.apps[a := App(n, d)]);
    var s6 := At(s5, j, Idle(Some(task))).(apps := s5.apps[b := App(n, d)]);
    assert Step(s, s1, i, task, 0, true) && Step(s1, s2, j, task, 0, true);
    assert Step(s2, s3, i, task, 0, true) && Step(s3, s4, j, task, 0, true);
    assert Step(s4, s5, i, task, a, true) && Step(s5, s6, j, task, b, true);
    run := [s, s1, s2, s3, s4, s5, s6];
    assert Named(s6.apps, a, n) && Named(s6.apps, b, n) && a != b;
  }

  lemma Unused<D>(apps: Apps<D>) returns (id: int)
    ensures id > 0 && id !in apps
  {
    id := Above(apps.Keys);
  }

  lemma {:induction false} Above(ids: set<int>) returns (id: int)
    ensures id > 0 && forall i :: i in ids ==> i < id
  {
    if i :| i in ids {
      var rest := Above(ids - {i});
      id := if i < rest then rest else i + 1;
      assert forall x :: x in ids ==> x == i || x in ids - {i};
    } else {
      id := 1;
    }
  }

  // ----- The names actors choose -----

  predicate DashFree(s: string) {
    '-' !in s
  }

  /** The generic reconciler registers a config under this name. */
  function ArrName(appType: string, config: string): string {
    "nebularr-" + (appType + "-" + config)
  }

  /** The coordinator registers a config that references a Prowlarr under this name. */
  function PullName(config: string, appType: string): string {
    "nebularr-pull-" + (config + "-" + appType)
  }

  /** The Prowlarr adapter creates the applications of a ProwlarrConfig under this name. */
  function PushName(prowlarrConfig: string, app: string): string {
    "nebularr-" + (prowlarrConfig + "-" + app)
  }

  /** The three schemes spelled out. */
  lemma SchemesInFull(appType: string, config: string, app: string)
    ensures ArrName(appType, config) == "nebularr-" + appType + "-" + config
    ensures PullName(config, appType) == "nebularr-pull-" + config + "-" + appType
    ensures PushName(config, app) == "nebularr-" + config + "-" + app
  {
  }

  lemma FirstDash(t: string, c: string, t': string, c': string)
    requires DashFree(t) && DashFree(t') && t + "-" + c == t' + "-" + c'
    ensures t == t' && c == c'
  {
    var s := t + "-" + c;
    assert s[|t|] == '-' && s[|t'|] == '-';
    assert s[..|t|] == t && s[..|t'|] == t';
    assert forall i :: 0 <= i < |t| ==> s[i] == t[i];
    assert forall i :: 0 <= i < |t'| ==> s[i] == t'[i];
    assert s[|t| + 1..] == c && s[|t'| + 1..] == c';
  }

  lemma LastDash(c: string, t: string, c': string, t': string)
    requires DashFree(t) && DashFree(t') && c + "-" + t == c' + "-" + t'
    ensures t == t' && c == c'
  {
    var s := c + "-" + t;
    assert s[|c|] == '-' && s[|c'|] == '-';
    assert forall i :: |c| < i < |s| ==> s[i] == t[i - |c| - 1];
    assert forall i :: |c'| < i < |s| ==> s[i] == t'[i - |c'| - 1];
    assert s[..|c|] == c && s[..|c'|] == c';
    assert s[|c| + 1..] == t && s[|c'| + 1..] == t';
  }

  lemma SamePrefix(p: string, s: string, s': string)
    requires p + s == p + s'
    ensures s == s'
  {
    assert (p + s)[|p|..] == s && (p + s')[|p|..] == s';
  }

  /** App types are dash-free and none is "pull", so both schemes are injective and never meet. */
  lemma SchemesInjective(t: string, c: string, t': string, c': string)
    requires DashFree(t) && DashFree(t') && t != "pull"
    ensures ArrName(t, c) == ArrName(t', c') <==> t == t' && c == c'
    ensures PullName(c, t) == PullName(c', t') <==> t == t' && c == c'
    ensures ArrName(t, c) != PullName(c', t')
  {
    if ArrName(t, c) == ArrName(t', c') {
      SamePrefix("nebularr-", t + "-" + c, t' + "-" + c');
      FirstDash(t, c, t', c');
    }
    if PullName(c, t) == PullName(c', t') {
      SamePrefix("nebularr-pull-", c + "-" + t, c' + "-" + t');
      LastDash(c, t, c', t');
    }
    var pull := "pull" + "-" + (c' + "-" + t');
    assert PullName(c', t') == "nebularr-" + pull;
    if "nebularr-" + (t + "-" + c) == "nebularr-" + pull {
      SamePrefix("nebularr-", t + "-" + c, pull);
      FirstDash(t, c, "pull", c' + "-" + t');
    }
  }

  /** The adapter's own names do meet the reconciler's: the ProwlarrConfig is called, or starts with, an app type. */
  lemma PushMeetsArrIff(p: string, app: string, t: string, c: string)
    requires DashFree(t)
    ensures PushName(p, app) == ArrName(t, c) <==>
            (p == t && app == c) || exists x: string :: p == t + "-" + x && c == x + "-" + app
  {
    if PushName(p, app) == ArrName(t, c) {
      SamePrefix("nebularr-", p + "-" + app, t + "-" + c);
      var s := t + "-" + c;
      assert s[|t|] == '-' && s[|p|] == '-';
      assert forall i :: 0 <= i < |t| ==> s[i] == t[i];
      if |p| == |t| {
        assert p == s[..|p|] == t && app == s[|p| + 1..] == c;
      } else {
        var x := p[|t| + 1..];
        assert p == s[..|p|] && p[..|t|] == s[..|t|] == t && p[|t|] == '-';
        assert p == t + "-" + x;
        assert c == s[|t| + 1..] && (t + "-" + x) + "-" + app == t + "-" + (x + "-" + app);
        SamePrefix(t + "-", c, x + "-" + app);
      }
    }
    forall x: string | p == t + "-" + x && c == x + "-" + app ensures PushName(p, app) == ArrName(t, c) {
      assert (t + "-" + x) + "-" + app == t + "-" + (x + "-" + app);
    }
  }

  /** Nor are they kept apart from the coordinator's: a ProwlarrConfig whose name is, or starts with, "pull". */
  lemma PushMeetsPullIff(p: string, app: string, c: string, t: string)
    requires DashFree(t)
    ensures PushName(p, app) == PullName(c, t) <==>
            || (p == "pull" && app == c + "-" + t)
            || (p == "pull" + "-" + c && app == t)
            || exists x: string, y: string :: p == "pull" + "-" + x && c == x + "-" + y && app == y + "-" + t
  {
    var rest := c + "-" + t;
    assert PullName(c, t) == ArrName("pull", rest);
    PushMeetsArrIff(p, app, "pull", rest);
    forall x: string | p == "pull" + "-" + x ensures rest == x + "-" + app <==>
        (x == c && app == t) || exists y: string :: c == x + "-" + y && app == y + "-" + t
    {
      SplitAgain(c, t, x, app);
    }
  }

  /** Where two readings of "c-t" as "x-app" can differ: the dash of the second lies further left, within c. */
  lemma SplitAgain(c: string, t: string, x: string, app: string)
    requires DashFree(t)
    ensures c + "-" + t == x + "-" + app <==>
              (x == c && app == t) || exists y: string :: c == x + "-" + y && app == y + "-" + t
  {
    var s := c + "-" + t;
    if s == x + "-" + app {
      assert s[|x|] == '-' && s[..|x|] == x && s[|x| + 1..] == app;
      assert forall i :: |c| < i < |s| ==> s[i] == t[i - |c| - 1];
      assert s[..|c|] == c && s[|c| + 1..] == t;
      if |x| < |c| {
        var y := c[|x| + 1..];
        assert c == x + "-" + y by { assert c[..|x|] == s[..|x|] && c[|x|] == s[|x|]; }
        assert app == y + "-" + t by { assert s == x + "-" + (y + "-" + t); SamePrefix(x + "-", app, y + "-" + t); }
      }
    }
    forall y: string | c == x + "-" + y && app == y + "-" + t ensures s == x + "-" + app {
      assert (x + "-" + y) + "-" + t == x + "-" + (y + "-" + t);
    }
  }

  datatype Scheme = Arr(appType: string, config: string) | Pull(appType: string, config: string)

  function NameOf(s: Scheme): string {
    match s
    case Arr(t, c) => ArrName(t, c)
    case Pull(t, c) => PullName(c, t)
  }

  /** Distinct configs, under either controller, are actors with pairwise distinct names. */
  lemma SchemeActorsDistinct<D>(s: State<D>, schemes: seq<Scheme>)
    requires |schemes| == |s.actors| && Distinct(schemes)
    requires forall i :: 0 <= i < |schemes| ==>
               s.actors[i].name == NameOf(schemes[i]) && DashFree(schemes[i].appType) && schemes[i].appType != "pull"
    ensures DistinctActors(s)
  {
    forall i, j | 0 <= i < j < |schemes| ensures s.actors[i].name != s.actors[j].name {
      var a, b := schemes[i], schemes[j];
      SchemesInjective(a.appType, a.config, b.appType, b.config);
      SchemesInjective(b.appType, b.config, a.appType, a.config);
    }
  }

  /** Every app type of the operator is dash-free and differs from "pull". */
  lemma AppTypesFit(t: string)
    requires t in {"radarr", "sonarr", "lidarr", "readarr"}
    ensures DashFree(t) && t != "pull"
  {
  }
}

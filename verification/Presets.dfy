/**
 * Expansion of video quality presets. The presets are one table of slices that every expansion
 * shares, so what is appended to matters: in Go, appending to a slice with room to spare writes
 * into the array it shares with others.
 */
module Presets {
  import opened Common

  // ----- Slices -----

  datatype Slice = Slice(arr: array<string>, len: nat)

  ghost predicate Valid(s: Slice) { s.len <= s.arr.Length }

  ghost function View(s: Slice): seq<string>
    requires Valid(s)
    reads s.arr
  {
    s.arr[..s.len]
  }

  method Append(s: Slice, items: seq<string>) returns (r: Slice)
    requires Valid(s)
    modifies s.arr
    ensures Valid(r) && View(r) == old(View(s)) + items
    ensures fresh(r.arr) || r.arr == s.arr
    // The array is shared: only beyond the end of the slice is it written.
    ensures s.arr[..s.len] == old(s.arr[..s.len])
    ensures s.len + |items| > s.arr.Length ==> s.arr[..] == old(s.arr[..])
  {
    ghost var before := View(s);
    var n := s.len + |items|;
    if n > s.arr.Length {
      var arr := new string[2 * n];
      forall i | 0 <= i < s.len { arr[i] := s.arr[i]; }
      forall i | 0 <= i < |items| { arr[s.len + i] := items[i]; }
      r := Slice(arr, n);
      assert View(r) == before + items;
    } else {
      forall i | 0 <= i < |items| { s.arr[s.len + i] := items[i]; }
      r := Slice(s.arr, n);
      assert View(r) == before + items;
    }
  }

  /** What remains of `xs`, in order, without the removed. */
  function Without(xs: seq<string>, removed: set<string>): seq<string> {
    if xs == [] then []
    else
      var last := xs[|xs| - 1];
      var rest := Without(xs[..|xs| - 1], removed);
      if last in removed then rest else rest + [last]
  }

  lemma {:induction false} WithoutMembers(xs: seq<string>, removed: set<string>)
    ensures forall x :: x in Without(xs, removed) <==> x in xs && x !in removed
  {
    if xs != [] {
      WithoutMembers(xs[..|xs| - 1], removed);
      assert xs == xs[..|xs| - 1] + [xs[|xs| - 1]];
    }
  }

  /** A fresh slice, even if there is nothing to remove: it may be appended to. */
  method RemoveItems(s: Slice, toRemove: seq<string>) returns (r: Slice)
    requires Valid(s)
    ensures Valid(r) && fresh(r.arr) && View(r) == Without(View(s), Elements(toRemove))
  {
    if toRemove == [] {
      r := Copy(s);
      WithoutNothing(View(s));
      return;
    }
    var removeSet := SetOf(toRemove);
    var arr := new string[s.len];
    var n := 0;
    ghost var xs, kept := View(s), [];
    for i := 0 to s.len
      invariant n == |kept| <= i && kept == Without(xs[..i], removeSet)
      invariant forall j :: 0 <= j < n ==> arr[j] == kept[j]
    {
      assert xs[..i + 1] == xs[..i] + [xs[i]];
      WithoutNext(xs[..i], xs[i], removeSet);
      if s.arr[i] !in removeSet {
        arr[n] := s.arr[i];
        n, kept := n + 1, kept + [xs[i]];
      }
    }
    assert xs[..s.len] == xs;
    r := Slice(arr, n);
    assert View(r) == kept;
  }

  method Copy(s: Slice) returns (r: Slice)
    requires Valid(s)
    ensures Valid(r) && fresh(r.arr) && View(r) == View(s)
  {
    var arr := new string[s.len];
    forall i | 0 <= i < s.len { arr[i] := s.arr[i]; }
    r := Slice(arr, s.len);
    assert View(r) == View(s);
  }

  method SetOf(xs: seq<string>) returns (all: set<string>)
    ensures all == Elements(xs)
  {
    all := {};
    for i := 0 to |xs|
      invariant all == Elements(xs[..i])
    {
      assert xs[..i + 1] == xs[..i] + [xs[i]];
      all := all + {xs[i]};
    }
    assert xs[..|xs|] == xs;
  }

  lemma WithoutNext(xs: seq<string>, x: string, removed: set<string>)
    ensures Without(xs + [x], removed) == if x in removed then Without(xs, removed) else Without(xs, removed) + [x]
  {
    assert (xs + [x])[..|xs|] == xs;
  }

  lemma {:induction false} WithoutNothing(xs: seq<string>)
    ensures Without(xs, Elements([])) == xs
  {
    if xs != [] {
      WithoutNothing(xs[..|xs| - 1]);
      assert xs == xs[..|xs| - 1] + [xs[|xs| - 1]];
    }
  }

  // ----- Presets -----

  datatype Tier = Tier(resolution: string, sources: Slice)
  datatype Preset = Preset(name: string, tiers: seq<Tier>, upgradeUntil: Option<Tier>, preferred: Slice,
                           rejected: Slice)
  datatype Overrides = Overrides(exclude: seq<string>, preferAdditional: seq<string>, rejectAdditional: seq<string>)

  ghost predicate ValidPreset(p: Preset) { Valid(p.preferred) && Valid(p.rejected) }

  /** Without a modifies clause: the preset cannot have changed. */
  method ApplyVideoOverrides(preset: Preset, o: Overrides) returns (r: Preset)
    requires ValidPreset(preset)
    ensures ValidPreset(r) && r.tiers == preset.tiers && r.upgradeUntil == preset.upgradeUntil
    ensures View(r.preferred) == Without(View(preset.preferred), Elements(o.exclude)) + o.preferAdditional
    ensures View(r.rejected) == Without(View(preset.rejected), Elements(o.exclude)) + o.rejectAdditional
  {
    var preferred := RemoveItems(preset.preferred, o.exclude);
    var rejected := RemoveItems(preset.rejected, o.exclude);
    preferred := Append(preferred, o.preferAdditional);
    rejected := Append(rejected, o.rejectAdditional);
    r := preset.(preferred := preferred, rejected := rejected);
  }

  // ----- Expansion -----

  /** The one specification of a preset format is determined by its name and pattern. */
  datatype CustomFormat = CustomFormat(name: string, specName: string, pattern: string)
  datatype Video = Video(profileName: string, tiers: seq<Tier>, cutoff: Option<Tier>, formats: seq<CustomFormat>,
                         scores: map<string, int>)

  function Prefer(format: string): string { "Prefer: " + format }

  function Reject(format: string): string { "Reject: " + format }

  lemma NamesDiffer()
    ensures forall f, g :: Prefer(f) != Reject(g)
    ensures forall f, g :: Prefer(f) == Prefer(g) ==> f == g
    ensures forall f, g :: Reject(f) == Reject(g) ==> f == g
  {
    forall f, g ensures Prefer(f) != Reject(g) {
      assert Prefer(f)[0] == 'P' && Reject(g)[0] == 'R';
    }
    forall f, g | Prefer(f) == Prefer(g) ensures f == g {
      assert Prefer(f)[8..] == f && Prefer(g)[8..] == g;
    }
    forall f, g | Reject(f) == Reject(g) ensures f == g {
      assert Reject(f)[8..] == f && Reject(g)[8..] == g;
    }
  }

  /**
   * What the scores must be: of the known formats, +100 for the preferred and -10000 for the rejected, and nothing
   * else.
   */
  ghost predicate IsScoring(scores: map<string, int>, preferred: seq<string>, rejected: seq<string>,
                            known: set<string>) {
    && (forall f {:trigger Prefer(f) in scores} :: Prefer(f) in scores <==> f in preferred && f in known)
    && (forall f {:trigger Reject(f) in scores} :: Reject(f) in scores <==> f in rejected && f in known)
    && (forall n {:trigger scores[n]} :: n in scores ==>
          || (exists f :: f in known && n == Prefer(f) && scores[n] == 100)
          || (exists f :: f in known && n == Reject(f) && scores[n] == -10000))
  }

  ghost function FormatNames(formats: seq<CustomFormat>): set<string> {
    set i | 0 <= i < |formats| :: formats[i].name
  }

  /** The custom formats are those scored, each with the pattern of the format it is named after. */
  ghost predicate Backed(formats: seq<CustomFormat>, scores: map<string, int>, patterns: map<string, string>) {
    && FormatNames(formats) == scores.Keys
    && forall i :: 0 <= i < |formats| ==> var c := formats[i];
         c.specName in patterns && c.pattern == patterns[c.specName] &&
             (c.name == Prefer(c.specName) || c.name == Reject(c.specName))
  }

  class Expander {
    const table: map<string, Preset>
    const patterns: map<string, string>

    constructor (table: map<string, Preset>, patterns: map<string, string>)
      ensures this.table == table && this.patterns == patterns
    {
      this.table, this.patterns := table, patterns;
    }

    ghost predicate Sane() {
      "balanced" in table && forall n :: n in table ==> ValidPreset(table[n])
    }

    function PresetNamed(name: string): Preset
      requires Sane()
    {
      if name in table then table[name] else table["balanced"]
    }

    /** The formats scored so far: all of the preferred, or these and some of the rejected. */
    ghost predicate Scored(scores: map<string, int>, items: seq<string>, reject: bool, preferred: seq<string>) {
      if reject then IsScoring(scores, preferred, items, patterns.Keys) else IsScoring(scores, items, [], patterns.Keys)
    }

    method AddFormat(formats: seq<CustomFormat>, scores: map<string, int>, f: string, reject: bool,
                     ghost items: seq<string>, ghost preferred: seq<string>)
      returns (formats': seq<CustomFormat>, scores': map<string, int>)
      requires Backed(formats, scores, patterns) && Scored(scores, items, reject, preferred)
      ensures Backed(formats', scores', patterns) && Scored(scores', items + [f], reject, preferred)
    {
      formats', scores' := formats, scores;
      if f in patterns {
        var name := if reject then Reject(f) else Prefer(f);
        NamesStep(formats, CustomFormat(name, f, patterns[f]));
        formats' := formats + [CustomFormat(name, f, patterns[f])];
        scores' := scores[name := if reject then -10000 else 100];
        if reject {
          ScoreRejected(scores, preferred, items, patterns.Keys, f);
        } else {
          ScorePreferred(scores, items, patterns.Keys, f);
        }
      } else {
        ScoreUnknown(scores, if reject then preferred else items, if reject then items
                     else [], patterns.Keys, f, reject);
      }
    }

    method AddFormats(formats: seq<CustomFormat>, scores: map<string, int>, items: Slice, reject: bool,
                      ghost preferred: seq<string>)
      returns (formats': seq<CustomFormat>, scores': map<string, int>)
      requires Valid(items) && Backed(formats, scores, patterns) && Scored(scores, [], reject, preferred)
      ensures Backed(formats', scores', patterns) && Scored(scores', View(items), reject, preferred)
    {
      formats', scores' := formats, scores;
      for i := 0 to items.len
        invariant Backed(formats', scores', patterns) && Scored(scores', items.arr[..i], reject, preferred)
      {
        assert items.arr[..i + 1] == items.arr[..i] + [items.arr[i]];
        formats', scores' := AddFormat(formats', scores', items.arr[i], reject, items.arr[..i], preferred);
      }
    }

    /** The scores are those of the preset, changed as the overrides ask. No array that existed is written. */
    method ExpandVideoPreset(presetName: string, overrides: Option<Overrides>, profileName: string) returns (ir: Video)
      requires Sane()
      ensures ir.profileName == profileName && ir.tiers == PresetNamed(presetName).tiers
      ensures ir.cutoff == PresetNamed(presetName).upgradeUntil
      // An unknown name stands for the preset "balanced".
      ensures var preset := if presetName in table then table[presetName] else table["balanced"];
              && ir.tiers == preset.tiers && ir.cutoff == preset.upgradeUntil
              && IsScoring(ir.scores, Preferred(preset, overrides), Rejected(preset, overrides), patterns.Keys)
      ensures Backed(ir.formats, ir.scores, patterns)
      ensures IsScoring(ir.scores, Preferred(PresetNamed(presetName), overrides),
                        Rejected(PresetNamed(presetName), overrides), patterns.Keys)
    {
      var preset := PresetNamed(presetName);
      if overrides.Some? {
        preset := ApplyVideoOverrides(preset, overrides.value);
      }
      var formats, scores := [], map[];
      formats, scores := AddFormats(formats, scores, preset.preferred, false, []);
      formats, scores := AddFormats(formats, scores, preset.rejected, true, View(preset.preferred));
      ir := Video(profileName, preset.tiers, preset.upgradeUntil, formats, scores);
    }

    /** Every array that the table refers to is one of `arrays`. */
    ghost predicate Within(arrays: set<object>) {
      Sane() && forall n :: n in table ==> table[n].preferred.arr in arrays && table[n].rejected.arr in arrays
    }

    /** The scores are those asked for. */
    ghost predicate Answers(scores: map<string, int>, request: (string, Option<Overrides>), arrays: set<object>)
      requires Within(arrays)
      reads arrays
    {
      IsScoring(scores, Preferred(PresetNamed(request.0), request.1), Rejected(PresetNamed(request.0), request.1),
                patterns.Keys)
    }

    method ExpandOne(request: (string, Option<Overrides>), profileName: string,
                     ghost arrays: set<object>) returns (ir: Video)
      requires Within(arrays)
      ensures Answers(ir.scores, request, arrays)
    {
      ir := ExpandVideoPreset(request.0, request.1, profileName);
    }

    /** However many presets are expanded, all results answer to one and the same table. */
    method ExpandAll(requests: seq<(string, Option<Overrides>)>, profileName: string, ghost arrays: set<object>)
      returns (irs: seq<Video>)
      requires Within(arrays)
      ensures |irs| == |requests| && forall i :: 0 <= i < |requests| ==> Answers(irs[i].scores, requests[i], arrays)
    {
      irs := [];
      for k := 0 to |requests|
        invariant |irs| == k && forall i :: 0 <= i < k ==> Answers(irs[i].scores, requests[i], arrays)
      {
        var ir := ExpandOne(requests[k], profileName, arrays);
        irs := irs + [ir];
      }
    }
  }

  /** The formats a preset prefers under the overrides. */
  ghost function Preferred(p: Preset, o: Option<Overrides>): seq<string>
    requires ValidPreset(p)
    reads p.preferred.arr
  {
    if o.None? then View(p.preferred)
    else Without(View(p.preferred), Elements(o.value.exclude)) + o.value.preferAdditional
  }

  ghost function Rejected(p: Preset, o: Option<Overrides>): seq<string>
    requires ValidPreset(p)
    reads p.rejected.arr
  {
    if o.None? then View(p.rejected)
    else Without(View(p.rejected), Elements(o.value.exclude)) + o.value.rejectAdditional
  }

  lemma NamesStep(formats: seq<CustomFormat>, c: CustomFormat)
    ensures FormatNames(formats + [c]) == FormatNames(formats) + {c.name}
  {
    var all := formats + [c];
    forall n ensures n in FormatNames(all) <==> n in FormatNames(formats) + {c.name} {
      if n in FormatNames(formats) {
        var i :| 0 <= i < |formats| && formats[i].name == n;
        assert all[i].name == n;
      }
      if n == c.name { assert all[|formats|].name == n; }
    }
  }

  lemma ScoreUnknown(scores: map<string, int>, preferred: seq<string>, rejected: seq<string>, known: set<string>,
                     f: string, reject: bool)
    requires IsScoring(scores, preferred, rejected, known) && f !in known
    ensures if reject then IsScoring(scores, preferred, rejected + [f], known)
            else IsScoring(scores, preferred + [f], rejected, known)
  {
  }

  lemma ScorePreferred(scores: map<string, int>, items: seq<string>, known: set<string>, f: string)
    requires IsScoring(scores, items, [], known) && f in known
    ensures IsScoring(scores[Prefer(f) := 100], items + [f], [], known)
  {
    NamesDiffer();
  }

  lemma ScoreRejected(scores: map<string, int>, preferred: seq<string>, items: seq<string>, known: set<string>,
                      f: string)
    requires IsScoring(scores, preferred, items, known) && f in known
    ensures IsScoring(scores[Reject(f) := -10000], preferred, items + [f], known)
  {
    NamesDiffer();
  }

  // ----- Consequences -----

  /**
   * A known format is scored +100 exactly if the preset prefers it and it is not excluded, or it is preferred in
   * addition; likewise -10000. A format that is both gets both scores, under two names.
   */
  lemma ScoreOf(scores: map<string, int>, p: Preset, o: Overrides, known: set<string>, f: string)
    requires ValidPreset(p) && f in known
    requires IsScoring(scores, Preferred(p, Some(o)), Rejected(p, Some(o)), known)
    ensures (Prefer(f) in scores && scores[Prefer(f)] == 100) <==>
              (f in View(p.preferred) && f !in o.exclude) || f in o.preferAdditional
    ensures (Reject(f) in scores && scores[Reject(f)] == -10000) <==>
              (f in View(p.rejected) && f !in o.exclude) || f in o.rejectAdditional
  {
    NamesDiffer();
    WithoutMembers(View(p.preferred), Elements(o.exclude));
    WithoutMembers(View(p.rejected), Elements(o.exclude));
  }

  /** The scores in full: which names are scored, and how. */
  lemma ScoresInFull(scores: map<string, int>, p: Preset, o: Option<Overrides>, known: set<string>)
    requires ValidPreset(p) && IsScoring(scores, Preferred(p, o), Rejected(p, o), known)
    ensures forall f {:trigger f in known} :: f in known ==>
              && ("Prefer: " + f in scores <==>
                    || (f in View(p.preferred) && (o.None? || f !in o.value.exclude))
                    || (o.Some? && f in o.value.preferAdditional))
              && ("Prefer: " + f in scores ==> scores["Prefer: " + f] == 100)
              && ("Reject: " + f in scores <==>
                    || (f in View(p.rejected) && (o.None? || f !in o.value.exclude))
                    || (o.Some? && f in o.value.rejectAdditional))
              && ("Reject: " + f in scores ==> scores["Reject: " + f] == -10000)
    ensures forall n :: n in scores ==>
              exists f {:trigger f in known} :: f in known && (n == "Prefer: " + f || n == "Reject: " + f)
  {
    NamesDiffer();
    if o.Some? {
      WithoutMembers(View(p.preferred), Elements(o.value.exclude));
      WithoutMembers(View(p.rejected), Elements(o.value.exclude));
    }
    forall f | f in known
      ensures Prefer(f) in scores <==>
              || (f in View(p.preferred) && (o.None? || f !in o.value.exclude))
              || (o.Some? && f in o.value.preferAdditional)
      ensures Reject(f) in scores <==>
              || (f in View(p.rejected) && (o.None? || f !in o.value.exclude))
              || (o.Some? && f in o.value.rejectAdditional)
      ensures Prefer(f) in scores ==> scores[Prefer(f)] == 100
      ensures Reject(f) in scores ==> scores[Reject(f)] == -10000 {}
    forall n | n in scores
      ensures exists f {:trigger f in known} :: f in known && (n == "Prefer: " + f || n == "Reject: " + f)
    {
      if f :| f in known && n == Prefer(f) && scores[n] == 100 {
        assert f in known && n == "Prefer: " + f;
      } else {
        var f :| f in known && n == Reject(f) && scores[n] == -10000;
        assert f in known && n == "Reject: " + f;
      }
    }
  }

  /** The scoring is determined by what it promises. */
  lemma ScoringIsUnique(a: map<string, int>, b: map<string, int>, preferred: seq<string>, rejected: seq<string>,
                        known: set<string>)
    requires IsScoring(a, preferred, rejected, known) && IsScoring(b, preferred, rejected, known)
    ensures a == b
  {
    forall n ensures (n in a <==> n in b) && (n in a ==> a[n] == b[n]) {
      if n in a { ScoredAlike(a, b, preferred, rejected, known, n); }
      if n in b { ScoredAlike(b, a, preferred, rejected, known, n); }
    }
  }

  lemma ScoredAlike(a: map<string, int>, b: map<string, int>, preferred: seq<string>, rejected: seq<string>,
                    known: set<string>, n: string)
    requires IsScoring(a, preferred, rejected, known) && IsScoring(b, preferred, rejected, known) && n in a
    ensures n in b && a[n] == b[n]
  {
    NamesDiffer();
    if f :| f in known && n == Prefer(f) && a[n] == 100 {
      assert n in b;
    } else {
      var f :| f in known && n == Reject(f) && a[n] == -10000;
      assert n in b;
    }
  }
}

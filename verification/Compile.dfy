/**
 * The part of compilation that makes quality profiles refer to custom formats: the profile comes
 * from a preset, and a user's own custom formats bring their own scores.
 */
module Compile {
  import opened Common
  import opened Presets

  datatype App = Radarr | Sonarr | Lidarr | Readarr | Prowlarr
  datatype UserFormat = UserFormat(name: string, score: int, includeWhenRenaming: bool, specifications: seq<string>)

  /** A custom format as compiled: named, and with nothing left of the score. */
  datatype Compiled = Compiled(name: string, includeWhenRenaming: bool, specifications: seq<string>)

  /** `scores` is None for a nil map. */
  datatype Quality = NoQuality | VideoQuality(video: Video, scores: Option<map<string,
                                              int>>) | AudioQuality(scores: Option<map<string, int>>)

  function FullName(config: string, name: string): string { "nebularr-" + config + "-" + name }

  lemma FullNameIsInjective(config: string, a: string, b: string)
    requires FullName(config, a) == FullName(config, b)
    ensures a == b
  {
    var prefix := "nebularr-" + config + "-";
    assert FullName(config, a)[|prefix|..] == a && FullName(config, b)[|prefix|..] == b;
  }

  predicate Manages(app: App) { app in {Radarr, Sonarr, Lidarr} }

  // ----- Scores of a user's formats -----

  /** A later score of the same name replaces an earlier one, but 0 does not. */
  function UserScores(formats: seq<UserFormat>, config: string): map<string, int> {
    if formats == [] then map[]
    else
      var last := formats[|formats| - 1];
      var rest := UserScores(formats[..|formats| - 1], config);
      if last.score == 0 then rest else rest[FullName(config, last.name) := last.score]
  }

  /** The `i`-th format is the last one of its name that has a score. */
  ghost predicate Decides(formats: seq<UserFormat>, i: int) {
    && 0 <= i < |formats| && formats[i].score != 0
    && forall j :: i < j < |formats| && formats[j].name == formats[i].name ==> formats[j].score == 0
  }

  lemma {:induction false} DecidingFormatsScore(formats: seq<UserFormat>, config: string, i: int)
    requires Decides(formats, i)
    ensures FullName(config, formats[i].name) in UserScores(formats, config)
    ensures UserScores(formats, config)[FullName(config, formats[i].name)] == formats[i].score
    ensures FullName(config, formats[i].name) == "nebularr-" + config + "-" + formats[i].name
  {
    var n := |formats| - 1;
    var rest := formats[..n];
    if i < n {
      assert Decides(rest, i);
      DecidingFormatsScore(rest, config, i);
      if formats[n].score != 0 && FullName(config, formats[n].name) == FullName(config, formats[i].name) {
        FullNameIsInjective(config, formats[n].name, formats[i].name);
      }
    }
  }

  lemma {:induction false} ScoresAreDecided(formats: seq<UserFormat>, config: string, key: string)
    requires key in UserScores(formats, config)
    ensures exists i :: Decides(formats, i) && key == FullName(config, formats[i].name)
  {
    var n := |formats| - 1;
    var rest := formats[..n];
    if formats[n].score != 0 && key == FullName(config, formats[n].name) {
      assert Decides(formats, n);
    } else {
      ScoresAreDecided(rest, config, key);
      var i :| Decides(rest, i) && key == FullName(config, rest[i].name);
      assert Decides(formats, i) by {
        if formats[n].name == rest[i].name { assert formats[n].score == 0; }
      }
    }
  }

  method CompileFormatScores(formats: seq<UserFormat>, config: string) returns (scores: Option<map<string, int>>)
    ensures scores.Some? <==> exists i :: 0 <= i < |formats| && formats[i].score != 0
    ensures scores.Some? ==> scores.value == UserScores(formats, config)
  {
    if formats == [] { return None; }
    var m: map<string, int> := map[];
    for i := 0 to |formats|
      invariant m == UserScores(formats[..i], config)
      invariant m == map[] <==> forall j :: 0 <= j < i ==> formats[j].score == 0
    {
      assert formats[..i + 1][..i] == formats[..i];
      if formats[i].score != 0 {
        m := m[FullName(config, formats[i].name) := formats[i].score];
        assert FullName(config, formats[i].name) in m;
      }
    }
    assert formats[..|formats|] == formats;
    scores := if m == map[] then None else Some(m);
  }

  method CompileCustomFormats(formats: seq<UserFormat>, config: string) returns (compiled: seq<Compiled>)
    ensures |compiled| == |formats|
    ensures forall i :: 0 <= i < |formats| ==>
              compiled[i] == Compiled(FullName(config, formats[i].name), formats[i].includeWhenRenaming,
                                      formats[i].specifications)
    ensures forall i :: 0 <= i < |formats| ==>
              && compiled[i].name == "nebularr-" + config + "-" + formats[i].name
              && compiled[i].includeWhenRenaming == formats[i].includeWhenRenaming
              && compiled[i].specifications == formats[i].specifications
    ensures CompiledNames(compiled) == UserNames(formats, config)
    ensures UserScores(formats, config).Keys <= CompiledNames(compiled)
  {
    compiled := [];
    for i := 0 to |formats|
      invariant |compiled| == i
      invariant forall j :: 0 <= j < i ==>
                  compiled[j] == Compiled(FullName(config, formats[j].name), formats[j].includeWhenRenaming,
                                          formats[j].specifications)
    {
      var f := formats[i];
      compiled := compiled + [Compiled(FullName(config, f.name), f.includeWhenRenaming, f.specifications)];
    }
    UserScoresRefer(formats, config, compiled);
  }

  // ----- Compilation -----

  ghost function CompiledNames(compiled: seq<Compiled>): set<string> {
    set i | 0 <= i < |compiled| :: compiled[i].name
  }

  function UserNames(formats: seq<UserFormat>, config: string): set<string> {
    set i | 0 <= i < |formats| :: FullName(config, formats[i].name)
  }

  class IR {
    var quality: Quality
    var customFormats: seq<Compiled>

    constructor () ensures quality == NoQuality && customFormats == [] {
      quality, customFormats := NoQuality, [];
    }
  }

  /** Every score names a custom format that the profile or the IR holds. */
  ghost predicate ReferencesHold(quality: Quality, customFormats: seq<Compiled>) {
    match quality
    case NoQuality => true
    case VideoQuality(video, scores) => scores.Some? ==>
        scores.value.Keys <= FormatNames(video.formats) + CompiledNames(customFormats)
    case AudioQuality(scores) => scores.Some? ==> scores.value.Keys <= CompiledNames(customFormats)
  }

  /** A user's scores replace those of the profile altogether, even by none at all. */
  ghost predicate Rescored(before: Quality, after: Quality, formats: seq<UserFormat>, config: string) {
    if formats == [] || before == NoQuality then after == before
    else
      && after != NoQuality && after == before.(scores := after.scores)
      && (after.scores.Some? <==> exists i :: 0 <= i < |formats| && formats[i].score != 0)
      && (after.scores.Some? ==> after.scores.value == UserScores(formats, config))
  }

  function Chosen(preset: string): string { if preset == "" then "balanced" else preset }

  predicate SamePreset(video: Video, preset: Preset) {
    video.tiers == preset.tiers && video.cutoff == preset.upgradeUntil
  }

  class Compiler {
    const expander: Expander

    constructor (expander: Expander) ensures this.expander == expander { this.expander := expander; }

    /** The profile that the preset named, or the default one, makes for the app. */
    ghost predicate FromPreset(quality: Quality, app: App, preset: string, overrides: Option<Overrides>,
                               arrays: set<object>)
      requires expander.Within(arrays)
      reads arrays
    {
      && (quality.VideoQuality? <==> app in {Radarr, Sonarr})
      && (quality.AudioQuality? <==> app == Lidarr)
      && (quality.VideoQuality? ==>
            && SamePreset(quality.video, expander.PresetNamed(Chosen(preset)))
            && quality.scores == Some(quality.video.scores) &&
                quality.video.scores.Keys == FormatNames(quality.video.formats)
            && expander.Answers(quality.video.scores, (Chosen(preset), overrides), arrays))
      && (quality.AudioQuality? ==> quality.scores.None?)
    }

    /** The profile is named after the config and taken from the preset asked for, or from "balanced" by default. */
    ghost predicate NamedAndTaken(video: Video, preset: string, config: string)
      requires expander.Sane()
    {
      && video.profileName == "nebularr-" + config
      && var chosen := if preset != "" && preset in expander.table then expander.table[preset]
                       else expander.table["balanced"];
         video.tiers == chosen.tiers && video.cutoff == chosen.upgradeUntil
    }

    method ExpandQuality(app: App, preset: string, overrides: Option<Overrides>, config: string,
                         ghost arrays: set<object>)
      returns (quality: Quality)
      requires expander.Within(arrays)
      ensures FromPreset(quality, app, preset, overrides, arrays) && ReferencesHold(quality, [])
      ensures quality.VideoQuality? ==> NamedAndTaken(quality.video, preset, config)
    {
      quality := NoQuality;
      if app == Radarr || app == Sonarr {
        var name := Chosen(preset);
        var video := expander.ExpandVideoPreset(name, overrides, "nebularr-" + config);
        quality := VideoQuality(video, Some(video.scores));
      } else if app == Lidarr {
        quality := AudioQuality(None);
      }
    }

    method UseCustomFormats(before: Quality, formats: seq<UserFormat>, config: string)
      returns (quality: Quality, customFormats: seq<Compiled>)
      requires ReferencesHold(before, [])
      ensures ReferencesHold(quality, customFormats) && Rescored(before, quality, formats, config)
      ensures CompiledNames(customFormats) == UserNames(formats, config)
    {
      customFormats := CompileCustomFormats(formats, config);
      quality := before;
      if formats != [] && quality != NoQuality {
        var scores := CompileFormatScores(formats, config);
        quality := quality.(scores := scores);
      }
    }

    /** What steps 2 and 12 make of the input: `expanded` is the profile before the user's scores. */
    method CompileParts(app: App, preset: string, overrides: Option<Overrides>, formats: seq<UserFormat>,
                        config: string, ghost arrays: set<object>)
      returns (quality: Quality, customFormats: seq<Compiled>, ghost expanded: Quality)
      requires expander.Within(arrays)
      ensures ReferencesHold(quality, customFormats) && FromPreset(expanded, app, preset, overrides, arrays)
      ensures expanded.VideoQuality? ==> NamedAndTaken(expanded.video, preset, config)
      ensures if Manages(app) then Rescored(expanded, quality, formats, config) else quality == expanded
      ensures CompiledNames(customFormats) == if Manages(app) then UserNames(formats, config) else {}
    {
      quality := ExpandQuality(app, preset, overrides, config, arrays);
      expanded, customFormats := quality, [];
      if Manages(app) {
        quality, customFormats := UseCustomFormats(quality, formats, config);
      }
    }

    /** Steps 2 and 12 of compilation. */
    method Compile(app: App, preset: string, overrides: Option<Overrides>, formats: seq<UserFormat>, config: string,
                   ghost arrays: set<object>)
      returns (ir: IR, ghost expanded: Quality)
      requires expander.Within(arrays)
      ensures fresh(ir) && ReferencesHold(ir.quality, ir.customFormats)
      ensures FromPreset(expanded, app, preset, overrides, arrays)
      ensures expanded.VideoQuality? ==> NamedAndTaken(expanded.video, preset, config)
      ensures if app in {Radarr, Sonarr, Lidarr} then Rescored(expanded, ir.quality, formats, config)
              else ir.quality == expanded
      ensures CompiledNames(ir.customFormats) ==
              if app in {Radarr, Sonarr, Lidarr} then UserNames(formats, config) else {}
    {
      ir := new IR();
      var quality, customFormats;
      quality, customFormats, expanded := CompileParts(app, preset, overrides, formats, config, arrays);
      ir.quality := quality;
      ir.customFormats := customFormats;
    }
  }

  lemma UserScoresRefer(formats: seq<UserFormat>, config: string, compiled: seq<Compiled>)
    requires |compiled| == |formats| && forall i :: 0 <= i < |formats| ==>
               compiled[i].name == FullName(config, formats[i].name)
    ensures CompiledNames(compiled) == UserNames(formats, config)
    ensures UserScores(formats, config).Keys <= CompiledNames(compiled)
  {
    forall n ensures n in CompiledNames(compiled) <==> n in UserNames(formats, config) {
      if n in CompiledNames(compiled) {
        var i :| 0 <= i < |compiled| && compiled[i].name == n;
        assert FullName(config, formats[i].name) == n;
      }
      if n in UserNames(formats, config) {
        var i :| 0 <= i < |formats| && FullName(config, formats[i].name) == n;
        assert compiled[i].name == n;
      }
    }
    forall key | key in UserScores(formats, config) ensures key in CompiledNames(compiled) {
      ScoresAreDecided(formats, config, key);
      var i :| Decides(formats, i) && key == FullName(config, formats[i].name);
      assert compiled[i].name == key;
    }
  }

  /**
   * Once a user brings formats, no format of the preset is scored any more, although the profile still holds them
   * all.
   */
  lemma PresetFormatsGoUnscored(formats: seq<UserFormat>, config: string, video: Video, patterns: map<string, string>)
    requires Backed(video.formats, video.scores, patterns)
    ensures UserScores(formats, config).Keys !! FormatNames(video.formats)
  {
    forall j | 0 <= j < |video.formats| ensures video.formats[j].name != "" && video.formats[j].name[0] in "PR" {
      var c := video.formats[j];
      assert Prefer(c.specName)[0] == 'P' && Reject(c.specName)[0] == 'R';
    }
    forall key | key in UserScores(formats, config) ensures key != "" && key[0] == 'n' {
      ScoresAreDecided(formats, config, key);
    }
  }
}

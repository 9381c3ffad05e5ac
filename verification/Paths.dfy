/** Splitting a path into its components, which inverts joining them however many slashes are used. */
module Paths {
  ghost predicate IsComponent(s: string) { s != "" && '/' !in s }

  ghost predicate AllComponents(parts: seq<string>) {
    forall i :: 0 <= i < |parts| ==> IsComponent(parts[i])
  }

  ghost predicate OnlySlashes(s: string) {
    forall i :: 0 <= i < |s| ==> s[i] == '/'
  }

  /** One gap before, between and after the components: of slashes only, and between components of at least one. */
  ghost predicate AreGaps(gaps: seq<string>, n: nat) {
    && |gaps| == n + 1
    && (forall i :: 0 <= i <= n ==> OnlySlashes(gaps[i]))
    && (forall i :: 0 < i < n ==> gaps[i] != "")
  }

  function Joined(parts: seq<string>, gaps: seq<string>): string
    requires |gaps| == |parts| + 1
  {
    if parts == [] then gaps[0]
    else
      var n := |parts| - 1;
      Joined(parts[..n], gaps[..n + 1]) + parts[n] + gaps[n + 1]
  }

  function Concatenated(parts: seq<string>): string {
    if parts == [] then "" else Concatenated(parts[..|parts| - 1]) + parts[|parts| - 1]
  }

  function WithoutSlashes(path: string): string {
    if path == "" then ""
    else WithoutSlashes(path[..|path| - 1]) + if path[|path| - 1] == '/' then "" else [path[|path| - 1]]
  }

  // ----- The scan -----

  /** The components complete after a prefix of the path, and the one begun. */
  datatype Scan = Scan(parts: seq<string>, current: string) {
    function Next(c: char): Scan {
      if c != '/' then Scan(parts, current + [c]) else Scan(Finish(), "")
    }

    function Finish(): seq<string> {
      if current == "" then parts else parts + [current]
    }
  }

  function ScanOf(path: string): Scan {
    if path == "" then Scan([], "") else ScanOf(path[..|path| - 1]).Next(path[|path| - 1])
  }

  function Split(path: string): seq<string> { ScanOf(path).Finish() }

  method SplitPath(path: string) returns (parts: seq<string>)
    ensures parts == Split(path)
  {
    parts := [];
    var current := "";
    for i := 0 to |path|
      invariant Scan(parts, current) == ScanOf(path[..i])
    {
      assert path[..i + 1][..i] == path[..i];
      if path[i] == '/' {
        if current != "" {
          parts := parts + [current];
          current := "";
        }
      } else {
        current := current + [path[i]];
      }
    }
    assert path[..|path|] == path;
    if current != "" {
      parts := parts + [current];
    }
  }

  // ----- Splitting undoes joining -----

  lemma {:induction false} ScanWord(path: string, word: string)
    requires '/' !in word
    ensures ScanOf(path + word) == Scan(ScanOf(path).parts, ScanOf(path).current + word)
  {
    if word == "" {
      assert path + word == path;
    } else {
      var n := |word| - 1;
      ScanWord(path, word[..n]);
      assert (path + word)[..|path + word| - 1] == path + word[..n];
      assert word == word[..n] + [word[n]];
    }
  }

  lemma {:induction false} ScanGap(path: string, gap: string)
    requires OnlySlashes(gap)
    ensures ScanOf(path + gap) == if gap == "" then ScanOf(path) else Scan(Split(path), "")
  {
    if gap == "" {
      assert path + gap == path;
    } else {
      var n := |gap| - 1;
      ScanGap(path, gap[..n]);
      assert (path + gap)[..|path + gap| - 1] == path + gap[..n];
    }
  }

  /** One more component and the gap after it. */
  lemma ScanStep(before: string, part: string, gap: string)
    requires IsComponent(part) && OnlySlashes(gap) && ScanOf(before).current == ""
    ensures ScanOf(before + part + gap) ==
              if gap == "" then Scan(ScanOf(before).parts, part) else Scan(ScanOf(before).parts + [part], "")
  {
    ScanWord(before, part);
    assert "" + part == part;
    ScanGap(before + part, gap);
  }

  lemma {:induction false} ScanJoined(parts: seq<string>, gaps: seq<string>)
    requires AllComponents(parts) && AreGaps(gaps, |parts|)
    ensures ScanOf(Joined(parts, gaps)) ==
              if parts == [] || gaps[|parts|] != "" then Scan(parts, "")
                  else Scan(parts[..|parts| - 1], parts[|parts| - 1])
  {
    if parts == [] {
      ScanGap("", gaps[0]);
      assert "" + gaps[0] == gaps[0];
    } else {
      var n := |parts| - 1;
      ScanJoined(parts[..n], gaps[..n + 1]);
      assert ScanOf(Joined(parts[..n], gaps[..n + 1])) == Scan(parts[..n], "");
      ScanStep(Joined(parts[..n], gaps[..n + 1]), parts[n], gaps[n + 1]);
      assert parts == parts[..n] + [parts[n]];
    }
  }

  /** Components joined by any number of slashes, with any before and after, come back as they were. */
  lemma SplitUndoesJoining(parts: seq<string>, gaps: seq<string>)
    requires AllComponents(parts) && AreGaps(gaps, |parts|)
    ensures Split(Joined(parts, gaps)) == parts
  {
    ScanJoined(parts, gaps);
    if parts != [] { assert parts == parts[..|parts| - 1] + [parts[|parts| - 1]]; }
  }

  // ----- Every path is such a joining -----

  /**
   * The path is the components scanned so far, joined by `gaps`, of which the last is empty exactly while a
   * component is begun.
   */
  ghost predicate Fits(path: string, s: Scan, gaps: seq<string>) {
    var n := |s.Finish()|;
    && AllComponents(s.Finish()) && '/' !in s.current && AreGaps(gaps, n) && path == Joined(s.Finish(), gaps)
    && (if s.current != "" then gaps[n] == "" else n > 0 ==> gaps[n] != "")
  }

  lemma {:induction false} GapsOf(path: string) returns (gaps: seq<string>)
    ensures Fits(path, ScanOf(path), gaps)
  {
    if path == "" {
      gaps := [""];
    } else {
      var c, init := path[|path| - 1], path[..|path| - 1];
      assert path == init + [c];
      gaps := GapsOf(init);
      if c == '/' {
        gaps := NextIsSlash(init, ScanOf(init), gaps);
      } else if ScanOf(init).current == "" {
        gaps := NextBegins(init, ScanOf(init), c, gaps);
      } else {
        NextContinues(init, ScanOf(init), c, gaps);
      }
    }
  }

  lemma NextIsSlash(path: string, s: Scan, gaps: seq<string>) returns (gaps': seq<string>)
    requires Fits(path, s, gaps)
    ensures Fits(path + ['/'], s.Next('/'), gaps')
  {
    var n := |s.Finish()|;
    gaps' := gaps[..n] + [gaps[n] + "/"];
    GrowGap(s.Finish(), gaps, "/");
  }

  lemma NextBegins(path: string, s: Scan, c: char, gaps: seq<string>) returns (gaps': seq<string>)
    requires Fits(path, s, gaps) && s.current == "" && c != '/'
    ensures Fits(path + [c], s.Next(c), gaps')
  {
    gaps' := gaps + [""];
    assert s.current + [c] == [c];
    AddPart(s.parts, [c], gaps);
    assert path + [c] == path + [c] + "";
  }

  lemma NextContinues(path: string, s: Scan, c: char, gaps: seq<string>)
    requires Fits(path, s, gaps) && s.current != "" && c != '/'
    ensures Fits(path + [c], s.Next(c), gaps)
  {
    GrowPart(s.parts, s.current, [c], gaps);
  }

  lemma AddPart(parts: seq<string>, part: string, gaps: seq<string>)
    requires |gaps| == |parts| + 1
    ensures Joined(parts + [part], gaps + [""]) == Joined(parts, gaps) + part + ""
  {
    var n := |parts|;
    assert (parts + [part])[..n] == parts && (gaps + [""])[..n + 1] == gaps;
  }

  lemma GrowGap(parts: seq<string>, gaps: seq<string>, more: string)
    requires |gaps| == |parts| + 1
    ensures Joined(parts, gaps[..|parts|] + [gaps[|parts|] + more]) == Joined(parts, gaps) + more
  {
    var n := |parts|;
    var grown := gaps[..n] + [gaps[n] + more];
    if n > 0 {
      assert grown[..n] == gaps[..n];
    }
  }

  lemma GrowPart(parts: seq<string>, last: string, more: string, gaps: seq<string>)
    requires |gaps| == |parts| + 2 && gaps[|parts| + 1] == ""
    ensures Joined(parts + [last + more], gaps) == Joined(parts + [last], gaps) + more
  {
    var n := |parts|;
    assert (parts + [last])[..n] == parts && (parts + [last + more])[..n] == parts;
  }

  /** So the result is the only list of components of which the path is a joining. */
  lemma SplitIsTheOnlyOne(path: string, parts: seq<string>)
    ensures parts == Split(path) <==>
              AllComponents(parts) && exists gaps :: AreGaps(gaps, |parts|) && path == Joined(parts, gaps)
  {
    var gaps := GapsOf(path);
    if AllComponents(parts) && exists gaps :: AreGaps(gaps, |parts|) && path == Joined(parts, gaps) {
      var g :| AreGaps(g, |parts|) && path == Joined(parts, g);
      SplitUndoesJoining(parts, g);
    }
  }

  /** Nothing but slashes is lost. */
  lemma {:induction false} NothingButSlashesIsLost(path: string)
    ensures Concatenated(Split(path)) == WithoutSlashes(path)
  {
    if path != "" {
      var c, init := path[|path| - 1], path[..|path| - 1];
      NothingButSlashesIsLost(init);
      var s := ScanOf(init);
      if c != '/' {
        assert Split(path) == s.parts + [s.current + [c]];
        ConcatenateLast(s.parts, s.current + [c]);
        ConcatenateLast(s.parts, s.current);
      } else {
        assert Split(path) == Split(init);
      }
    }
  }

  lemma ConcatenateLast(parts: seq<string>, last: string)
    ensures Concatenated(parts + [last]) == Concatenated(parts) + last
  {
    assert (parts + [last])[..|parts|] == parts;
  }
}

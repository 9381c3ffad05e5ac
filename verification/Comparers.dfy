/**
 * What the comparers decide. Several of them test only one direction and leave the other
 * to a count, so they are equalities exactly on lists and maps of the right shape.
 */
module Comparers {
  import opened Common
  import opened Sync
  import Prowlarr
  import Lidarr

  // ----- What the adapters compare, field by field -----

  /**
   * Of clients and proxies everything is compared but the password; of applications everything but the API key, with
   * the categories by inclusion; of indexers everything but the API key, with a missing setting taken for an empty
   * one. Values of different types are never the same.
   */
  lemma ProwlarrSameDecides(a: Prowlarr.IR, b: Prowlarr.IR)
    ensures a.ClientIR? && b.ClientIR? ==> (Prowlarr.Same(a, b) <==> a.(pass := b.pass) == b)
    ensures a.ProxyIR? && b.ProxyIR? ==> (Prowlarr.Same(a, b) <==> a.(password := b.password) == b)
    ensures a.ApplicationIR? && b.ApplicationIR? ==>
              (Prowlarr.Same(a, b) <==>
                 && a.(appKey := b.appKey, categories := b.categories) == b
                 && |a.categories| == |b.categories| && forall c :: c in b.categories ==> c in a.categories)
    ensures a.IndexerIR? && b.IndexerIR? ==>
              (Prowlarr.Same(a, b) <==>
                 && a.(apiKey := b.apiKey, settings := b.settings) == b && |a.settings| == |b.settings|
                 && forall k :: k in a.settings ==>
                      a.settings[k] == if k in b.settings then b.settings[k] else "")
    ensures Prowlarr.Same(a, b) ==>
              && (a.ClientIR? <==> b.ClientIR?) && (a.ProxyIR? <==> b.ProxyIR?)
              && (a.ApplicationIR? <==> b.ApplicationIR?) && (a.IndexerIR? <==> b.IndexerIR?)
  {
  }

  /** Of notifications implementation, events and the printed fields are compared, of custom formats everything. */
  lemma LidarrSameDecides(w: Lidarr.Wire, a: Lidarr.IR, b: Lidarr.IR)
    ensures a.NotificationIR? && b.NotificationIR? ==>
              (Lidarr.Same(w, a, b) <==>
                 && a.implementation == b.implementation && a.events == b.events && a.fields.Keys == b.fields.Keys
                 && forall n :: n in a.fields ==> Lidarr.Show(w, a.fields[n]) == Lidarr.Show(w, b.fields[n]))
    ensures a.CustomFormatIR? && b.CustomFormatIR? ==> (Lidarr.Same(w, a, b) <==> a == b)
    ensures Lidarr.Same(w, a, b) ==> (a.CustomFormatIR? <==> b.CustomFormatIR?)
    ensures Lidarr.Show(w, Lidarr.Null) == "<nil>" && forall text :: Lidarr.Show(w, Lidarr.Str(text)) == text
  {
    if a.NotificationIR? && b.NotificationIR? && a.fields.Keys <= b.fields.Keys && |a.fields| == |b.fields| {
      SubsetOfSameSize(a.fields.Keys, b.fields.Keys);
    }
    if a.NotificationIR? && b.NotificationIR? && a.fields.Keys == b.fields.Keys {
      assert |a.fields| == |a.fields.Keys| == |b.fields|;
    }
  }

  /**
   * So a value that differs from the desired one is a pending update, unless it differs only where the comparer does
   * not look: a changed password or API key alone is never written.
   */
  lemma DriftIsUpdated<K>(kd: Kind<Prowlarr.RType, Prowlarr.IR, Prowlarr.Body>, current: map<K, Prowlarr.IR>,
                          desired: map<K, Prowlarr.IR>, k: K)
    requires Alike(kd, Prowlarr.ProwlarrKind()) && k in current && k in desired
    ensures var a, b, op := current[k], desired[k], PendingOp(kd, current, desired, k);
            && (a.ClientIR? && b.ClientIR? ==> op == if a.(pass := b.pass) == b then None else Some(Update))
            && (a.ProxyIR? && b.ProxyIR? ==> op == if a.(password := b.password) == b then None else Some(Update))
            && (a.ApplicationIR? && b.ApplicationIR? && a.(appKey := b.appKey, categories := b.categories) != b ==>
                  op == Some(Update))
            && (a.IndexerIR? && b.IndexerIR? && a.(apiKey := b.apiKey, settings := b.settings) != b ==>
                  op == Some(Update))
  {
    ProwlarrSameDecides(current[k], desired[k]);
  }

  // ----- Prowlarr applications: categories -----

  /** What applicationsEqual tests of the current list `a` and the desired list `b`. */
  predicate Passes(a: seq<int>, b: seq<int>) {
    |a| == |b| && forall c :: c in b ==> c in a
  }

  /** The loops of applicationsEqual over the two category lists. */
  method CategoriesEqual(a: seq<int>, b: seq<int>) returns (same: bool)
    ensures same <==> Passes(a, b)
  {
    if |a| != |b| { return false; }
    var seen: set<int> := {};
    for i := 0 to |a|
      invariant seen == Elements(a[..i])
    {
      assert Elements(a[..i + 1]) == Elements(a[..i]) + {a[i]} by {
        assert a[..i + 1] == a[..i] + [a[i]];
      }
      seen := seen + {a[i]};
    }
    assert a[..|a|] == a;
    for i := 0 to |b|
      invariant forall j :: 0 <= j < i ==> b[j] in a
    {
      var c := b[i];
      assert c in b;
      assert c in seen <==> c in a;
      if c !in seen { return false; }
    }
    return true;
  }

  lemma SubsetOfSameSize<T>(a: set<T>, b: set<T>)
    requires a <= b && |a| == |b|
    ensures a == b
  {
    assert b == a + (b - a);
    assert |b| == |a| + |b - a|;
  }

  lemma {:induction false} ElementCount<T>(xs: seq<T>)
    ensures |Elements(xs)| <= |xs|
    ensures |Elements(xs)| == |xs| <==> Distinct(xs)
  {
    if xs != [] {
      var front, x := xs[..|xs| - 1], xs[|xs| - 1];
      ElementCount(front);
      assert xs == front + [x];
      assert Elements(xs) == Elements(front) + {x};
      if x in front {
        var i :| 0 <= i < |front| && front[i] == x;
        assert xs[i] == xs[|xs| - 1];
        assert Elements(xs) == Elements(front);
      }
    }
  }

  /** On duplicate-free categories of the desired side the test decides equality as sets, by counting. */
  lemma CategoriesDecideSets(a: seq<int>, b: seq<int>)
    requires Distinct(b)
    ensures Passes(a, b) <==> Distinct(a) && Elements(a) == Elements(b)
  {
    ElementCount(a);
    ElementCount(b);
    if |a| == |b| && forall c :: c in b ==> c in a {
      assert Elements(b) <= Elements(a);
      assert |Elements(b)| == |b| && |Elements(a)| <= |a|;
      SubsetCount(Elements(b), Elements(a));
      SubsetOfSameSize(Elements(b), Elements(a));
    }
    if Distinct(a) && Elements(a) == Elements(b) {
      forall c | c in b ensures c in a { assert c in Elements(b); }
    }
  }

  lemma SubsetCount<T>(a: set<T>, b: set<T>)
    requires a <= b
    ensures |a| <= |b|
  {
    assert b == a + (b - a);
  }

  /**
   * Exactly when the test means equality as sets, and exactly when it is symmetric: if the desired categories do
   * not repeat.
   */
  lemma CategoriesDecideIff(b: seq<int>)
    ensures (forall a :: Passes(a, b) ==> Elements(a) == Elements(b)) <==> Distinct(b)
    ensures (forall a :: Passes(a, b) ==> Passes(b, a)) <==> Distinct(b)
  {
    if Distinct(b) {
      forall a | Passes(a, b) ensures Elements(a) == Elements(b) && Passes(b, a) {
        CategoriesDecideSets(a, b);
        forall c | c in a ensures c in b { assert c in Elements(a); }
      }
    } else {
      var a, x := Impostor(b);
      assert Passes(a, b) && x in Elements(a) && x !in Elements(b) && !Passes(b, a);
    }
  }

  /** For repeated categories: a list that passes although it has a category they lack. */
  lemma Impostor(b: seq<int>) returns (a: seq<int>, x: int)
    requires !Distinct(b)
    ensures Passes(a, b) && x in a && x !in b
  {
    var i, j :| 0 <= i < j < |b| && b[i] == b[j];
    x := Unused(b);
    a := b[j := x];
    assert a[j] == x;
    forall c | c in b ensures c in a {
      var k :| 0 <= k < |b| && b[k] == c;
      assert a[if k == j then i else k] == c;
    }
  }

  lemma {:induction false} Unused(b: seq<int>) returns (x: int)
    ensures forall c :: c in b ==> c < x
  {
    x := 0;
    if b != [] {
      var last := |b| - 1;
      x := Unused(b[..last]);
      if b[last] >= x { x := b[last] + 1; }
      assert b == b[..last] + [b[last]];
    }
  }

  /** So an application compares as unchanged against categories that are not its own. */
  lemma CategoriesAsymmetric(current: Prowlarr.IR, desired: Prowlarr.IR)
    requires current.ApplicationIR? && desired == current && !Distinct(desired.categories)
    ensures exists a ::
              && Prowlarr.SameApplication(current.(categories := a), desired)
              && !Prowlarr.SameApplication(desired, current.(categories := a))
  {
    var a, x := Impostor(desired.categories);
    assert Prowlarr.SameApplication(current.(categories := a), desired);
  }

  // ----- Prowlarr indexers: settings -----

  /**
   * A comparison that passes has compared equal settings exactly if no current key is missing from the desired
   * side.
   */
  lemma SettingsEqualIff(a: Prowlarr.IR, b: Prowlarr.IR)
    requires a.IndexerIR? && b.IndexerIR? && Prowlarr.SameIndexer(a, b)
    ensures a.settings == b.settings <==> a.settings.Keys <= b.settings.Keys
    ensures (forall k :: k in a.settings ==> a.settings[k] != "") ==> a.settings == b.settings
  {
    if a.settings.Keys <= b.settings.Keys {
      assert |a.settings.Keys| == |b.settings.Keys|;
      SubsetOfSameSize(a.settings.Keys, b.settings.Keys);
      forall k | k in a.settings ensures b.settings[k] == a.settings[k] {
        assert Prowlarr.At(b.settings, k) == a.settings[k];
      }
    }
    if forall k :: k in a.settings ==> a.settings[k] != "" {
      forall k | k in a.settings ensures k in b.settings {
        assert Prowlarr.At(b.settings, k) == a.settings[k];
      }
    }
  }

  /** Exactly when the comparison means equality of settings: if the current ones have no empty value. */
  lemma SettingsDecideIff(a: Prowlarr.IR)
    requires a.IndexerIR?
    ensures (forall b: Prowlarr.IR :: b.IndexerIR? && Prowlarr.SameIndexer(a, b) ==> a.settings == b.settings) <==>
            forall k :: k in a.settings ==> a.settings[k] != ""
  {
    if k :| k in a.settings && a.settings[k] == "" {
      var b := EmptySettingHidesDrift(a, k);
      assert b.IndexerIR? && Prowlarr.SameIndexer(a, b) && a.settings != b.settings;
    } else {
      forall b: Prowlarr.IR | b.IndexerIR? && Prowlarr.SameIndexer(a, b) ensures a.settings == b.settings {
        SettingsEqualIff(a, b);
      }
    }
  }

  /** Any setting that is empty on the server hides drift: another setting may be wanted in its place. */
  lemma EmptySettingHidesDrift(a: Prowlarr.IR, k: string) returns (b: Prowlarr.IR)
    requires a.IndexerIR? && k in a.settings && a.settings[k] == ""
    ensures b.IndexerIR? && Prowlarr.SameIndexer(a, b) && k !in b.settings && b.settings.Keys - a.settings.Keys != {}
  {
    var other := UnusedKey(a.settings.Keys);
    b := a.(settings := (a.settings - {k})[other := "x"]);
    assert other in b.settings.Keys - a.settings.Keys;
    assert b.settings.Keys == a.settings.Keys - {k} + {other};
    assert |b.settings.Keys| == |a.settings.Keys|;
  }

  /** A key longer than all of them. */
  lemma {:induction false} UnusedKey(keys: set<string>) returns (key: string)
    ensures forall k :: k in keys ==> |k| < |key|
  {
    key := "x";
    if keys != {} {
      var k :| k in keys;
      key := UnusedKey(keys - {k});
      key := key + k + "x";
    }
  }

  // ----- Lidarr notifications -----

  lemma NotificationsEquivalence(w: Lidarr.Wire, a: Lidarr.IR, b: Lidarr.IR, c: Lidarr.IR)
    requires a.NotificationIR? && b.NotificationIR? && c.NotificationIR?
    ensures Lidarr.SameNotification(w, a, a)
    ensures Lidarr.SameNotification(w, a, b) ==> Lidarr.SameNotification(w, b, a)
    ensures Lidarr.SameNotification(w, a, b) && Lidarr.SameNotification(w, b, c) ==> Lidarr.SameNotification(w, a, c)
  {
    if Lidarr.SameNotification(w, a, b) {
      assert a.fields.Keys <= b.fields.Keys && |a.fields.Keys| == |b.fields.Keys|;
      SubsetOfSameSize(a.fields.Keys, b.fields.Keys);
    }
  }

  /** The same for Lidarr: another contract, or a field that prints alike, is not noticed; everything else is. */
  lemma LidarrDriftIsUpdated<K>(kd: Kind<Lidarr.RType, Lidarr.IR, Lidarr.Body>, w: Lidarr.Wire,
                                current: map<K, Lidarr.IR>, desired: map<K, Lidarr.IR>, k: K)
    requires Alike(kd, Lidarr.LidarrKind(w)) && k in current && k in desired
    ensures var a, b, op := current[k], desired[k], PendingOp(kd, current, desired, k);
            && (a.CustomFormatIR? && b.CustomFormatIR? ==> op == if a == b then None else Some(Update))
            && (a.NotificationIR? && b.NotificationIR? ==>
                  op == if a.implementation == b.implementation && a.events == b.events
                           && a.fields.Keys == b.fields.Keys
                           && forall n :: n in a.fields ==> Lidarr.Show(w, a.fields[n]) == Lidarr.Show(w, b.fields[n])
                        then None else Some(Update))
  {
    LidarrSameDecides(w, current[k], desired[k]);
  }

  // ----- Custom formats, as the shared comparer sees them -----

  function ByName(specs: seq<Lidarr.Spec>): map<string, Lidarr.Spec> {
    Index(seq(|specs|, i requires 0 <= i < |specs| => (specs[i].name, specs[i])))
  }

  /** CustomFormatsEqual of the shared diff: look every desired specification up in the current ones by name. */
  predicate SharedSame(currentName: string, current: Lidarr.IR, desiredName: string, desired: Lidarr.IR)
    requires current.CustomFormatIR? && desired.CustomFormatIR?
  {
    && currentName == desiredName && current.includeWhenRenaming == desired.includeWhenRenaming
    && |current.specs| == |desired.specs|
    && forall i :: 0 <= i < |desired.specs| ==>
         desired.specs[i].name in ByName(current.specs) &&
             ByName(current.specs)[desired.specs[i].name] == desired.specs[i]
  }

  method CustomFormatsEqual(currentName: string, current: Lidarr.IR, desiredName: string,
                            desired: Lidarr.IR) returns (same: bool)
    requires current.CustomFormatIR? && desired.CustomFormatIR?
    ensures same <==> SharedSame(currentName, current, desiredName, desired)
  {
    if currentName != desiredName || current.includeWhenRenaming != desired.includeWhenRenaming
       || |current.specs| != |desired.specs| {
      return false;
    }
    var byName: map<string, Lidarr.Spec> := map[];
    ghost var entries := seq(|current.specs|,
                             i requires 0 <= i < |current.specs| => (current.specs[i].name, current.specs[i]));
    for i := 0 to |current.specs|
      invariant byName == Index(entries[..i])
    {
      assert entries[..i + 1][..i] == entries[..i];
      byName := byName[current.specs[i].name := current.specs[i]];
    }
    assert entries[..|entries|] == entries;
    for i := 0 to |desired.specs|
      invariant forall j :: 0 <= j < i ==>
                  desired.specs[j].name in byName && byName[desired.specs[j].name] == desired.specs[j]
    {
      var spec := desired.specs[i];
      if spec.name !in byName || byName[spec.name] != spec { return false; }
    }
    return true;
  }

  ghost predicate DistinctNames(specs: seq<Lidarr.Spec>) {
    forall i, j :: 0 <= i < j < |specs| ==> specs[i].name != specs[j].name
  }

  ghost predicate SameNameSameSpec(specs: seq<Lidarr.Spec>) {
    forall s, t :: s in specs && t in specs && s.name == t.name ==> s == t
  }

  lemma ByNameMembers(specs: seq<Lidarr.Spec>)
    ensures forall s :: s in specs ==> s.name in ByName(specs)
    ensures forall n :: n in ByName(specs) ==> ByName(specs)[n] in specs && ByName(specs)[n].name == n
  {
    var entries := seq(|specs|, i requires 0 <= i < |specs| => (specs[i].name, specs[i]));
    IndexMembers(entries);
    forall s | s in specs ensures s.name in ByName(specs) {
      var i :| 0 <= i < |specs| && specs[i] == s;
      assert entries[i].0 == s.name;
    }
    forall n | n in ByName(specs) ensures ByName(specs)[n] in specs && ByName(specs)[n].name == n {
      var i :| 0 <= i < |entries| && entries[i] == (n, ByName(specs)[n]);
      assert entries[i].1 == specs[i];
    }
  }

  /** With distinct names on the desired side the shared comparer is equality up to the order of specifications. */
  lemma SharedDecidesReordering(n: string, current: Lidarr.IR, desired: Lidarr.IR)
    requires current.CustomFormatIR? && desired.CustomFormatIR? && DistinctNames(desired.specs)
    ensures SharedSame(n, current, n, desired) <==>
            current.includeWhenRenaming == desired.includeWhenRenaming &&
                multiset(current.specs) == multiset(desired.specs)
  {
    var cur, des := current.specs, desired.specs;
    ByNameMembers(cur);
    ElementCount(cur);
    ElementCount(des);
    if SharedSame(n, current, n, desired) {
      forall s | s in des ensures s in cur {
        var i :| 0 <= i < |des| && des[i] == s;
      }
      assert Elements(des) <= Elements(cur);
      SubsetCount(Elements(des), Elements(cur));
      SubsetOfSameSize(Elements(des), Elements(cur));
      SameElementsSameMultiset(cur, des);
    }
    if multiset(cur) == multiset(des) {
      assert |cur| == |multiset(cur)| == |multiset(des)| == |des|;
      forall i | 0 <= i < |des|
        ensures des[i].name in ByName(cur) && ByName(cur)[des[i].name] == des[i]
      {
        assert des[i] in multiset(cur);
        var found := ByName(cur)[des[i].name];
        assert found in multiset(des);
        var j :| 0 <= j < |des| && des[j] == found;
      }
    }
  }

  lemma {:induction false} DistinctMultiplicity<T>(xs: seq<T>, x: T)
    requires Distinct(xs)
    ensures multiset(xs)[x] == if x in xs then 1 else 0
  {
    if xs != [] {
      var front, y := xs[..|xs| - 1], xs[|xs| - 1];
      assert xs == front + [y];
      DistinctMultiplicity(front, x);
    }
  }

  lemma SameElementsSameMultiset<T>(xs: seq<T>, ys: seq<T>)
    requires Distinct(xs) && Distinct(ys) && Elements(xs) == Elements(ys)
    ensures multiset(xs) == multiset(ys)
  {
    forall x ensures multiset(xs)[x] == multiset(ys)[x] {
      DistinctMultiplicity(xs, x);
      DistinctMultiplicity(ys, x);
      assert x in xs <==> x in Elements(xs);
      assert x in ys <==> x in Elements(ys);
    }
  }

  /**
   * Lidarr's positional comparer implies the shared one exactly if specifications that share
   * a name are identical; otherwise the shared comparer rejects even a format against itself.
   */
  lemma PositionalImpliesSharedIff(n: string, a: Lidarr.IR, b: Lidarr.IR)
    requires a.CustomFormatIR? && b.CustomFormatIR? && Lidarr.SameCustomFormat(a, b)
    ensures SharedSame(n, a, n, b) <==> SameNameSameSpec(a.specs)
  {
    ByNameMembers(a.specs);
    assert a.specs == b.specs;
    if SharedSame(n, a, n, b) {
      forall s, t | s in a.specs && t in a.specs && s.name == t.name ensures s == t {
        var i :| 0 <= i < |b.specs| && b.specs[i] == s;
        var j :| 0 <= j < |b.specs| && b.specs[j] == t;
        assert ByName(a.specs)[s.name] == s && ByName(a.specs)[t.name] == t;
      }
    }
    if SameNameSameSpec(a.specs) {
      forall i | 0 <= i < |b.specs|
        ensures b.specs[i].name in ByName(a.specs) && ByName(a.specs)[b.specs[i].name] == b.specs[i]
      {
        assert b.specs[i] in a.specs;
      }
    }
  }

  /** A format is unequal to itself exactly if two of its specifications share a name and differ. */
  lemma SharedRejectsItself(n: string, a: Lidarr.IR)
    requires a.CustomFormatIR?
    ensures !SharedSame(n, a, n, a) <==>
            exists s, t :: s in a.specs && t in a.specs && s.name == t.name && s != t
  {
    PositionalImpliesSharedIff(n, a, a);
  }
}

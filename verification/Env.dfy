/**
 * The environment of the Gluetun container and the text whose hash detects that it changed:
 * keys sorted, one key=value line each. SHA-256 is not modelled; the facts are about the text.
 */
module Env {
  import opened Common

  type Env = map<string, string>

  // ----- The order of strings -----

  predicate Less(a: string, b: string) {
    b != "" && (a == "" || a[0] < b[0] || (a[0] == b[0] && Less(a[1..], b[1..])))
  }

  lemma {:induction false} LessTotal(a: string, b: string)
    ensures Less(a, b) || a == b || Less(b, a)
    ensures !(Less(a, b) && Less(b, a)) && !Less(a, a)
  {
    if a != "" && b != "" {
      LessTotal(a[1..], b[1..]);
      assert a[0] == b[0] && a[1..] == b[1..] ==> a == b by {
        assert a == [a[0]] + a[1..] && b == [b[0]] + b[1..];
      }
    }
    if a != "" {
      LessTotal(a[1..], a[1..]);
    }
  }

  lemma {:induction false} LessTransitive(a: string, b: string, c: string)
    requires Less(a, b) && Less(b, c)
    ensures Less(a, c)
  {
    if a != "" && a[0] == b[0] && b[0] == c[0] {
      LessTransitive(a[1..], b[1..], c[1..]);
    }
  }

  lemma {:induction false} LessAfterPrefix(p: string, a: string, b: string)
    ensures Less(p + a, p + b) <==> Less(a, b)
  {
    if p == "" {
      assert p + a == a && p + b == b;
    } else {
      assert (p + a)[1..] == p[1..] + a && (p + b)[1..] == p[1..] + b;
      LessAfterPrefix(p[1..], a, b);
    }
  }

  /** The first character that differs decides, and a prefix comes first. */
  lemma FirstDifferenceDecides(p: string, c: char, a: string, d: char, b: string)
    ensures c < d ==> Less(p + ([c] + a), p + ([d] + b))
    ensures Less(p, p + ([c] + a))
  {
    LessAfterPrefix(p, [c] + a, [d] + b);
    LessAfterPrefix(p, "", [c] + a);
    assert p + "" == p;
  }

  /** Strictly ascending, so without repetition. */
  predicate Ascending(keys: seq<string>) {
    forall i, j :: 0 <= i < j < |keys| ==> Less(keys[i], keys[j])
  }

  predicate Least(keys: set<string>, a: string) {
    a in keys && forall b :: b in keys ==> b == a || Less(a, b)
  }

  lemma {:induction false} HasLeast(keys: set<string>)
    requires keys != {}
    ensures exists a :: Least(keys, a)
  {
    var a :| a in keys;
    var rest := keys - {a};
    if rest == {} {
      assert keys == {a};
      assert Least(keys, a);
    } else {
      HasLeast(rest);
      var b :| Least(rest, b);
      LessTotal(a, b);
      forall c | c in rest && Less(a, b) ensures Less(a, c) {
        if c != b { LessTransitive(a, b, c); }
      }
      assert Least(keys, if Less(a, b) then a else b);
    }
  }

  lemma LeastIsUnique(keys: set<string>)
    ensures forall a, b :: Least(keys, a) && Least(keys, b) ==> a == b
  {
    forall a, b | Least(keys, a) && Least(keys, b) ensures a == b { LessTotal(a, b); }
  }

  /** The keys in ascending order. */
  function InOrder(keys: set<string>): (order: seq<string>)
    ensures Elements(order) == keys && forall x :: x in order <==> x in keys
  {
    if keys == {} then []
    else
      HasLeast(keys);
      LeastIsUnique(keys);
      var a :| a in keys && Least(keys, a);
      var rest := InOrder(keys - {a});
      assert forall x :: x in [a] + rest <==> x in keys;
      [a] + rest
  }

  /** Only one ascending list has a given set of elements. */
  lemma {:induction false} AscendingIsUnique(a: seq<string>, b: seq<string>)
    requires Ascending(a) && Ascending(b) && Elements(a) == Elements(b)
    ensures a == b
  {
    NonEmpty(a);
    NonEmpty(b);
    if a != [] && b != [] {
      assert a[0] == b[0] by {
        assert a[0] in Elements(b) && b[0] in Elements(a);
        var i :| 0 <= i < |b| && b[i] == a[0];
        var j :| 0 <= j < |a| && a[j] == b[0];
        LessTotal(a[0], b[0]);
      }
      LessTotal(a[0], a[0]);
      forall x ensures x in Elements(a[1..]) <==> x in Elements(b[1..]) {
        assert x in Elements(a[1..]) <==> x in Elements(a) && x != a[0] by { HeadApart(a, x); }
        assert x in Elements(b[1..]) <==> x in Elements(b) && x != b[0] by { HeadApart(b, x); }
      }
      AscendingIsUnique(a[1..], b[1..]);
      assert a == [a[0]] + a[1..] && b == [b[0]] + b[1..];
    }
  }

  lemma NonEmpty(xs: seq<string>)
    ensures Elements(xs) == {} <==> xs == []
  {
    if xs != [] { assert xs[0] in Elements(xs); }
  }

  lemma HeadApart(a: seq<string>, x: string)
    requires Ascending(a) && a != []
    ensures x in a[1..] <==> x in a && x != a[0]
  {
    LessTotal(a[0], a[0]);
    assert a == [a[0]] + a[1..];
  }

  /** Two elements with nothing in between are next to each other. */
  lemma Adjacent(keys: seq<string>, a: string, b: string) returns (k: nat)
    requires Ascending(keys) && a in keys && b in keys && Less(a, b)
    requires forall x :: x in keys ==> !(Less(a, x) && Less(x, b))
    ensures k + 1 < |keys| && keys[k] == a && keys[k + 1] == b
  {
    k :| 0 <= k < |keys| && keys[k] == a;
    var m :| 0 <= m < |keys| && keys[m] == b;
    LessTotal(a, b);
    assert k < m;
    forall i | k < i < m ensures !(Less(a, keys[i]) && Less(keys[i], b)) {
      assert keys[i] in keys;
    }
    NothingInside(keys, k, m);
  }

  lemma NothingInside(keys: seq<string>, k: nat, m: nat)
    requires Ascending(keys) && k < m < |keys|
    ensures k + 1 < m ==> Less(keys[k], keys[k + 1]) && Less(keys[k + 1], keys[m])
  {
  }

  /** Sorts in place, by insertion. */
  method SortStrings(keys: array<string>)
    requires Distinct(keys[..])
    modifies keys
    ensures Ascending(keys[..]) && Elements(keys[..]) == Elements(old(keys[..]))
  {
    ghost var before := keys[..];
    var sorted: seq<string> := [];
    for i := 0 to keys.Length
      invariant keys[..] == before && |sorted| == i
      invariant Ascending(sorted) && Elements(sorted) == Elements(before[..i])
    {
      assert before[..i + 1] == before[..i] + [before[i]];
      assert keys[i] !in Elements(sorted) by {
        assert keys[i] == before[i];
      }
      sorted := Insert(sorted, keys[i]);
    }
    assert before[..keys.Length] == before;
    forall i | 0 <= i < keys.Length { keys[i] := sorted[i]; }
    assert keys[..] == sorted;
  }

  function Insert(sorted: seq<string>, key: string): (r: seq<string>)
    requires Ascending(sorted) && key !in Elements(sorted)
    ensures Ascending(r) && Elements(r) == Elements(sorted) + {key} && |r| == |sorted| + 1
  {
    if sorted == [] then [key]
    else if Less(key, sorted[0]) then
      InFront(key, sorted);
      [key] + sorted
    else
      LessTotal(key, sorted[0]);
      HeadApart(sorted, key);
      var rest := Insert(sorted[1..], key);
      Prepend(sorted, rest, key);
      [sorted[0]] + rest
  }

  lemma InFront(key: string, sorted: seq<string>)
    requires Ascending(sorted) && sorted != [] && Less(key, sorted[0])
    ensures Ascending([key] + sorted) && Elements([key] + sorted) == Elements(sorted) + {key}
  {
    forall j | 0 < j < |sorted| ensures Less(key, sorted[j]) {
      LessTransitive(key, sorted[0], sorted[j]);
    }
  }

  lemma Prepend(sorted: seq<string>, rest: seq<string>, key: string)
    requires Ascending(sorted) && sorted != [] && Less(sorted[0], key)
    requires Ascending(rest) && Elements(rest) == Elements(sorted[1..]) + {key}
    ensures Ascending([sorted[0]] + rest) && Elements([sorted[0]] + rest) == Elements(sorted) + {key}
  {
    forall j | 0 <= j < |rest| ensures Less(sorted[0], rest[j]) {
      assert rest[j] in Elements(rest);
      if rest[j] != key {
        var k :| 0 <= k < |sorted[1..]| && sorted[1..][k] == rest[j];
        assert Less(sorted[0], sorted[k + 1]);
      }
    }
    assert sorted == [sorted[0]] + sorted[1..];
    assert Elements(sorted) == {sorted[0]} + Elements(sorted[1..]);
    assert Elements([sorted[0]] + rest) == {sorted[0]} + Elements(rest);
  }

  // ----- Printing -----

  function Line(key: string, value: string): string {
    key + "=" + value + "\n"
  }

  function Lines(keys: seq<string>, env: Env): string
    requires Elements(keys) <= env.Keys
  {
    if keys == [] then ""
    else
      assert keys[0] in Elements(keys);
      Line(keys[0], env[keys[0]]) + Lines(keys[1..], env)
  }

  ghost predicate IsText(env: Env, text: string) {
    exists keys :: Ascending(keys) && Elements(keys) == env.Keys && text == Lines(keys, env)
  }

  /** The keys in whatever order the map is walked. */
  method CollectKeys(env: Env) returns (keys: seq<string>)
    ensures Distinct(keys) && Elements(keys) == env.Keys
  {
    keys := [];
    var todo := env.Keys;
    while todo != {}
      invariant todo <= env.Keys && Distinct(keys) && Elements(keys) == env.Keys - todo
    {
      var k := Pick(todo);
      assert k !in Elements(keys);
      assert Elements(keys + [k]) == Elements(keys) + {k};
      keys, todo := keys + [k], todo - {k};
    }
  }

  /** The text hashed: whatever order the map is walked in, one text only qualifies (see TextIsUnique). */
  method HashText(env: Env) returns (text: string)
    ensures IsText(env, text)
  {
    var walk := CollectKeys(env);
    var keys := new string[|walk|](i requires 0 <= i < |walk| => walk[i]);
    assert keys[..] == walk;
    SortStrings(keys);
    text := Print(keys[..], env);
  }

  method Print(keys: seq<string>, env: Env) returns (text: string)
    requires Elements(keys) <= env.Keys
    ensures text == Lines(keys, env)
  {
    text := "";
    for i := 0 to |keys|
      invariant Elements(keys[..i]) <= env.Keys && text == Lines(keys[..i], env)
    {
      assert keys[i] in Elements(keys);
      assert keys[..i + 1] == keys[..i] + [keys[i]];
      LinesAppend(keys[..i], keys[i], env);
      text := text + keys[i] + "=" + env[keys[i]] + "\n";
    }
    assert keys[..|keys|] == keys;
  }

  lemma {:induction false} LinesAppend(keys: seq<string>, key: string, env: Env)
    requires Elements(keys) <= env.Keys && key in env && Elements(keys + [key]) <= env.Keys
    ensures Lines(keys + [key], env) == Lines(keys, env) + key + "=" + env[key] + "\n"
  {
    if keys != [] {
      assert (keys + [key])[1..] == keys[1..] + [key];
      LinesAppend(keys[1..], key, env);
    }
  }

  /** In full: one line for each key, in ascending order, of the key, an equals sign, the value and a newline. */
  lemma {:induction false} TextIsLines(env: Env, keys: seq<string>, lines: seq<string>)
    requires Ascending(keys) && Elements(keys) == env.Keys && |lines| == |keys|
    requires forall i :: 0 <= i < |keys| ==> keys[i] in env && lines[i] == keys[i] + "=" + env[keys[i]] + "\n"
    ensures IsText(env, Concat(lines))
  {
    ConcatIsLines(env, keys, lines);
  }

  function Concat(parts: seq<string>): string {
    if parts == [] then "" else parts[0] + Concat(parts[1..])
  }

  lemma {:induction false} ConcatIsLines(env: Env, keys: seq<string>, lines: seq<string>)
    requires Elements(keys) <= env.Keys && |lines| == |keys|
    requires forall i :: 0 <= i < |keys| ==> keys[i] in env && lines[i] == keys[i] + "=" + env[keys[i]] + "\n"
    ensures Lines(keys, env) == Concat(lines)
  {
    if keys != [] {
      assert Elements(keys[1..]) <= Elements(keys);
      ConcatIsLines(env, keys[1..], lines[1..]);
    }
  }

  /** The text depends on the map alone, not on the order in which its keys are met. */
  lemma TextIsUnique(env: Env, a: string, b: string)
    requires IsText(env, a) && IsText(env, b)
    ensures a == b
  {
    var j :| Ascending(j) && Elements(j) == env.Keys && a == Lines(j, env);
    var k :| Ascending(k) && Elements(k) == env.Keys && b == Lines(k, env);
    AscendingIsUnique(j, k);
  }

  // ----- Parsing back -----

  /** Everything before the first `c`, and everything after it; None without one. */
  function Cut(s: string, c: char): (r: Option<(string, string)>)
    ensures r.Some? ==> s == r.value.0 + [c] + r.value.1 && c !in r.value.0
    ensures r.None? <==> c !in s
  {
    if s == "" then None
    else if s[0] == c then Some(("", s[1..]))
    else match Cut(s[1..], c)
      case None => None
      case Some(p) =>
        assert s == [s[0]] + s[1..];
        Some(([s[0]] + p.0, p.1))
  }

  lemma {:induction false} CutAt(before: string, c: char, after: string)
    requires c !in before
    ensures Cut(before + [c] + after, c) == Some((before, after))
  {
    var s := before + [c] + after;
    if before != "" {
      CutAt(before[1..], c, after);
      assert s[1..] == before[1..] + [c] + after;
      assert before == [before[0]] + before[1..];
    }
  }

  function Parse(text: string): Env
    decreases |text|
  {
    match Cut(text, '\n')
    case None => map[]
    case Some(line) =>
      match Cut(line.0, '=')
      case None => Parse(line.1)
      case Some(pair) => Parse(line.1)[pair.0 := pair.1]
  }

  predicate SafeKeys(env: Env) {
    forall k :: k in env ==> '=' !in k && '\n' !in k
  }

  predicate SafeValues(env: Env) {
    forall k :: k in env ==> '\n' !in env[k]
  }

  lemma {:induction false} ParseLines(keys: seq<string>, env: Env)
    requires SafeKeys(env) && SafeValues(env) && Elements(keys) <= env.Keys
    ensures Parse(Lines(keys, env)) == map k | k in Elements(keys) :: env[k]
  {
    if keys != [] {
      assert keys[0] in Elements(keys) && keys == [keys[0]] + keys[1..];
      ParseLines(keys[1..], env);
      ParseLine(keys[0], env[keys[0]], Lines(keys[1..], env));
    }
  }

  lemma ParseLine(key: string, value: string, rest: string)
    requires '=' !in key && '\n' !in key && '\n' !in value
    ensures Parse(Line(key, value) + rest) == Parse(rest)[key := value]
  {
    var line := key + ['='] + value;
    assert Line(key, value) + rest == line + ['\n'] + rest;
    CutAt(line, '\n', rest);
    CutAt(key, '=', value);
  }

  /** Printing can be undone if no key holds '=' or a newline and no value a newline. */
  lemma ParseUndoesPrinting(env: Env, text: string)
    requires SafeKeys(env) && SafeValues(env) && IsText(env, text)
    ensures Parse(text) == env
  {
    var keys :| Ascending(keys) && Elements(keys) == env.Keys && text == Lines(keys, env);
    ParseLines(keys, env);
  }

  /** So for such environments the text changes exactly when the environment does. */
  lemma TextDecidesEquality(a: Env, b: Env, ta: string, tb: string)
    requires SafeKeys(a) && SafeValues(a) && SafeKeys(b) && SafeValues(b)
    requires IsText(a, ta) && IsText(b, tb)
    ensures ta == tb <==> a == b
  {
    ParseUndoesPrinting(a, ta);
    ParseUndoesPrinting(b, tb);
    if a == b { TextIsUnique(a, ta, tb); }
  }

  /** The environment in which the value of `first` swallows the line of `second`. */
  function Swallow(env: Env, first: string, second: string): Env
    requires first in env && second in env
  {
    (env - {second})[first := env[first] + "\n" + second + "=" + env[second]]
  }

  /**
   * The condition on values cannot be dropped: any two variables that are next to each other in the order can be
   * merged into one without a trace in the text. So every environment of two or more variables shares its text with
   * a smaller one.
   */
  lemma SwallowedLineGoesUnnoticed(env: Env, keys: seq<string>, k: nat)
    requires Ascending(keys) && Elements(keys) == env.Keys && k + 1 < |keys|
    ensures keys[k] in env && keys[k + 1] in env
    ensures var smaller := Swallow(env, keys[k], keys[k + 1]);
            smaller != env && smaller.Keys < env.Keys && IsText(smaller, Lines(keys, env)) && !SafeValues(smaller)
  {
    assert keys[k] in Elements(keys) && keys[k + 1] in Elements(keys);
    LessTotal(keys[k], keys[k + 1]);
    SwallowIsSmaller(env, keys[k], keys[k + 1]);
    DropOne(keys, k + 1);
    LinesOfKept(env, keys, k, keys[..k + 1] + keys[k + 2..]);
  }

  lemma LinesOfKept(env: Env, keys: seq<string>, k: nat, kept: seq<string>)
    requires Ascending(keys) && Elements(keys) <= env.Keys && k + 1 < |keys| && keys[k] in env && keys[k + 1] in env
    requires kept == keys[..k + 1] + keys[k + 2..] && Elements(kept) <= Swallow(env, keys[k], keys[k + 1]).Keys
    ensures Lines(kept, Swallow(env, keys[k], keys[k + 1])) == Lines(keys, env)
  {
    var before, first, second, rest := keys[..k], keys[k], keys[k + 1], keys[k + 2..];
    NotElsewhere(keys, k);
    assert keys == before + ([first, second] + rest) && kept == before + ([first] + rest);
    LinesSwallowed(env, before, first, second, rest);
  }

  lemma NotElsewhere(keys: seq<string>, k: nat)
    requires Ascending(keys) && k + 1 < |keys|
    ensures keys[k] != keys[k + 1] && Elements(keys[..k]) <= Elements(keys) && Elements(keys[k + 2..]) <= Elements(keys)
    ensures keys[k] !in keys[..k] && keys[k + 1] !in keys[..k] && keys[k] !in keys[k + 2..]
    ensures keys[k + 1] !in keys[k + 2..]
  {
    LessTotal(keys[k], keys[k]);
    LessTotal(keys[k + 1], keys[k + 1]);
  }

  lemma SwallowIsSmaller(env: Env, first: string, second: string)
    requires first in env && second in env && first != second
    ensures var smaller := Swallow(env, first, second);
            smaller != env && smaller.Keys == env.Keys - {second} && smaller.Keys < env.Keys && !SafeValues(smaller)
  {
    var smaller := Swallow(env, first, second);
    assert second in env && second !in smaller;
    assert smaller[first][|env[first]|] == '\n';
  }

  lemma DropOne(keys: seq<string>, k: nat)
    requires Ascending(keys) && k < |keys|
    ensures Ascending(keys[..k] + keys[k + 1..])
    ensures Elements(keys[..k] + keys[k + 1..]) == Elements(keys) - {keys[k]}
  {
    var kept := keys[..k] + keys[k + 1..];
    assert forall i :: 0 <= i < |kept| ==> kept[i] == keys[if i < k then i else i + 1];
    forall i | 0 <= i < |keys| && i != k ensures keys[i] in kept && keys[i] != keys[k] {
      LessTotal(keys[i], keys[k]);
      assert keys[i] == kept[if i < k then i else i - 1];
    }
    forall i | 0 <= i < |kept| ensures kept[i] in keys {}
  }

  lemma {:induction false} LinesSwallowed(env: Env, before: seq<string>, first: string, second: string,
                                          rest: seq<string>)
    requires first in env && second in env && first != second && Elements(before) <= env.Keys
    requires Elements(rest) <= env.Keys
    requires first !in before && second !in before && first !in rest && second !in rest
    ensures Elements(before + ([first, second] + rest)) <= env.Keys
    ensures Elements(before + ([first] + rest)) <= Swallow(env, first, second).Keys
    ensures Lines(before + ([first] + rest), Swallow(env, first, second)) == Lines(before + ([first, second] + rest),
                                                                                   env)
  {
    var smaller := Swallow(env, first, second);
    FirstSwallowed(env, first, second, rest);
    if before == [] {
      assert before + ([first] + rest) == [first] + rest && before + ([first, second] + rest) == [first, second] + rest;
    } else {
      var key, tail := before[0], before[1..];
      assert key in Elements(before) && Elements(tail) <= Elements(before);
      LinesSwallowed(env, tail, first, second, rest);
      LinesCons(key, tail + ([first, second] + rest), env);
      LinesCons(key, tail + ([first] + rest), smaller);
      assert before + ([first] + rest) == [key] + (tail + ([first] + rest));
      assert before + ([first, second] + rest) == [key] + (tail + ([first, second] + rest));
    }
  }

  lemma FirstSwallowed(env: Env, first: string, second: string, rest: seq<string>)
    requires first in env && second in env && first != second
    requires Elements(rest) <= env.Keys && first !in rest && second !in rest
    ensures Elements([first, second] + rest) <= env.Keys
    ensures Elements([first] + rest) <= Swallow(env, first, second).Keys
    ensures Lines([first] + rest, Swallow(env, first, second)) == Lines([first, second] + rest, env)
  {
    var smaller := Swallow(env, first, second);
    forall x | x in rest ensures x in env.Keys && x in smaller.Keys { assert x in Elements(rest); }
    assert Elements(rest) <= smaller.Keys;
    LinesAgree(rest, env, smaller, first);
    LinesCons(second, rest, env);
    LinesCons(first, [second] + rest, env);
    assert [first] + ([second] + rest) == [first, second] + rest;
    LinesCons(first, rest, smaller);
    LineSwallowed(first, env[first], second, env[second], Lines(rest, env));
  }

  lemma LinesCons(key: string, rest: seq<string>, env: Env)
    requires key in env && Elements(rest) <= env.Keys
    ensures Elements([key] + rest) <= env.Keys
    ensures Lines([key] + rest, env) == Line(key, env[key]) + Lines(rest, env)
  {
    assert Elements([key] + rest) == {key} + Elements(rest);
    assert ([key] + rest)[1..] == rest;
  }

  lemma LineSwallowed(first: string, v: string, second: string, w: string, rest: string)
    ensures Line(first, v) + (Line(second, w) + rest) == Line(first, v + "\n" + second + "=" + w) + rest
  {
    assert Line(first, v) + Line(second, w) == Line(first, v + "\n" + second + "=" + w);
  }

  lemma {:induction false} LinesAgree(keys: seq<string>, a: Env, b: Env, first: string)
    requires Elements(keys) <= a.Keys && Elements(keys) <= b.Keys && first !in Elements(keys)
    requires forall k :: k in a && k in b && k != first ==> a[k] == b[k]
    ensures Lines(keys, a) == Lines(keys, b)
  {
    if keys != [] {
      assert keys[0] in Elements(keys);
      assert keys == [keys[0]] + keys[1..];
      LinesAgree(keys[1..], a, b, first);
    }
  }

  // ----- Environments whose variables have names -----

  /** `env` with its variables spelled out by their names. */
  ghost predicate SpellsBy<V(!new)>(name: V -> string, env: map<V, string>, spelled: Env) {
    && (forall v :: v in env ==> name(v) in spelled && spelled[name(v)] == env[v])
    && (forall k :: k in spelled ==> exists v :: v in env && name(v) == k)
  }

  /** `w` merged into `v`. */
  ghost function MergedBy<V>(name: V -> string, env: map<V, string>, v: V, w: V): map<V, string>
    requires v in env && w in env
  {
    (env - {w})[v := env[v] + "\n" + name(w) + "=" + env[w]]
  }

  /** Merging is swallowing, spelled out. */
  lemma MergeSpelled<V(!new)>(name: V -> string, env: map<V, string>, spelled: Env, v: V, w: V)
    requires SpellsBy(name, env, spelled) && v in env && w in env && v != w && forall a, b :: name(a) == name(b) ==>
               a == b
    ensures name(v) in spelled && name(w) in spelled
    ensures SpellsBy(name, MergedBy(name, env, v, w), Swallow(spelled, name(v), name(w)))
  {
    var merged, smaller := MergedBy(name, env, v, w), Swallow(spelled, name(v), name(w));
    forall k | k in smaller ensures exists u :: u in merged && name(u) == k {
      var u :| u in env && name(u) == k;
      assert u in merged;
    }
  }

  /** Names tell variables apart, and no name comes between those of `v` and `w`. */
  ghost predicate Neighbours<V(!new)>(name: V -> string, v: V, w: V) {
    && (forall a, b :: name(a) == name(b) ==> a == b)
    && Less(name(v), name(w)) && forall u :: !(Less(name(v), name(u)) && Less(name(u), name(w)))
  }

  /** If no name comes between those of `v` and `w`, the text cannot tell their merger. */
  lemma MergeGoesUnnoticed<V(!new)>(name: V -> string, env: map<V, string>, spelled: Env, v: V, w: V, text: string)
    requires SpellsBy(name, env, spelled) && v in env && w in env && v != w && Neighbours(name, v, w)
    requires IsText(spelled, text)
    ensures exists smaller :: SpellsBy(name, MergedBy(name, env, v, w), smaller) && IsText(smaller, text)
  {
    var keys :| Ascending(keys) && Elements(keys) == spelled.Keys && text == Lines(keys, spelled);
    MergeSpelled(name, env, spelled, v, w);
    assert name(v) in Elements(keys) && name(w) in Elements(keys);
    forall x | x in keys ensures !(Less(name(v), x) && Less(x, name(w))) {
      assert x in Elements(keys);
    }
    var k := Adjacent(keys, name(v), name(w));
    SwallowedLineGoesUnnoticed(spelled, keys, k);
  }
}

/** Small definitions that several components share. */
module Common {
  datatype Option<+T> = None | Some(value: T)

  /** The map a Go loop `m[key] = value` builds from a list: the last entry of a key wins. */
  function Index<K, V>(entries: seq<(K, V)>): map<K, V> {
    if entries == [] then map[]
    else Index(entries[..|entries| - 1])[entries[|entries| - 1].0 := entries[|entries| - 1].1]
  }

  lemma {:induction false} IndexMembers<K, V>(entries: seq<(K, V)>)
    ensures forall i :: 0 <= i < |entries| ==> entries[i].0 in Index(entries)
    ensures forall k :: k in Index(entries) ==> (k, Index(entries)[k]) in entries
  {
    if entries != [] {
      IndexMembers(entries[..|entries| - 1]);
    }
  }

  /** The last entry of a key is what the key stands for; a key without an entry stands for nothing. */
  lemma {:induction false} LastWins<K, V>(entries: seq<(K, V)>, k: K)
    ensures k in Index(entries) <==> exists i :: 0 <= i < |entries| && entries[i].0 == k
    ensures forall i ::
              && 0 <= i < |entries| && entries[i].0 == k
              && (forall j :: i < j < |entries| ==> entries[j].0 != k) ==>
                k in Index(entries) && Index(entries)[k] == entries[i].1
  {
    if entries != [] {
      LastWins(entries[..|entries| - 1], k);
    }
  }

  method BuildIndex<K(==), V>(entries: seq<(K, V)>) returns (m: map<K, V>)
    ensures m == Index(entries)
  {
    m := map[];
    for i := 0 to |entries|
      invariant m == Index(entries[..i])
    {
      assert entries[..i + 1][..i] == entries[..i];
      m := m[entries[i].0 := entries[i].1];
    }
    assert entries[..|entries|] == entries;
  }

  predicate Distinct<T(==)>(xs: seq<T>) {
    forall i, j :: 0 <= i < j < |xs| ==> xs[i] != xs[j]
  }

  function Elements<T>(xs: seq<T>): set<T> {
    set x | x in xs
  }

  lemma {:induction false} DistinctCount<T>(xs: seq<T>)
    requires Distinct(xs)
    ensures |Elements(xs)| == |xs|
  {
    if xs == [] {
    } else {
      var rest := xs[1..];
      DistinctCount(rest);
      assert Elements(xs) == Elements(rest) + {xs[0]};
      assert xs[0] !in rest;
    }
  }

  /** The positions, among the first `n`, of what holds. */
  ghost function Where(flags: seq<bool>, n: nat): set<int>
    requires n <= |flags|
  {
    set i | 0 <= i < n && flags[i]
  }

  lemma WhereStep(flags: seq<bool>, n: nat)
    requires n < |flags|
    ensures |Where(flags, n + 1)| == |Where(flags, n)| + if flags[n] then 1 else 0
  {
    assert Where(flags, n + 1) == if flags[n] then Where(flags, n) + {n} else Where(flags, n);
  }

  /** Go walks a map in an arbitrary order; proofs that fix one also show that it does not matter. */
  ghost function SomeOrder<T(!new)>(xs: set<T>): (order: seq<T>)
    ensures Elements(order) == xs
    ensures forall x :: x in order <==> x in xs
  {
    if xs == {} then []
    else
      var x :| x in xs;
      var rest := SomeOrder(xs - {x});
      assert Elements(rest + [x]) == Elements(rest) + {x};
      rest + [x]
  }

  /** The next element of a Go map or set iteration: any one will do. */
  method Pick<T>(xs: set<T>) returns (x: T)
    requires xs != {}
    ensures x in xs
  {
    x :| x in xs;
  }
}

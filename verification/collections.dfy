/** Sequence and set helpers shared by several modules: distinctness,
    flattening, fixed-size chunking, the cardinality facts the
    argument-binding proof needs, and Python dicts written as sequences of
    (key, value) pairs in insertion order. */
module Collections {
  import opened Errors

  predicate Distinct<T(==)>(s: seq<T>)
  {
    forall i, j | 0 <= i < j < |s| :: s[i] != s[j]
  }

  function ToSet<T>(s: seq<T>): set<T>
  {
    set x | x in s
  }

  function Flatten<T>(ss: seq<seq<T>>): seq<T>
  {
    if |ss| == 0 then [] else ss[0] + Flatten(ss[1..])
  }

  lemma FlattenAppend<T>(ss: seq<seq<T>>, s: seq<T>)
    ensures Flatten(ss + [s]) == Flatten(ss) + s
  {
    if |ss| > 0 {
      assert (ss + [s])[1..] == ss[1..] + [s];
      FlattenAppend(ss[1..], s);
    }
  }

  /** The longest prefix of `s` whose elements all satisfy `p`: what a
      regular expression `^[...]+` or `^[...]*` consumes. */
  function TakeWhile<T>(s: seq<T>, p: T -> bool): (r: seq<T>)
    ensures |r| <= |s| && r == s[..|r|]
    ensures forall i | 0 <= i < |r| :: p(r[i])
    ensures |r| < |s| ==> !p(s[|r|])
  {
    if |s| == 0 || !p(s[0]) then [] else [s[0]] + TakeWhile(s[1..], p)
  }

  /** A run of `p` elements followed by one that is not: the run is exactly
      what `TakeWhile` takes. */
  lemma {:induction false} TakeWhileRun<T>(run: seq<T>, rest: seq<T>, p: T -> bool)
    requires forall i | 0 <= i < |run| :: p(run[i])
    requires |rest| > 0 && !p(rest[0])
    ensures TakeWhile(run + rest, p) == run
  {
    if |run| > 0 {
      assert (run + rest)[1..] == run[1..] + rest;
      TakeWhileRun(run[1..], rest, p);
      assert [run[0]] + run[1..] == run;
    } else {
      assert (run + rest)[0] == rest[0];
    }
  }

  /** Python's `[s[i:i + n] for i in range(0, len(s), n)]`. */
  function Chunks<T>(s: seq<T>, n: nat): (r: seq<seq<T>>)
    requires n > 0
    ensures Flatten(r) == s
    ensures forall k | 0 <= k < |r| :: 0 < |r[k]| <= n
    ensures forall k | 0 <= k < |r| - 1 :: |r[k]| == n
    decreases |s|
  {
    if |s| == 0 then []
    else if |s| <= n then [s]
    else [s[..n]] + Chunks(s[n..], n)
  }

  /** The number of chunks is the ceiling of `|s| / n`. */
  lemma {:induction false} ChunksCount<T>(s: seq<T>, n: nat)
    requires n > 0
    ensures |Chunks(s, n)| == (|s| + n - 1) / n
    decreases |s|
  {
    if |s| > n {
      ChunksCount(s[n..], n);
      var m := |s| - n;
      assert (m + n - 1) + n == |s| + n - 1;
      DivShift(m + n - 1, n);
    } else if |s| > 0 {
      DivOne(|s| + n - 1, n);
    }
  }

  /** Chunks are the only split of `s` into non-empty pieces of at most `n`
      elements in which every piece but the last is full. */
  lemma {:induction false} ChunksUnique<T>(r: seq<seq<T>>, s: seq<T>, n: nat)
    requires n > 0 && Flatten(r) == s
    requires forall k | 0 <= k < |r| :: 0 < |r[k]| <= n
    requires forall k | 0 <= k < |r| - 1 :: |r[k]| == n
    ensures r == Chunks(s, n)
    decreases |r|
  {
    if |r| == 1 {
      assert r[1..] == [];
      assert s == r[0] + [] == r[0];
      assert r == [s];
    } else if |r| > 1 {
      var rest := Flatten(r[1..]);
      assert s == r[0] + rest;
      assert rest == r[1] + Flatten(r[2..]) by {
        assert r[1..][0] == r[1] && r[1..][1..] == r[2..];
      }
      assert |s| > n;
      assert s[..n] == r[0] && s[n..] == rest;
      ChunksUnique(r[1..], rest, n);
    }
  }

  lemma DivShift(a: nat, n: nat)
    requires n > 0
    ensures (a + n) / n == a / n + 1
  {
    var q, r := a / n, a % n;
    assert a == q * n + r;
    assert a + n == (q + 1) * n + r;
    DivUnique(a + n, n, q + 1, r);
  }

  lemma DivOne(a: nat, n: nat)
    requires n > 0 && n <= a < 2 * n
    ensures a / n == 1
  {
    DivUnique(a, n, 1, a - n);
  }

  /** Euclidean division is determined by quotient and remainder. */
  lemma DivUnique(x: int, n: int, q: int, r: int)
    requires n > 0 && 0 <= r < n && x == q * n + r
    ensures x / n == q
  {
    var q', r' := x / n, x % n;
    assert x == q' * n + r';
    if q > q' {
      assert q * n == (q - q') * n + q' * n;
      MulAtLeast(q - q', n);
      assert false;
    } else if q < q' {
      assert q' * n == (q' - q) * n + q * n;
      MulAtLeast(q' - q, n);
      assert false;
    }
  }

  lemma MulAtLeast(k: int, n: int)
    requires k >= 1 && n > 0
    ensures k * n >= n
  {
    assert k * n == (k - 1) * n + n;
  }

  /** A distinct sequence has as many elements as its set. */
  lemma {:induction false} DistinctCard<T>(s: seq<T>)
    requires Distinct(s)
    ensures |ToSet(s)| == |s|
  {
    if |s| > 0 {
      DistinctCard(s[1..]);
      assert ToSet(s) == ToSet(s[1..]) + {s[0]};
      assert s[0] !in ToSet(s[1..]);
    }
  }

  /** A subset as large as its superset is the whole superset. */
  lemma SubsetSameCard<T>(a: set<T>, b: set<T>)
    requires a <= b && |a| == |b|
    ensures a == b
  {
    if a != b {
      var x :| x in b && x !in a;
      assert a <= b - {x};
      assert |b - {x}| == |b| - 1;
      SubsetCard(a, b - {x});
      assert false;
    }
  }

  lemma {:induction false} SubsetCard<T>(a: set<T>, b: set<T>)
    requires a <= b
    ensures |a| <= |b|
    decreases |a|
  {
    if a != {} {
      var x :| x in a;
      SubsetCard(a - {x}, b - {x});
    }
  }

  // ---------------------------------------------------------------------
  // Insertion-ordered dicts as sequences of pairs

  function Keys<K, V>(d: seq<(K, V)>): (r: seq<K>)
    ensures |r| == |d| && forall k | 0 <= k < |d| :: r[k] == d[k].0
  {
    seq(|d|, k requires 0 <= k < |d| => d[k].0)
  }

  /** The keys of a non-empty list are its first key, then the keys of the
      rest; when they are distinct, the rest's are too and do not repeat
      the first. */
  lemma KeysTail<K, V>(d: seq<(K, V)>)
    requires |d| > 0
    ensures Keys(d) == [d[0].0] + Keys(d[1..])
    ensures Distinct(Keys(d)) ==> Distinct(Keys(d[1..])) && d[0].0 !in Keys(d[1..])
  {
    assert Keys(d) == [d[0].0] + Keys(d[1..]);
    if Distinct(Keys(d)) {
      forall i | 0 <= i < |d| - 1 ensures Keys(d[1..])[i] != d[0].0 {
        assert Keys(d)[0] != Keys(d)[i + 1];
      }
      forall i, j | 0 <= i < j < |d| - 1 ensures Keys(d[1..])[i] != Keys(d[1..])[j] {
        assert Keys(d)[i + 1] != Keys(d)[j + 1];
      }
    }
  }

  /** `d[key]`, or `None` when the key is absent. */
  function Lookup<K(==), V>(d: seq<(K, V)>, key: K): Option<V>
  {
    if |d| == 0 then None
    else if d[0].0 == key then Some(d[0].1)
    else Lookup(d[1..], key)
  }

  /** `d[key] = value`: an existing key keeps its place, a new one goes last. */
  function DictSet<K(==), V>(d: seq<(K, V)>, key: K, value: V): (r: seq<(K, V)>)
    ensures key !in Keys(d) ==> r == d + [(key, value)]
  {
    if |d| == 0 then [(key, value)]
    else if d[0].0 == key then [(key, value)] + d[1..]
    else
      KeyInTail(d, key);
      [d[0]] + DictSet(d[1..], key, value)
  }

  /** Setting a key rewrites no other entry, and an existing key is set in
      its place. */
  lemma {:induction false} DictSetInPlace<K, V>(d: seq<(K, V)>, key: K, value: V)
    ensures |DictSet(d, key, value)| == if key in Keys(d) then |d| else |d| + 1
    ensures var r := DictSet(d, key, value);
      key in Keys(d) ==> forall k | 0 <= k < |d| :: r[k].0 == d[k].0
    ensures var r := DictSet(d, key, value);
      forall k | 0 <= k < |d| && d[k].0 != key :: r[k] == d[k]
  {
    if |d| > 0 && d[0].0 != key {
      KeyInTail(d, key);
      DictSetInPlace(d[1..], key, value);
      var rest := DictSet(d[1..], key, value);
      assert DictSet(d, key, value) == [d[0]] + rest;
      assert forall k | 1 <= k < |rest| + 1 :: ([d[0]] + rest)[k] == rest[k - 1];
    } else if |d| > 0 {
      assert key in Keys(d);
    }
  }

  /** A key that was never set looks up to nothing. */
  lemma {:induction false} LookupAbsent<K, V>(d: seq<(K, V)>, key: K)
    requires key !in Keys(d)
    ensures Lookup(d, key) == None
  {
    if |d| > 0 {
      KeysTail(d);
      LookupAbsent(d[1..], key);
    }
  }

  /** A key other than the first is a key of the rest exactly when it is a
      key of the whole. */
  lemma KeyInTail<K, V>(d: seq<(K, V)>, key: K)
    requires |d| > 0 && d[0].0 != key
    ensures key in Keys(d) <==> key in Keys(d[1..])
  {
    assert Keys(d) == [d[0].0] + Keys(d[1..]);
  }

  /** Setting a key leaves a dict with distinct keys, and the key then reads
      back as the value set. */
  lemma DictSetSpec<K, V>(d: seq<(K, V)>, key: K, value: V)
    requires Distinct(Keys(d))
    ensures Distinct(Keys(DictSet(d, key, value)))
    ensures Lookup(DictSet(d, key, value), key) == Some(value)
    ensures ToSet(Keys(DictSet(d, key, value))) == ToSet(Keys(d)) + {key}
  {
    DictSetKeys(d, key, value);
    DictSetDistinct(d, key, value);
    DictSetLookup(d, key, value);
  }

  lemma DictSetKeys<K, V>(d: seq<(K, V)>, key: K, value: V)
    ensures ToSet(Keys(DictSet(d, key, value))) == ToSet(Keys(d)) + {key}
  {
    var r := DictSet(d, key, value);
    DictSetInPlace(d, key, value);
    if key in Keys(d) {
      assert Keys(r) == Keys(d);
    } else {
      assert Keys(r) == Keys(d) + [key];
      assert forall x :: x in Keys(d) + [key] <==> x in Keys(d) || x == key;
    }
  }

  lemma DictSetDistinct<K, V>(d: seq<(K, V)>, key: K, value: V)
    requires Distinct(Keys(d))
    ensures Distinct(Keys(DictSet(d, key, value)))
  {
    var r := DictSet(d, key, value);
    DictSetInPlace(d, key, value);
    if key in Keys(d) {
      assert Keys(r) == Keys(d);
    } else {
      assert Keys(r) == Keys(d) + [key];
    }
  }

  lemma {:induction false} DictSetLookup<K, V>(d: seq<(K, V)>, key: K, value: V)
    ensures Lookup(DictSet(d, key, value), key) == Some(value)
  {
    if |d| > 0 && d[0].0 != key {
      DictSetLookup(d[1..], key, value);
      assert DictSet(d, key, value) == [d[0]] + DictSet(d[1..], key, value);
    }
  }

  /** Setting one key leaves the lookup of every other key alone. */
  lemma {:induction false} LookupOther<K, V>(d: seq<(K, V)>, key: K, value: V, other: K)
    requires other != key
    ensures Lookup(DictSet(d, key, value), other) == Lookup(d, other)
  {
    if |d| > 0 && d[0].0 != key {
      LookupOther(d[1..], key, value, other);
      assert DictSet(d, key, value) == [d[0]] + DictSet(d[1..], key, value);
    } else if |d| > 0 {
      assert DictSet(d, key, value) == [(key, value)] + d[1..];
    }
  }

  /** A new key goes last. */
  lemma DictSetNew<K, V>(d: seq<(K, V)>, key: K, value: V)
    requires key !in Keys(d)
    ensures DictSet(d, key, value) == d + [(key, value)]
  {
  }

  lemma ToSetCons<T>(x: T, s: seq<T>)
    ensures ToSet([x] + s) == {x} + ToSet(s)
  {
    assert forall y :: y in [x] + s <==> y == x || y in s;
  }

  lemma DistinctCons<T>(x: T, s: seq<T>)
    requires Distinct(s) && x !in s
    ensures Distinct([x] + s)
  {
    var t := [x] + s;
    forall i, j | 0 <= i < j < |t| ensures t[i] != t[j]
    {
      if i == 0 {
        assert t[j] == s[j - 1];
      } else {
        assert t[i] == s[i - 1] && t[j] == s[j - 1];
      }
    }
  }
}

/** Python's stable `sorted(..., key=..., reverse=True)` and the word-frequency
    tally behind `extract_keywords` (ingestion.py) and the `top_keywords` count of
    the analytics route (main.py). */
module Ranking {

  /** `sorted(s, key=key, reverse=True)`: each element is inserted in front of
      the first element whose key is not larger, so equal keys keep their order. */
  function SortDesc<T>(s: seq<T>, key: T -> int): seq<T>
  {
    if s == [] then [] else InsertDesc(s[0], SortDesc(s[1..], key), key)
  }

  function InsertDesc<T>(x: T, s: seq<T>, key: T -> int): seq<T>
  {
    if s == [] || key(s[0]) <= key(x) then [x] + s
    else [s[0]] + InsertDesc(x, s[1..], key)
  }

  ghost predicate NonIncreasing<T>(s: seq<T>, key: T -> int)
  {
    forall i, j :: 0 <= i < j < |s| ==> key(s[i]) >= key(s[j])
  }

  /** The elements of `s` whose key is `v`, in order. */
  function KeyFilter<T>(s: seq<T>, key: T -> int, v: int): seq<T>
  {
    if s == [] then []
    else (if key(s[0]) == v then [s[0]] else []) + KeyFilter(s[1..], key, v)
  }

  /** Where `InsertDesc` puts `x`: after every element with a larger key. */
  function InsertPos<T>(x: T, s: seq<T>, key: T -> int): (k: nat)
    ensures k <= |s|
    ensures forall i :: 0 <= i < k ==> key(s[i]) > key(x)
    ensures k < |s| ==> key(s[k]) <= key(x)
  {
    if s == [] || key(s[0]) <= key(x) then 0
    else 1 + InsertPos(x, s[1..], key)
  }

  /** Inserting puts `x` at `InsertPos` and keeps everything else in order. */
  lemma {:induction false} InsertDescAt<T>(x: T, s: seq<T>, key: T -> int)
    ensures InsertDesc(x, s, key) == s[..InsertPos(x, s, key)] + [x] + s[InsertPos(x, s, key)..]
    decreases |s|
  {
    if s != [] && key(s[0]) > key(x) {
      InsertDescAt(x, s[1..], key);
      var k := InsertPos(x, s[1..], key);
      assert s[..k + 1] == [s[0]] + s[1..][..k];
      assert s[k + 1..] == s[1..][k..];
    }
  }

  lemma {:induction false} KeyFilterAppend<T>(a: seq<T>, b: seq<T>, key: T -> int, v: int)
    ensures KeyFilter(a + b, key, v) == KeyFilter(a, key, v) + KeyFilter(b, key, v)
    decreases |a|
  {
    if a != [] {
      KeyFilterAppend(a[1..], b, key, v);
      var ab := a + b;
      assert ab[0] == a[0] && ab[1..] == a[1..] + b;
      assert KeyFilter(ab, key, v) == (if key(a[0]) == v then [a[0]] else []) + KeyFilter(ab[1..], key, v);
    } else {
      assert a + b == b;
    }
  }

  lemma {:induction false} KeyFilterNone<T>(a: seq<T>, key: T -> int, v: int)
    requires forall i :: 0 <= i < |a| ==> key(a[i]) != v
    ensures KeyFilter(a, key, v) == []
    decreases |a|
  {
    if a != [] {
      KeyFilterNone(a[1..], key, v);
    }
  }

  lemma InsertDescSorted<T>(x: T, s: seq<T>, key: T -> int)
    requires NonIncreasing(s, key)
    ensures NonIncreasing(InsertDesc(x, s, key), key)
  {
    var k := InsertPos(x, s, key);
    InsertDescAt(x, s, key);
    assert s == s[..k] + s[k..];
    SpliceSorted(s[..k], x, s[k..], key);
  }

  /** Putting `x` between a part with larger keys and a sorted rest whose
      first key is not larger keeps the keys non-increasing. */
  lemma SpliceSorted<T>(a: seq<T>, x: T, b: seq<T>, key: T -> int)
    requires NonIncreasing(a + b, key)
    requires forall i :: 0 <= i < |a| ==> key(a[i]) > key(x)
    requires b != [] ==> key(b[0]) <= key(x)
    ensures NonIncreasing(a + [x] + b, key)
  {
    var s, r, k := a + b, a + [x] + b, |a|;
    forall i, j | 0 <= i < j < |r| ensures key(r[i]) >= key(r[j]) {
      if j < k {
        assert r[i] == s[i] && r[j] == s[j];
      } else if j == k {
        assert r[i] == a[i];
      } else if i < k {
        assert r[i] == s[i] && r[j] == s[j - 1];
      } else if i == k {
        assert r[j] == s[j - 1] && s[k] == b[0];
      } else {
        assert r[i] == s[i - 1] && r[j] == s[j - 1];
      }
    }
  }

  lemma InsertDescKeyFilter<T>(x: T, s: seq<T>, key: T -> int, v: int)
    ensures KeyFilter(InsertDesc(x, s, key), key, v) ==
      (if key(x) == v then [x] else []) + KeyFilter(s, key, v)
  {
    var k := InsertPos(x, s, key);
    InsertDescAt(x, s, key);
    assert s == s[..k] + s[k..];
    KeyFilterAppend(s[..k] + [x], s[k..], key, v);
    KeyFilterAppend(s[..k], [x], key, v);
    KeyFilterAppend(s[..k], s[k..], key, v);
    if key(x) == v {
      KeyFilterNone(s[..k], key, v);
    }
    assert KeyFilter([x], key, v) == if key(x) == v then [x] else [];
  }

  lemma InsertDescCorrect<T>(x: T, s: seq<T>, key: T -> int)
    requires NonIncreasing(s, key)
    ensures NonIncreasing(InsertDesc(x, s, key), key)
    ensures multiset(InsertDesc(x, s, key)) == multiset(s) + multiset{x}
    ensures |InsertDesc(x, s, key)| == |s| + 1
    ensures forall v :: (KeyFilter(InsertDesc(x, s, key), key, v) ==
      (if key(x) == v then [x] else []) + KeyFilter(s, key, v))
  {
    var k := InsertPos(x, s, key);
    InsertDescAt(x, s, key);
    assert s == s[..k] + s[k..];
    InsertDescSorted(x, s, key);
    forall v ensures KeyFilter(InsertDesc(x, s, key), key, v) ==
      (if key(x) == v then [x] else []) + KeyFilter(s, key, v) {
      InsertDescKeyFilter(x, s, key, v);
    }
  }

  /** Sorting yields a non-increasing permutation in which elements with equal
      keys keep their input order. */
  lemma {:induction false} SortDescCorrect<T>(s: seq<T>, key: T -> int)
    ensures NonIncreasing(SortDesc(s, key), key)
    ensures multiset(SortDesc(s, key)) == multiset(s)
    ensures |SortDesc(s, key)| == |s|
    ensures forall v :: KeyFilter(SortDesc(s, key), key, v) == KeyFilter(s, key, v)
    decreases |s|
  {
    if s != [] {
      SortDescCorrect(s[1..], key);
      InsertDescCorrect(s[0], SortDesc(s[1..], key), key);
      assert s == [s[0]] + s[1..];
      forall v ensures KeyFilter(SortDesc(s, key), key, v) == KeyFilter(s, key, v) {
      }
    }
  }

  /** Truncating keeps the first elements of every key class. */
  lemma {:induction false} KeyFilterTake<T>(s: seq<T>, n: nat, key: T -> int, v: int)
    requires n <= |s|
    ensures KeyFilter(s[..n], key, v) <= KeyFilter(s, key, v)
    decreases n
  {
    if n > 0 {
      KeyFilterTake(s[1..], n - 1, key, v);
      assert s[..n][1..] == s[1..][..n - 1];
    }
  }

  /** Distinct elements of `ws` in order of first occurrence: the key order of a
      Python dict filled by a loop over `ws`. */
  function Distinct<T(==)>(ws: seq<T>): seq<T>
  {
    if ws == [] then []
    else
      var d := Distinct(ws[..|ws| - 1]);
      if ws[|ws| - 1] in d then d else d + [ws[|ws| - 1]]
  }

  lemma {:induction false} DistinctLength<T>(ws: seq<T>)
    ensures |Distinct(ws)| <= |ws|
    decreases |ws|
  {
    if ws != [] {
      DistinctLength(ws[..|ws| - 1]);
    }
  }

  /** Index of the first occurrence of `w` in `ws`. */
  function FirstIndex<T(==)>(ws: seq<T>, w: T): (i: nat)
    requires w in ws
    ensures i < |ws| && ws[i] == w
    ensures forall k :: 0 <= k < i ==> ws[k] != w
  {
    if ws[0] == w then 0 else FirstIndex(ws[1..], w) + 1
  }

  lemma {:induction false} FirstIndexPrefix<T>(ws: seq<T>, n: nat, w: T)
    requires n <= |ws| && w in ws[..n]
    ensures FirstIndex(ws[..n], w) == FirstIndex(ws, w)
  {
    var i := FirstIndex(ws[..n], w);
    var j := FirstIndex(ws, w);
    assert ws[i] == w;
    assert ws[..n][j] == w;
  }

  /** `Distinct` holds every element once, nothing else, in first-occurrence order. */
  lemma {:induction false} DistinctCorrect<T>(ws: seq<T>)
    ensures forall i, j :: 0 <= i < j < |Distinct(ws)| ==> Distinct(ws)[i] != Distinct(ws)[j]
    ensures forall w :: w in Distinct(ws) ==> w in ws
    ensures forall w :: w in ws ==> w in Distinct(ws)
    ensures forall i, j :: 0 <= i < j < |Distinct(ws)| ==>
      FirstIndex(ws, Distinct(ws)[i]) < FirstIndex(ws, Distinct(ws)[j])
    decreases |ws|
  {
    if ws != [] {
      var n := |ws| - 1;
      var p := ws[..n];
      var d := Distinct(p);
      DistinctCorrect(p);
      assert ws == p + [ws[n]];
      forall w | w in d ensures FirstIndex(ws, w) == FirstIndex(p, w) {
        assert w in Distinct(p);
        assert w in p;
        FirstIndexPrefix(ws, n, w);
      }
      if ws[n] !in d {
        assert FirstIndex(ws, ws[n]) == n;
        forall w | w in d ensures FirstIndex(ws, w) < n { }
      }
    }
  }

  /** Number of occurrences of `w` in `ws`. */
  function Occurrences<T(==)>(ws: seq<T>, w: T): nat
  {
    multiset(ws)[w]
  }

  /** `freq[w] = freq.get(w, 0) + 1` for every `w` in `ws`: the dict's keys in
      insertion order and its counts. */
  method CountWords<T(==)>(ws: seq<T>) returns (keys: seq<T>, counts: map<T, nat>)
    ensures keys == Distinct(ws)
    ensures forall w :: w in counts <==> w in ws
    ensures forall w :: w in counts ==> counts[w] == Occurrences(ws, w)
  {
    keys, counts := [], map[];
    var i := 0;
    while i < |ws|
      invariant 0 <= i <= |ws|
      invariant keys == Distinct(ws[..i])
      invariant forall w :: w in counts <==> w in ws[..i]
      invariant forall w :: w in counts ==> counts[w] == Occurrences(ws[..i], w)
    {
      var w := ws[i];
      assert ws[..i + 1] == ws[..i] + [w];
      assert ws[..i + 1][..i] == ws[..i];
      DistinctCorrect(ws[..i]);
      if w !in counts {
        keys := keys + [w];
        counts := counts[w := 1];
      } else {
        counts := counts[w := counts[w] + 1];
      }
      i := i + 1;
    }
    assert ws[..i] == ws;
  }

  /** `freq.get` as a sort key. */
  function CountKey<T(==)>(counts: map<T, nat>): T -> int
  {
    w => if w in counts then counts[w] else 0
  }

  /** `sorted(freq, key=freq.get, reverse=True)[:n]` after `CountWords(ws)`. */
  function RankByCount<T(==)>(keys: seq<T>, counts: map<T, nat>, n: nat): seq<T>
  {
    var sorted := SortDesc(keys, CountKey(counts));
    if n < |sorted| then sorted[..n] else sorted
  }

  ghost predicate NoDuplicates<T>(s: seq<T>)
  {
    forall i, j :: 0 <= i < j < |s| ==> s[i] != s[j]
  }

  lemma {:induction false} NoDuplicatesCount<T>(s: seq<T>, x: T)
    requires NoDuplicates(s)
    ensures multiset(s)[x] <= 1
    decreases |s|
  {
    if s != [] {
      assert s == [s[0]] + s[1..];
      NoDuplicatesCount(s[1..], x);
      if s[0] == x {
        assert x !in s[1..];
      }
    }
  }

  /** A permutation of a sequence without duplicates has none either. */
  lemma PermutationNoDuplicates<T>(a: seq<T>, b: seq<T>)
    requires NoDuplicates(a) && multiset(a) == multiset(b)
    ensures NoDuplicates(b)
  {
    forall i, j | 0 <= i < j < |b| ensures b[i] != b[j] {
      if b[i] == b[j] {
        assert b == b[..i] + [b[i]] + b[i + 1..j] + [b[j]] + b[j + 1..];
        assert multiset(b)[b[i]] >= 2;
        NoDuplicatesCount(a, b[i]);
      }
    }
  }

  /** The sorted tally: every element of `ws` once, by non-increasing count. */
  lemma SortedTally<T>(ws: seq<T>, keys: seq<T>, counts: map<T, nat>)
    requires keys == Distinct(ws)
    requires forall w :: w in counts <==> w in ws
    requires forall w :: w in counts ==> counts[w] == Occurrences(ws, w)
    ensures NoDuplicates(SortDesc(keys, CountKey(counts)))
    ensures forall w :: w in SortDesc(keys, CountKey(counts)) <==> w in ws
    ensures forall i, j :: 0 <= i < j < |SortDesc(keys, CountKey(counts))| ==>
      Occurrences(ws, SortDesc(keys, CountKey(counts))[i]) >= Occurrences(ws, SortDesc(keys, CountKey(counts))[j])
    ensures forall v :: (KeyFilter(SortDesc(keys, CountKey(counts)), CountKey(counts), v) ==
      KeyFilter(Distinct(ws), CountKey(counts), v))
  {
    var key := CountKey(counts);
    var sorted := SortDesc(keys, key);
    SortDescCorrect(keys, key);
    DistinctCorrect(ws);
    PermutationNoDuplicates(keys, sorted);
    forall w ensures w in sorted <==> w in ws {
      assert w in sorted <==> w in multiset(sorted);
      assert w in keys <==> w in multiset(keys);
    }
    forall i, j | 0 <= i < j < |sorted| ensures Occurrences(ws, sorted[i]) >= Occurrences(ws, sorted[j]) {
      assert key(sorted[i]) >= key(sorted[j]);
      assert sorted[i] in sorted && sorted[j] in sorted;
    }
  }

  /** A prefix of a ranking without duplicates keeps the best-ranked elements. */
  lemma RankingPrefix<T>(ws: seq<T>, sorted: seq<T>, m: nat)
    requires m <= |sorted|
    requires NoDuplicates(sorted)
    requires forall w :: w in sorted <==> w in ws
    requires forall i, j :: 0 <= i < j < |sorted| ==> Occurrences(ws, sorted[i]) >= Occurrences(ws, sorted[j])
    ensures NoDuplicates(sorted[..m])
    ensures forall w :: w in sorted[..m] ==> w in ws
    ensures forall i, j :: 0 <= i < j < m ==> Occurrences(ws, sorted[..m][i]) >= Occurrences(ws, sorted[..m][j])
    ensures forall w, u :: w in ws && w !in sorted[..m] && u in sorted[..m] ==> Occurrences(ws, w) <= Occurrences(ws, u)
  {
    var r := sorted[..m];
    forall w, u | w in ws && w !in r && u in r ensures Occurrences(ws, w) <= Occurrences(ws, u) {
      var k :| 0 <= k < |sorted| && sorted[k] == w;
      var i :| 0 <= i < m && r[i] == u;
      assert forall t :: 0 <= t < m ==> r[t] == sorted[t];
      assert k >= m;
      assert sorted[i] == u;
    }
  }

  /** The ranking of a tally: at most `n` distinct elements of `ws`, by
      non-increasing count; no omitted element occurs more often than a kept
      one; and among elements with the same count the kept ones are the first
      of them in order of first occurrence. */
  lemma RankByCountCorrect<T>(ws: seq<T>, keys: seq<T>, counts: map<T, nat>, n: nat)
    requires keys == Distinct(ws)
    requires forall w :: w in counts <==> w in ws
    requires forall w :: w in counts ==> counts[w] == Occurrences(ws, w)
    ensures |RankByCount(keys, counts, n)| == if n < |keys| then n else |keys|
    ensures NoDuplicates(RankByCount(keys, counts, n))
    ensures forall w :: w in RankByCount(keys, counts, n) ==> w in ws
    ensures forall i, j :: 0 <= i < j < |RankByCount(keys, counts, n)| ==>
      Occurrences(ws, RankByCount(keys, counts, n)[i]) >= Occurrences(ws, RankByCount(keys, counts, n)[j])
    ensures forall w, u :: w in ws && w !in RankByCount(keys, counts, n) && u in RankByCount(keys, counts, n) ==>
      Occurrences(ws, w) <= Occurrences(ws, u)
    ensures forall v :: (KeyFilter(RankByCount(keys, counts, n), CountKey(counts), v) <=
      KeyFilter(Distinct(ws), CountKey(counts), v))
  {
    var sorted := SortDesc(keys, CountKey(counts));
    assert |sorted| == |keys| by { SortDescCorrect(keys, CountKey(counts)); }
    SortedTally(ws, keys, counts);
    var m := if n < |sorted| then n else |sorted|;
    assert RankByCount(keys, counts, n) == sorted[..m];
    RankingPrefix(ws, sorted, m);
    forall v ensures KeyFilter(sorted[..m], CountKey(counts), v) <= KeyFilter(Distinct(ws), CountKey(counts), v) {
      KeyFilterTake(sorted, m, CountKey(counts), v);
    }
  }
}

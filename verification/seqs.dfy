/**
 * Query building blocks over tables held as sequences of rows: a `where`
 * filter, a first-match lookup, and an `order by … desc limit k` selection.
 */
module Seqs {
  import opened Wrappers

  /** Index of the first row satisfying `p` (a `findFirst` with that `where`). */
  function FindFirst<T>(s: seq<T>, p: T -> bool): (r: Option<nat>)
    ensures r.Some? ==> r.value < |s| && p(s[r.value])
    ensures r.Some? ==> forall i :: 0 <= i < r.value ==> !p(s[i])
    ensures r.None? <==> forall i :: 0 <= i < |s| ==> !p(s[i])
  {
    if |s| == 0 then None
    else if p(s[0]) then Some(0)
    else match FindFirst(s[1..], p)
      case None => None
      case Some(i) => Some(i + 1)
  }

  /** The rows satisfying `p`, in table order. */
  function Filter<T(!new)>(s: seq<T>, p: T -> bool): (r: seq<T>)
    ensures |r| <= |s|
    ensures multiset(r) <= multiset(s)
    ensures forall x :: x in r <==> x in s && p(x)
    ensures (forall i :: 0 <= i < |s| ==> !p(s[i])) ==> r == []
  {
    if |s| == 0 then []
    else
      assert s == [s[0]] + s[1..];
      (if p(s[0]) then [s[0]] else []) + Filter(s[1..], p)
  }

  /** Filtering a sequence with a known first row. */
  lemma FilterCons<T(!new)>(h: T, t: seq<T>, p: T -> bool)
    ensures Filter([h] + t, p) == (if p(h) then [h] else []) + Filter(t, p)
  {
    assert ([h] + t)[0] == h;
    assert ([h] + t)[1..] == t;
  }

  /** Appending a row extends the filtered view by that row exactly when it matches. */
  lemma {:induction false} FilterAppend<T(!new)>(s: seq<T>, x: T, p: T -> bool)
    ensures Filter(s + [x], p) == Filter(s, p) + (if p(x) then [x] else [])
  {
    if |s| == 0 {
      assert s + [x] == [x] + [];
      FilterCons(x, [], p);
    } else {
      var head := if p(s[0]) then [s[0]] else [];
      var tail := if p(x) then [x] else [];
      assert s + [x] == [s[0]] + (s[1..] + [x]);
      assert s == [s[0]] + s[1..];
      FilterCons(s[0], s[1..] + [x], p);
      FilterCons(s[0], s[1..], p);
      FilterAppend(s[1..], x, p);
      AppendAssoc(head, Filter(s[1..], p), tail);
    }
  }

  lemma AppendAssoc<T>(a: seq<T>, b: seq<T>, c: seq<T>)
    ensures a + b + c == a + (b + c)
  {
  }

  /** `s` is ordered by non-increasing `key` (an `order by … desc`). */
  ghost predicate SortedDesc<T>(s: seq<T>, key: T -> int)
  {
    forall i, j :: 0 <= i < j < |s| ==> key(s[i]) >= key(s[j])
  }

  /** Inserts `x` into a sequence ordered by non-increasing `key`. */
  function Insert<T>(x: T, s: seq<T>, key: T -> int): (r: seq<T>)
    requires SortedDesc(s, key)
    ensures SortedDesc(r, key)
    ensures multiset(r) == multiset(s) + multiset{x}
    ensures forall k :: 0 <= k < |r| ==> r[k] == x || r[k] in s
    decreases |s|
  {
    if |s| == 0 then [x]
    else if key(x) >= key(s[0]) then
      HeadOutranksAll(x, s, key);
      ConsSorted(x, s, key);
      [x] + s
    else
      assert s == [s[0]] + s[1..];
      TailSorted(s, key);
      var rest := Insert(x, s[1..], key);
      HeadOutranksRest(s, x, rest, key);
      ConsSorted(s[0], rest, key);
      [s[0]] + rest
  }

  /** A row ranking at least as high as the head of an ordered sequence ranks at least as high as all of it. */
  lemma HeadOutranksAll<T>(x: T, s: seq<T>, key: T -> int)
    requires SortedDesc(s, key) && |s| > 0 && key(x) >= key(s[0])
    ensures forall k :: 0 <= k < |s| ==> key(x) >= key(s[k])
  {
    forall k | 0 <= k < |s| ensures key(x) >= key(s[k]) {
      if k > 0 {
        assert key(s[0]) >= key(s[k]);
      }
    }
  }

  /** The head of an ordered sequence ranks at least as high as its tail and any lower-ranking row. */
  lemma HeadOutranksRest<T>(s: seq<T>, x: T, rest: seq<T>, key: T -> int)
    requires SortedDesc(s, key) && |s| > 0 && key(x) < key(s[0])
    requires forall k :: 0 <= k < |rest| ==> rest[k] == x || rest[k] in s[1..]
    ensures forall k :: 0 <= k < |rest| ==> key(s[0]) >= key(rest[k])
  {
    forall k | 0 <= k < |rest| ensures key(s[0]) >= key(rest[k]) {
      if rest[k] != x {
        var m :| 0 <= m < |s[1..]| && s[1..][m] == rest[k];
        assert key(s[0]) >= key(s[m + 1]);
      }
    }
  }

  lemma ConsSorted<T>(h: T, t: seq<T>, key: T -> int)
    requires SortedDesc(t, key)
    requires forall k :: 0 <= k < |t| ==> key(h) >= key(t[k])
    ensures SortedDesc([h] + t, key)
  {
    var r := [h] + t;
    forall i, j | 0 <= i < j < |r| ensures key(r[i]) >= key(r[j]) {
      assert r[j] == t[j - 1];
      if i > 0 {
        assert r[i] == t[i - 1];
      }
    }
  }

  lemma TailSorted<T>(s: seq<T>, key: T -> int)
    requires |s| > 0 && SortedDesc(s, key)
    ensures SortedDesc(s[1..], key)
  {
    forall i, j | 0 <= i < j < |s[1..]| ensures key(s[1..][i]) >= key(s[1..][j]) {
      assert s[1..][i] == s[i + 1] && s[1..][j] == s[j + 1];
    }
  }

  /** `s` reordered by non-increasing `key`; equal keys keep no particular order. */
  function SortDesc<T>(s: seq<T>, key: T -> int): (r: seq<T>)
    ensures SortedDesc(r, key)
    ensures multiset(r) == multiset(s)
    ensures |r| == |s|
  {
    if |s| == 0 then []
    else
      assert s == [s[0]] + s[1..];
      Insert(s[0], SortDesc(s[1..], key), key)
  }

  /** The `k` rows with the largest `key` (an `order by key desc limit k`). */
  function Top<T(!new)>(s: seq<T>, key: T -> int, k: nat): (r: seq<T>)
    ensures |r| == if |s| < k then |s| else k
    ensures SortedDesc(r, key)
    ensures multiset(r) <= multiset(s)
    ensures |s| <= k ==> multiset(r) == multiset(s)
    ensures forall x :: x in r ==> x in s
    ensures forall x, y :: x in s && x !in r && y in r ==> key(x) <= key(y)
    ensures forall x, y :: x in multiset(s) - multiset(r) && y in r ==> key(x) <= key(y)
  {
    var sorted := SortDesc(s, key);
    var n := if |s| < k then |s| else k;
    PrefixMultiset(s, sorted, n);
    PrefixOfSorted(s, sorted, n, key);
    PrefixLeavesLower(s, sorted, n, key);
    sorted[..n]
  }

  /** A prefix of a reordering of `s` takes part of the rows of `s`, and all of them when it is whole. */
  lemma PrefixMultiset<T>(s: seq<T>, sorted: seq<T>, n: nat)
    requires multiset(sorted) == multiset(s) && n <= |sorted|
    ensures multiset(sorted[..n]) <= multiset(s)
    ensures n == |s| ==> multiset(sorted[..n]) == multiset(s)
  {
    assert sorted == sorted[..n] + sorted[n..];
  }

  /** A prefix of an ordered reordering of `s` holds rows of `s` no smaller than the rows it leaves out. */
  lemma PrefixOfSorted<T(!new)>(s: seq<T>, sorted: seq<T>, n: nat, key: T -> int)
    requires SortedDesc(sorted, key) && multiset(sorted) == multiset(s) && n <= |sorted|
    ensures SortedDesc(sorted[..n], key)
    ensures forall x :: x in sorted[..n] ==> x in s
    ensures forall x, y :: x in s && x !in sorted[..n] && y in sorted[..n] ==> key(x) <= key(y)
  {
    var r := sorted[..n];
    SameMembers(s, sorted);
    forall x, y | x in s && x !in r && y in r
      ensures key(x) <= key(y)
    {
      var i :| 0 <= i < |sorted| && sorted[i] == x;
      var j :| 0 <= j < n && sorted[j] == y;
      assert forall m :: 0 <= m < n ==> sorted[m] == r[m];
      assert i >= n;
    }
  }

  /** What a prefix of an ordered reordering of `s` leaves out, counted with repeats, ranks no higher than what it keeps. */
  lemma PrefixLeavesLower<T>(s: seq<T>, sorted: seq<T>, n: nat, key: T -> int)
    requires SortedDesc(sorted, key) && multiset(sorted) == multiset(s) && n <= |sorted|
    ensures forall x, y :: x in multiset(s) - multiset(sorted[..n]) && y in sorted[..n] ==> key(x) <= key(y)
  {
    var r := sorted[..n];
    assert sorted == r + sorted[n..];
    assert multiset(s) - multiset(r) == multiset(sorted[n..]);
    forall x, y | x in multiset(s) - multiset(r) && y in r
      ensures key(x) <= key(y)
    {
      assert x in sorted[n..];
      var i :| 0 <= i < |sorted[n..]| && sorted[n..][i] == x;
      var j :| 0 <= j < n && r[j] == y;
      assert sorted[n + i] == x && sorted[j] == y;
    }
  }

  /**
   * A row of the top `k` is outranked by fewer than `k` rows of `s`, counted
   * with repeats: at least `k` strictly better rows push it out.
   */
  lemma TopOutrankedFewer<T(!new)>(s: seq<T>, key: T -> int, k: nat, p: T -> bool, x: T)
    requires x in Top(s, key, k)
    requires forall y :: p(y) ==> key(y) > key(x)
    ensures |Filter(s, p)| < k
  {
    var r := Top(s, key, k);
    OutrankingKept(s, r, key, p, x);
    SubMultisetSize(Filter(s, p), Filter(r, p));
    FilterDropsFailing(r, p, x);
  }

  /** When `r` leaves out only rows ranking no higher than its own, it keeps every row outranking one of them. */
  lemma OutrankingKept<T(!new)>(s: seq<T>, r: seq<T>, key: T -> int, p: T -> bool, x: T)
    requires x in r
    requires forall y :: p(y) ==> key(y) > key(x)
    requires forall a, b :: a in multiset(s) - multiset(r) && b in r ==> key(a) <= key(b)
    ensures multiset(Filter(s, p)) <= multiset(Filter(r, p))
  {
    forall y ensures multiset(Filter(s, p))[y] <= multiset(Filter(r, p))[y] {
      FilterCount(s, p, y);
      FilterCount(r, p, y);
      if p(y) {
        assert y !in multiset(s) - multiset(r);
      }
    }
  }

  /** Filtering keeps each matching row as often as it occurs and drops the others. */
  lemma {:induction false} FilterCount<T(!new)>(s: seq<T>, p: T -> bool, y: T)
    ensures multiset(Filter(s, p))[y] == if p(y) then multiset(s)[y] else 0
  {
    if |s| > 0 {
      assert s == [s[0]] + s[1..];
      FilterCount(s[1..], p, y);
    }
  }

  /** Filtering out a row that is present shortens the sequence. */
  lemma {:induction false} FilterDropsFailing<T(!new)>(s: seq<T>, p: T -> bool, x: T)
    requires x in s && !p(x)
    ensures |Filter(s, p)| < |s|
  {
    assert s == [s[0]] + s[1..];
    if s[0] != x {
      assert x in s[1..];
      FilterDropsFailing(s[1..], p, x);
    }
  }

  /** A sub-multiset of another sequence's rows is no longer than it. */
  lemma SubMultisetSize<T>(a: seq<T>, b: seq<T>)
    requires multiset(a) <= multiset(b)
    ensures |a| <= |b|
  {
    assert multiset(b) == multiset(a) + (multiset(b) - multiset(a));
    assert |multiset(a)| == |a| && |multiset(b)| == |b|;
  }

  /** Reorderings of each other hold the same rows. */
  lemma SameMembers<T>(a: seq<T>, b: seq<T>)
    requires multiset(a) == multiset(b)
    ensures forall x :: x in a <==> x in b
  {
    forall x ensures x in a <==> x in b {
      assert x in a <==> x in multiset(a);
      assert x in b <==> x in multiset(b);
    }
  }

  /** No row occurs twice. */
  predicate Distinct<T(==)>(s: seq<T>)
  {
    forall i, j :: 0 <= i < j < |s| ==> s[i] != s[j]
  }

  /** A row of a sequence without repeats occurs in it at most once. */
  lemma {:induction false} DistinctOnce<T>(s: seq<T>, x: T)
    requires Distinct(s)
    ensures multiset(s)[x] <= 1
  {
    if |s| > 0 {
      assert s == [s[0]] + s[1..];
      assert Distinct(s[1..]) by {
        forall i, j | 0 <= i < j < |s[1..]| ensures s[1..][i] != s[1..][j] {
          assert s[1..][i] == s[i + 1] && s[1..][j] == s[j + 1];
        }
      }
      DistinctOnce(s[1..], x);
      if x == s[0] {
        assert x !in s[1..] by {
          forall k | 0 <= k < |s[1..]| ensures s[1..][k] != x {
            assert s[1..][k] == s[k + 1];
          }
        }
      }
    }
  }

  /** A row at two places of `s` occurs twice in its multiset. */
  lemma TwiceCounted<T>(s: seq<T>, i: nat, j: nat)
    requires i < j < |s| && s[i] == s[j]
    ensures multiset(s)[s[i]] >= 2
  {
    assert s == s[..j] + [s[j]] + s[j + 1..];
    assert s[i] in s[..j];
  }

  /** Taking part of the rows of a sequence without repeats gives no repeats. */
  lemma SubMultisetDistinct<T>(a: seq<T>, b: seq<T>)
    requires multiset(a) <= multiset(b) && Distinct(b)
    ensures Distinct(a)
  {
    forall i, j | 0 <= i < j < |a| ensures a[i] != a[j] {
      if a[i] == a[j] {
        TwiceCounted(a, i, j);
        DistinctOnce(b, a[i]);
        assert false;
      }
    }
  }
}

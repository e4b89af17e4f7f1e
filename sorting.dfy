/**
 * `bananas.sort((a, b) => b.freshness - a.freshness)`: a stable sort,
 * highest freshness first. `SortByFreshness` is the insertion sort that
 * specifies it; the lemmas show that it is ordered, a permutation, stable,
 * and the only ordering with those properties.
 */
module Sorting {
  import opened Sequences
  import opened Bananas

  /** Highest freshness first. */
  predicate NonIncreasing(s: seq<Banana>)
  {
    forall i, j :: 0 <= i < j < |s| ==> s[i].freshness >= s[j].freshness
  }

  /** The filter that keeps the bananas of one freshness value. */
  function HasFreshness(v: int): Banana -> bool
  {
    (b: Banana) => b.freshness == v
  }

  /**
   * `r` keeps, for every freshness value, the bananas of that value in the
   * order they have in `s`: the stability the comparator sort promises.
   */
  ghost predicate KeepsTies(s: seq<Banana>, r: seq<Banana>)
  {
    forall v :: Filter(r, HasFreshness(v)) == Filter(s, HasFreshness(v))
  }

  /** Puts `b` after every banana at least as fresh as `b`, before the first less fresh one. */
  function InsertByFreshness(s: seq<Banana>, b: Banana): (r: seq<Banana>)
    ensures |r| == |s| + 1
  {
    if s == [] || s[0].freshness < b.freshness then [b] + s
    else [s[0]] + InsertByFreshness(s[1..], b)
  }

  /** Inserting adds `b` and loses nothing. */
  lemma {:induction false} InsertAddsOne(s: seq<Banana>, b: Banana)
    ensures multiset(InsertByFreshness(s, b)) == multiset(s) + multiset{b}
  {
    if s != [] && s[0].freshness >= b.freshness {
      InsertAddsOne(s[1..], b);
      assert s == [s[0]] + s[1..];
    }
  }

  /** Inserting into a list ordered highest freshness first keeps it ordered. */
  lemma {:induction false} InsertKeepsOrder(s: seq<Banana>, b: Banana)
    requires NonIncreasing(s)
    ensures NonIncreasing(InsertByFreshness(s, b))
  {
    if s != [] && s[0].freshness >= b.freshness {
      var rest := InsertByFreshness(s[1..], b);
      InsertKeepsOrder(s[1..], b);
      InsertAddsOne(s[1..], b);
      forall k | 0 <= k < |rest| ensures s[0].freshness >= rest[k].freshness {
        assert rest[k] in multiset(rest);
        assert rest[k] in s[1..] || rest[k] == b;
      }
    }
  }

  /** Insertion sort, taking the bananas from left to right. */
  function SortByFreshness(s: seq<Banana>): (r: seq<Banana>)
    ensures multiset(r) == multiset(s)
    ensures NonIncreasing(r)
  {
    if s == [] then []
    else
      assert s == s[..|s| - 1] + [s[|s| - 1]];
      InsertKeepsOrder(SortByFreshness(s[..|s| - 1]), s[|s| - 1]);
      InsertAddsOne(SortByFreshness(s[..|s| - 1]), s[|s| - 1]);
      InsertByFreshness(SortByFreshness(s[..|s| - 1]), s[|s| - 1])
  }

  /**
   * Where the insertion sort puts `b`: the first position whose banana is
   * less fresh than `b`, or the end.
   */
  method InsertionPoint(s: seq<Banana>, b: Banana) returns (j: nat)
    ensures j <= |s|
    ensures forall k :: 0 <= k < j ==> s[k].freshness >= b.freshness
    ensures j < |s| ==> s[j].freshness < b.freshness
  {
    j := 0;
    while j < |s| && s[j].freshness >= b.freshness
      invariant j <= |s|
      invariant forall k :: 0 <= k < j ==> s[k].freshness >= b.freshness
    {
      j := j + 1;
    }
  }

  /** Inserting at the insertion point is what `InsertByFreshness` does. */
  lemma {:induction false} InsertAt(s: seq<Banana>, b: Banana, j: nat)
    requires j <= |s|
    requires forall k :: 0 <= k < j ==> s[k].freshness >= b.freshness
    requires j < |s| ==> s[j].freshness < b.freshness
    ensures InsertByFreshness(s, b) == s[..j] + [b] + s[j..]
  {
    if j == 0 {
      assert s[..j] == [] && s[j..] == s;
    } else {
      var tail := s[1..];
      assert forall k :: 0 <= k < j - 1 ==> tail[k].freshness >= b.freshness by {
        forall k | 0 <= k < j - 1 ensures tail[k].freshness >= b.freshness {
          assert tail[k] == s[k + 1];
        }
      }
      assert j - 1 < |tail| ==> tail[j - 1].freshness < b.freshness;
      InsertAt(tail, b, j - 1);
      assert s[0].freshness >= b.freshness;
      assert InsertByFreshness(s, b) == [s[0]] + InsertByFreshness(tail, b);
      assert s[..j] == [s[0]] + tail[..j - 1];
      assert s[j..] == tail[j - 1..];
    }
  }

  /**
   * The sort as a loop: each banana, left to right, is inserted into the
   * sorted prefix at its insertion point.
   */
  method InsertionSort(s: seq<Banana>) returns (sorted: seq<Banana>)
    ensures sorted == SortByFreshness(s)
    ensures NonIncreasing(sorted)
    ensures multiset(sorted) == multiset(s)
    ensures KeepsTies(s, sorted)
  {
    sorted := [];
    for i := 0 to |s|
      invariant sorted == SortByFreshness(s[..i])
    {
      var b := s[i];
      var j := InsertionPoint(sorted, b);
      InsertAt(sorted, b, j);
      assert s[..i + 1][..i] == s[..i];
      assert SortByFreshness(s[..i + 1]) == InsertByFreshness(sorted, b);
      sorted := sorted[..j] + [b] + sorted[j..];
    }
    assert s[..|s|] == s;
    SortIsStable(s);
  }

  /** In a sorted list, `b` goes after every banana of its own freshness. */
  lemma {:induction false} InsertKeepsTies(s: seq<Banana>, b: Banana, v: int)
    requires NonIncreasing(s)
    ensures Filter(InsertByFreshness(s, b), HasFreshness(v)) == Filter(s + [b], HasFreshness(v))
  {
    var p := HasFreshness(v);
    if s == [] {
    } else if s[0].freshness < b.freshness {
      FilterConcat([b], s, p);
      FilterConcat(s, [b], p);
      if v == b.freshness {
        FilterKeepsNone(s, p);
      }
    } else {
      InsertKeepsTies(s[1..], b, v);
      FilterConcat([s[0]], InsertByFreshness(s[1..], b), p);
      FilterConcat([s[0]], s[1..] + [b], p);
      assert s + [b] == [s[0]] + (s[1..] + [b]);
    }
  }

  /** The insertion sort is stable. */
  lemma {:induction false} SortKeepsTies(s: seq<Banana>, v: int)
    ensures Filter(SortByFreshness(s), HasFreshness(v)) == Filter(s, HasFreshness(v))
  {
    if s != [] {
      var init, last := s[..|s| - 1], s[|s| - 1];
      assert s == init + [last];
      SortKeepsTies(init, v);
      InsertKeepsTies(SortByFreshness(init), last, v);
      FilterConcat(SortByFreshness(init), [last], HasFreshness(v));
      FilterConcat(init, [last], HasFreshness(v));
    }
  }

  lemma SortIsStable(s: seq<Banana>)
    ensures KeepsTies(s, SortByFreshness(s))
  {
    forall v ensures Filter(SortByFreshness(s), HasFreshness(v)) == Filter(s, HasFreshness(v)) {
      SortKeepsTies(s, v);
    }
  }

  /** Keeping the order among ties already makes a rearrangement a permutation. */
  lemma KeepsTiesIsPermutation(s: seq<Banana>, r: seq<Banana>)
    requires KeepsTies(s, r)
    ensures multiset(r) == multiset(s)
  {
    forall x ensures multiset(r)[x] == multiset(s)[x] {
      var p := HasFreshness(x.freshness);
      FilterCounts(r, p);
      FilterCounts(s, p);
      assert p(x);
      assert multiset(Filter(r, p))[x] == multiset(r)[x];
      assert multiset(Filter(s, p))[x] == multiset(s)[x];
    }
  }

  /**
   * If `b` keeps the ties of a non-empty `a`, the first banana of `a` occurs
   * in `b`, so a list `b` ordered highest freshness first starts at least as
   * fresh.
   */
  lemma HeadFreshnessBound(a: seq<Banana>, b: seq<Banana>)
    requires NonIncreasing(b)
    requires KeepsTies(a, b)
    requires a != []
    ensures b != [] && a[0].freshness <= b[0].freshness
  {
    var p := HasFreshness(a[0].freshness);
    assert Filter(a, p) == [a[0]] + Filter(a[1..], p);
    assert a[0] in Filter(b, p);
    FilterCounts(b, p);
    var k :| 0 <= k < |b| && b[k] == a[0];
  }

  /** Two lists that keep each other's ties and start alike keep the ties of their tails. */
  lemma TailsKeepTies(a: seq<Banana>, b: seq<Banana>)
    requires KeepsTies(a, b)
    requires a != [] && b != [] && a[0] == b[0]
    ensures KeepsTies(a[1..], b[1..])
  {
    forall v ensures Filter(b[1..], HasFreshness(v)) == Filter(a[1..], HasFreshness(v)) {
      var p := HasFreshness(v);
      assert Filter(b, p) == Filter(a, p);
      if p(a[0]) {
        assert Filter(a[1..], p) == Filter(a, p)[1..];
        assert Filter(b[1..], p) == Filter(b, p)[1..];
      } else {
        assert Filter(a, p) == Filter(a[1..], p);
        assert Filter(b, p) == Filter(b[1..], p);
      }
    }
  }

  /**
   * Two lists ordered highest freshness first that agree on the order of
   * each freshness value's bananas are the same list.
   */
  lemma {:induction false} SortedWithSameTiesAreEqual(a: seq<Banana>, b: seq<Banana>)
    requires NonIncreasing(a) && NonIncreasing(b)
    requires KeepsTies(a, b)
    ensures a == b
  {
    assert KeepsTies(b, a);
    if a != [] {
      HeadFreshnessBound(a, b);
      HeadFreshnessBound(b, a);
      var p := HasFreshness(a[0].freshness);
      assert Filter(a, p) == [a[0]] + Filter(a[1..], p);
      assert Filter(b, p) == [b[0]] + Filter(b[1..], p);
      assert Filter(b, p) == Filter(a, p);
      assert a[0] == b[0];
      TailsKeepTies(a, b);
      SortedWithSameTiesAreEqual(a[1..], b[1..]);
      assert a == [a[0]] + a[1..];
      assert b == [b[0]] + b[1..];
    } else if b != [] {
      HeadFreshnessBound(b, a);
    }
  }

  /**
   * The reference characterisation: any list ordered highest freshness first
   * that keeps ties in their old order is what the insertion sort returns.
   */
  lemma StableSortIsUnique(s: seq<Banana>, r: seq<Banana>)
    requires NonIncreasing(r)
    requires KeepsTies(s, r)
    ensures r == SortByFreshness(s)
  {
    SortIsStable(s);
    SortedWithSameTiesAreEqual(SortByFreshness(s), r);
  }
}

/** Order-preserving selection over sequences: the model of `Array.prototype.filter`. */
module Sequences {

  /** The elements of `s` that satisfy `p`, in their original order. */
  function Filter<T(!new)>(s: seq<T>, p: T -> bool): (r: seq<T>)
    ensures |r| <= |s|
    ensures forall i :: 0 <= i < |r| ==> p(r[i])
  {
    if s == [] then []
    else if p(s[0]) then [s[0]] + Filter(s[1..], p)
    else Filter(s[1..], p)
  }

  /** A filter keeps every occurrence of what passes and nothing else. */
  lemma {:induction false} FilterCounts<T(!new)>(s: seq<T>, p: T -> bool)
    ensures forall x :: multiset(Filter(s, p))[x] == if p(x) then multiset(s)[x] else 0
    ensures forall x :: x in Filter(s, p) <==> x in s && p(x)
  {
    if s != [] {
      FilterCounts(s[1..], p);
      assert s == [s[0]] + s[1..];
    }
  }

  /** Filtering distributes over concatenation: relative order is kept. */
  lemma {:induction false} FilterConcat<T(!new)>(a: seq<T>, b: seq<T>, p: T -> bool)
    ensures Filter(a + b, p) == Filter(a, p) + Filter(b, p)
  {
    if a == [] {
      assert a + b == b;
    } else {
      assert (a + b)[0] == a[0];
      assert (a + b)[1..] == a[1..] + b;
      FilterConcat(a[1..], b, p);
    }
  }

  /** A filter that every element passes changes nothing. */
  lemma {:induction false} FilterKeepsAll<T(!new)>(s: seq<T>, p: T -> bool)
    requires forall i :: 0 <= i < |s| ==> p(s[i])
    ensures Filter(s, p) == s
  {
    if s != [] {
      FilterKeepsAll(s[1..], p);
    }
  }

  /** A filter that no element passes yields the empty sequence. */
  lemma {:induction false} FilterKeepsNone<T(!new)>(s: seq<T>, p: T -> bool)
    requires forall i :: 0 <= i < |s| ==> !p(s[i])
    ensures Filter(s, p) == []
  {
    if s != [] {
      FilterKeepsNone(s[1..], p);
    }
  }

  /**
   * Two complementary filters split a sequence: together they hold every
   * element exactly as often as the sequence does, so their lengths add up.
   */
  lemma FilterComplement<T(!new)>(s: seq<T>, p: T -> bool, q: T -> bool)
    requires forall x :: q(x) == !p(x)
    ensures |Filter(s, p)| + |Filter(s, q)| == |s|
    ensures multiset(Filter(s, p)) + multiset(Filter(s, q)) == multiset(s)
  {
    var kept, dropped := Filter(s, p), Filter(s, q);
    FilterCounts(s, p);
    FilterCounts(s, q);
    forall x ensures (multiset(kept) + multiset(dropped))[x] == multiset(s)[x] {
      assert q(x) == !p(x);
    }
    assert multiset(kept) + multiset(dropped) == multiset(s);
    assert |multiset(kept) + multiset(dropped)| == |kept| + |dropped|;
  }

  /** Filtering out the one element that fails `p` closes the gap around it. */
  lemma FilterDropsOne<T(!new)>(before: seq<T>, x: T, after: seq<T>, p: T -> bool)
    requires forall j :: 0 <= j < |before| ==> p(before[j])
    requires forall j :: 0 <= j < |after| ==> p(after[j])
    requires !p(x)
    ensures Filter(before + [x] + after, p) == before + after
  {
    assert Filter(before + [x], p) == before by {
      FilterConcat(before, [x], p);
      FilterKeepsAll(before, p);
      FilterKeepsNone([x], p);
    }
    FilterConcat(before + [x], after, p);
    FilterKeepsAll(after, p);
  }
}

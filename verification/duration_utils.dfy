/** Averaging a collection of run durations (in nanoseconds, the resolution of
    `java.time.Duration`), skipping null elements. */
module DurationUtils {
  import opened Outcomes
  import opened JavaArith

  /** Sum of the non-null elements. */
  function SumPresent(xs: seq<Option<int>>): int
  {
    if |xs| == 0 then 0
    else SumPresent(xs[..|xs| - 1]) + (if xs[|xs| - 1].Some? then xs[|xs| - 1].value else 0)
  }

  /** Number of non-null elements. */
  function CountPresent(xs: seq<Option<int>>): nat
  {
    if |xs| == 0 then 0
    else CountPresent(xs[..|xs| - 1]) + (if xs[|xs| - 1].Some? then 1 else 0)
  }

  /** The reference average: zero for a null or all-null collection, otherwise the sum
      of the present elements divided by their count, truncated toward zero as
      `Duration.dividedBy` does. */
  function Average(durations: Option<seq<Option<int>>>): int
  {
    match durations
    case None => 0
    case Some(xs) => if CountPresent(xs) == 0 then 0 else TruncDiv(SumPresent(xs), CountPresent(xs))
  }

  /** `average`: the loop of the source, accumulating the sum and the count of the
      non-null elements in one pass. */
  method ComputeAverage(durations: Option<seq<Option<int>>>) returns (r: int)
    ensures r == Average(durations)
    ensures durations.None? || (durations.Some? && |durations.value| == 0) ==> r == 0
  {
    if durations.None? || |durations.value| == 0 {
      return 0;
    }
    var xs := durations.value;
    var sum := 0;
    var count := 0;
    var i := 0;
    while i < |xs|
      invariant 0 <= i <= |xs|
      invariant sum == SumPresent(xs[..i])
      invariant count == CountPresent(xs[..i])
    {
      assert xs[..i + 1][..i] == xs[..i];
      if xs[i].Some? {
        sum := sum + xs[i].value;
        count := count + 1;
      }
      i := i + 1;
    }
    assert xs[..|xs|] == xs;
    r := if count == 0 then 0 else TruncDiv(sum, count);
  }

  /** The non-null elements, in order. */
  function Present(xs: seq<Option<int>>): (ys: seq<int>)
    ensures |ys| == CountPresent(xs)
  {
    if |xs| == 0 then []
    else Present(xs[..|xs| - 1]) + (if xs[|xs| - 1].Some? then [xs[|xs| - 1].value] else [])
  }

  function Wrap(ys: seq<int>): (xs: seq<Option<int>>)
    ensures |xs| == |ys|
    ensures forall i :: 0 <= i < |ys| ==> xs[i] == Some(ys[i])
  {
    seq(|ys|, i requires 0 <= i < |ys| => Some(ys[i]))
  }

  /** Null elements take no part: averaging the collection is averaging its non-null
      elements. */
  lemma {:induction false} NullsIgnored(xs: seq<Option<int>>)
    ensures SumPresent(Wrap(Present(xs))) == SumPresent(xs)
    ensures CountPresent(Wrap(Present(xs))) == CountPresent(xs)
    ensures Average(Some(xs)) == Average(Some(Wrap(Present(xs))))
  {
    if |xs| > 0 {
      var init := xs[..|xs| - 1];
      NullsIgnored(init);
      var ys := Present(init);
      var zs := Present(xs);
      if xs[|xs| - 1].Some? {
        assert zs == ys + [xs[|xs| - 1].value];
        assert Wrap(zs)[..|zs| - 1] == Wrap(ys);
      } else {
        assert zs == ys;
      }
    }
  }

  /** A collection holding only nulls averages to zero. */
  lemma {:induction false} AllNullsAverageZero(xs: seq<Option<int>>)
    requires forall i :: 0 <= i < |xs| ==> xs[i].None?
    ensures CountPresent(xs) == 0
    ensures Average(Some(xs)) == 0
  {
    if |xs| > 0 {
      AllNullsAverageZero(xs[..|xs| - 1]);
    }
  }

  /** Every present element bounds the sum: `count * lo <= sum <= count * hi`. */
  lemma {:induction false} SumBetween(xs: seq<Option<int>>, lo: int, hi: int)
    requires forall i :: 0 <= i < |xs| && xs[i].Some? ==> lo <= xs[i].value <= hi
    ensures CountPresent(xs) * lo <= SumPresent(xs) <= CountPresent(xs) * hi
  {
    if |xs| > 0 {
      var init := xs[..|xs| - 1];
      SumBetween(init, lo, hi);
      var c := CountPresent(init);
      if xs[|xs| - 1].Some? {
        assert (c + 1) * lo == c * lo + lo;
        assert (c + 1) * hi == c * hi + hi;
      }
    }
  }

  /** The smallest and largest present elements, when some element is present. */
  lemma {:induction false} PresentExtremes(xs: seq<Option<int>>) returns (lo: int, hi: int)
    requires CountPresent(xs) > 0
    ensures exists i :: 0 <= i < |xs| && xs[i] == Some(lo)
    ensures exists i :: 0 <= i < |xs| && xs[i] == Some(hi)
    ensures forall i :: 0 <= i < |xs| && xs[i].Some? ==> lo <= xs[i].value <= hi
  {
    var init := xs[..|xs| - 1];
    var last := xs[|xs| - 1];
    if CountPresent(init) == 0 {
      AllAbsent(init);
      lo, hi := last.value, last.value;
    } else {
      lo, hi := PresentExtremes(init);
      if last.Some? && last.value < lo {
        lo := last.value;
      }
      if last.Some? && last.value > hi {
        hi := last.value;
      }
    }
  }

  lemma {:induction false} AllAbsent(xs: seq<Option<int>>)
    requires CountPresent(xs) == 0
    ensures forall i :: 0 <= i < |xs| ==> xs[i].None?
  {
    if |xs| > 0 {
      AllAbsent(xs[..|xs| - 1]);
    }
  }

  /** The average lies between the smallest and the largest non-null element: it is at
      least one present element and at most another. */
  lemma AverageWithinRange(xs: seq<Option<int>>)
    requires CountPresent(xs) > 0
    ensures exists i :: 0 <= i < |xs| && xs[i].Some? && xs[i].value <= Average(Some(xs))
    ensures exists i :: 0 <= i < |xs| && xs[i].Some? && Average(Some(xs)) <= xs[i].value
  {
    var lo, hi := PresentExtremes(xs);
    SumBetween(xs, lo, hi);
    TruncDivBetween(SumPresent(xs), CountPresent(xs), lo, hi);
    var i :| 0 <= i < |xs| && xs[i] == Some(lo);
    var j :| 0 <= j < |xs| && xs[j] == Some(hi);
    assert xs[i].Some? && xs[i].value <= Average(Some(xs));
    assert xs[j].Some? && Average(Some(xs)) <= xs[j].value;
  }

  /** Truncating a quotient toward zero keeps it within bounds that hold of the exact
      quotient. */
  lemma TruncDivBetween(s: int, n: int, lo: int, hi: int)
    requires n > 0 && n * lo <= s <= n * hi
    ensures lo <= TruncDiv(s, n) <= hi
  {
    if s >= 0 {
      NonNegativeQuotientBetween(s, n, lo, hi);
    } else {
      assert (-hi) * n == -(n * hi);
      assert (-lo) * n == -(n * lo);
      NonNegativeQuotientBetween(-s, n, -hi, -lo);
    }
  }

  /** The bounds for a non-negative dividend, where truncation is Euclidean division. */
  lemma NonNegativeQuotientBetween(s: nat, n: int, lo: int, hi: int)
    requires n > 0 && lo * n <= s <= hi * n
    ensures lo <= TruncDiv(s, n) <= hi
  {
    assert TruncDiv(s, n) == s / n;
    QuotientAtMost(s, n, hi);
    QuotientAtLeast(s, n, lo);
  }

  /** The worked example: [20, 30, 40] averages to 30. */
  lemma AverageExample()
    ensures Average(Some([Some(20), Some(30), Some(40)])) == 30
  {
    var xs: seq<Option<int>> := [Some(20), Some(30), Some(40)];
    assert xs[..2] == [Some(20), Some(30)];
    assert xs[..1] == [Some(20)];
    assert xs[..2][..1] == [Some(20)];
    assert SumPresent(xs[..1]) == 20 && CountPresent(xs[..1]) == 1;
    assert SumPresent(xs[..2]) == 50 && CountPresent(xs[..2]) == 2;
    assert SumPresent(xs) == 90 && CountPresent(xs) == 3;
  }
}

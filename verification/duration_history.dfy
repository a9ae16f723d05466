/** The bounded history of run durations: a queue of fixed capacity that evicts its
    oldest entry to make room for a new one (Guava's `EvictingQueue`). */
module DurationHistory {
  import opened Outcomes
  import DurationUtils

  datatype History = History(capacity: nat, items: seq<int>)

  /** The queue never holds more than its capacity. */
  predicate Valid(h: History)
  {
    |h.items| <= h.capacity
  }

  /** A queue that respects its capacity. */
  type BoundedHistory = h: History | Valid(h) witness History(0, [])

  /** A new, empty queue. */
  function Create(capacity: nat): (h: History)
    ensures Valid(h) && h.items == [] && h.capacity == capacity
  {
    History(capacity, [])
  }

  /** `offer`: append at the tail; when full, drop the head first; a queue of capacity
      zero accepts nothing. */
  function Offer(h: History, x: int): (h': History)
    requires Valid(h)
    ensures Valid(h') && h'.capacity == h.capacity
    ensures h.capacity == 0 ==> h'.items == []
    ensures h.capacity > 0 ==> |h'.items| > 0 && h'.items[|h'.items| - 1] == x
    ensures h.capacity > 0 ==> h'.items[..|h'.items| - 1] == Suffix(h.items, h.capacity - 1)
  {
    if h.capacity == 0 then h
    else if |h.items| == h.capacity then History(h.capacity, h.items[1..] + [x])
    else History(h.capacity, h.items + [x])
  }

  /** The last `n` elements of `s` (all of `s` when it is shorter). */
  function Suffix(s: seq<int>, n: nat): (r: seq<int>)
    ensures |r| == if |s| < n then |s| else n
  {
    if |s| <= n then s else s[|s| - n..]
  }

  /** Offering every element of `xs` in turn. */
  function OfferAll(h: History, xs: seq<int>): (h': History)
    requires Valid(h)
    ensures Valid(h') && h'.capacity == h.capacity
    decreases |xs|
  {
    if |xs| == 0 then h else OfferAll(Offer(h, xs[0]), xs[1..])
  }

  /** A queue that has seen `xs` holds exactly the most recent `capacity` of them, in
      arrival order: the oldest are evicted first. */
  lemma {:induction false} OfferAllKeepsNewest(h: History, xs: seq<int>)
    requires Valid(h)
    ensures OfferAll(h, xs).items == Suffix(h.items + xs, h.capacity)
    decreases |xs|
  {
    if |xs| == 0 {
      assert h.items + xs == h.items;
    } else {
      var h1 := Offer(h, xs[0]);
      OfferAllKeepsNewest(h1, xs[1..]);
      OfferKeepsNewest(h, xs[0]);
      SuffixOfSuffix(h.items + [xs[0]], xs[1..], h.capacity);
      assert (h.items + [xs[0]]) + xs[1..] == h.items + xs;
    }
  }

  lemma OfferKeepsNewest(h: History, x: int)
    requires Valid(h)
    ensures Offer(h, x).items == Suffix(h.items + [x], h.capacity)
  {
    if h.capacity > 0 && |h.items| == h.capacity {
      assert h.items[1..] + [x] == (h.items + [x])[1..];
    }
  }

  /** Keeping the last `n` of a prefix and then appending, then keeping the last `n`,
      is keeping the last `n` of the whole. */
  lemma SuffixOfSuffix(a: seq<int>, b: seq<int>, n: nat)
    ensures Suffix(Suffix(a, n) + b, n) == Suffix(a + b, n)
  {
    if |a| > n {
      var k := |a| - n;
      assert Suffix(a, n) + b == (a + b)[k..];
      if |Suffix(a, n) + b| > n {
        assert (a + b)[k..][|(a + b)[k..]| - n..] == (a + b)[|a + b| - n..];
      }
    }
  }

  /** The mean of the retained durations. */
  function AverageOf(h: History): int
  {
    DurationUtils.Average(Some(DurationUtils.Wrap(h.items)))
  }

  /** Capacity 3 fed 10, 20, 30, 40 keeps 20, 30, 40, whose average is 30. */
  lemma EvictionExample()
    ensures OfferAll(Create(3), [10, 20, 30, 40]).items == [20, 30, 40]
    ensures AverageOf(OfferAll(Create(3), [10, 20, 30, 40])) == 30
  {
    OfferAllKeepsNewest(Create(3), [10, 20, 30, 40]);
    assert Create(3).items + [10, 20, 30, 40] == [10, 20, 30, 40];
    assert [10, 20, 30, 40][1..] == [20, 30, 40];
    var w := DurationUtils.Wrap([20, 30, 40]);
    assert w == [Some(20), Some(30), Some(40)];
    DurationUtils.AverageExample();
  }
}

/** Calendar arithmetic: aligning a timer's first fire on the next boundary of its
    interval, and the `"null"` sentinel of date formatting.

    Time is naive wall-clock time: milliseconds since a midnight epoch, with no time
    zone and no daylight-saving shifts, so adding n units to a calendar field is adding
    n times the unit's milliseconds. */
module DateUtils {
  import opened Outcomes
  import opened JavaArith
  import opened TimeUnits

  type Instant = nat

  const NULL_STRING: string := "null"

  // ---- Calendar fields ----

  function Millisecond(t: Instant): nat { t % 1000 }
  function Second(t: Instant): nat { (t / 1000) % 60 }
  function Minute(t: Instant): nat { (t / 60_000) % 60 }
  function HourOfDay(t: Instant): nat { (t / 3_600_000) % 24 }

  /** The field a unit stands for (SECOND, MINUTE, HOUR_OF_DAY). */
  function Field(t: Instant, u: TimeUnit): nat
  {
    match u
    case SECONDS => Second(t)
    case MINUTES => Minute(t)
    case HOURS => HourOfDay(t)
  }

  /** How many values the unit's field runs through before it wraps. */
  function Cycle(u: TimeUnit): nat
  {
    match u
    case SECONDS => 60
    case MINUTES => 60
    case HOURS => 24
  }

  /** Milliseconds of one step of the next-smaller field, the one alignment zeroes:
      the minute for HOURS, the second for MINUTES, the millisecond for SECONDS. */
  function SmallerMillis(u: TimeUnit): nat
  {
    match u
    case SECONDS => 1
    case MINUTES => 1000
    case HOURS => 60_000
  }

  /** The value of that next-smaller field. */
  function SmallerField(t: Instant, u: TimeUnit): nat
  {
    match u
    case SECONDS => Millisecond(t)
    case MINUTES => Second(t)
    case HOURS => Minute(t)
  }

  /** `Calendar.set(field, 0)` on the next-smaller field; nothing else changes. */
  function ClearSmallerField(t: Instant, u: TimeUnit): Instant
  {
    t - SmallerField(t, u) * SmallerMillis(u)
  }

  /** `getNextExactDateEveryInterval`: advance the unit's field to the next multiple of
      `interval` (by a full interval when it already is one), then zero the
      next-smaller field. A null base and a zero interval (the `%` divides by it)
      throw. */
  function NextExactDateEveryInterval(interval: nat, unit: TimeUnit, base: Option<Instant>): (r: Result<Instant>)
    ensures base.None? ==> r.Failure? && r.error.NullPointer?
    ensures base.Some? && interval == 0 ==> r.Failure? && r.error.Arithmetic?
    ensures r.Success? <==> base.Some? && interval > 0
  {
    match base
    case None => Failure(NullPointer("The base calendar must not be null"))
    case Some(b) =>
      if interval == 0 then Failure(Arithmetic("/ by zero"))
      else
        var time := Field(b, unit);
        var timeDiff := if time % interval == 0 then 0 else interval - time % interval;
        var next := b + timeDiff * Millis(unit);
        var next' := if next <= b then next + interval * Millis(unit) else next;
        Success(ClearSmallerField(next', unit))
  }

  /** How many units the field is advanced by before the smaller field is cleared. */
  function Advance(interval: nat, time: nat): (k: nat)
    requires interval > 0
    ensures 1 <= k <= interval
    ensures (time + k) % interval == 0
  {
    var k := if time % interval == 0 then interval else interval - time % interval;
    AdvanceReachesMultiple(interval, time, k);
    k
  }

  lemma AdvanceReachesMultiple(interval: nat, time: nat, k: int)
    requires interval > 0
    requires k == if time % interval == 0 then interval else interval - time % interval
    ensures (time + k) % interval == 0
  {
    assert time + k == 0 + (time / interval + 1) * interval;
    DivModAddMultiple(0, time / interval + 1, interval);
  }

  lemma AdvanceIsTheStep(interval: nat, unit: TimeUnit, b: Instant)
    requires interval > 0
    ensures
      var time := Field(b, unit);
      var timeDiff := if time % interval == 0 then 0 else interval - time % interval;
      var next := b + timeDiff * Millis(unit);
      var next' := if next <= b then next + interval * Millis(unit) else next;
      next' == b + Advance(interval, time) * Millis(unit)
  {
  }

  // ---- Arithmetic behind the alignment ----

  /** A unit of `c * s` milliseconds splits into `c` steps of `s`. */
  lemma SplitUnit(t: nat, big: int, s: int, c: int)
    requires s > 0 && c > 0 && big == c * s
    ensures t % big == ((t / s) % c) * s + t % s
    ensures t / big == (t / s) / c
  {
    var hi, mid, lo := (t / s) / c, (t / s) % c, t % s;
    assert t == (t / s) * s + lo;
    assert t / s == hi * c + mid;
    assert t == hi * big + (mid * s + lo) by {
      assert (t / s) * s == (hi * c + mid) * s == hi * (c * s) + mid * s;
    }
    assert mid * s + lo < big by {
      MulMonotone(mid, c - 1, s);
      assert (c - 1) * s == big - s;
    }
    DivModUnique(t, big, hi, mid * s + lo);
  }

  lemma SmallerSplit(t: Instant, u: TimeUnit)
    ensures Millis(u) == (Millis(u) / SmallerMillis(u)) * SmallerMillis(u)
    ensures SmallerField(t, u) == (t / SmallerMillis(u)) % (Millis(u) / SmallerMillis(u))
    ensures t % Millis(u) == SmallerField(t, u) * SmallerMillis(u) + t % SmallerMillis(u)
    ensures t / Millis(u) == (t / SmallerMillis(u)) / (Millis(u) / SmallerMillis(u))
  {
    SplitUnit(t, Millis(u), SmallerMillis(u), Millis(u) / SmallerMillis(u));
  }

  /** Clearing the smaller field keeps the whole units and everything finer than the
      smaller field. */
  lemma ClearShape(t: Instant, u: TimeUnit)
    ensures ClearSmallerField(t, u) == (t / Millis(u)) * Millis(u) + t % SmallerMillis(u)
    ensures ClearSmallerField(t, u) / Millis(u) == t / Millis(u)
    ensures ClearSmallerField(t, u) % SmallerMillis(u) == t % SmallerMillis(u)
    ensures SmallerField(ClearSmallerField(t, u), u) == 0
  {
    var U, S := Millis(u), SmallerMillis(u);
    SmallerSplit(t, u);
    var r := ClearSmallerField(t, u);
    assert r == (t / U) * U + t % S;
    DivModUnique(r, U, t / U, t % S);
    var c := U / S;
    DivModAddMultiple(t % S, (t / U) * c, S);
    assert r == t % S + ((t / U) * c) * S;
    SmallerSplit(r, u);
  }

  /** Adding whole units changes neither the smaller field nor anything finer. */
  lemma AddUnitsKeepsFiner(b: Instant, k: nat, u: TimeUnit)
    ensures (b + k * Millis(u)) / Millis(u) == b / Millis(u) + k
    ensures (b + k * Millis(u)) % Millis(u) == b % Millis(u)
    ensures (b + k * Millis(u)) % SmallerMillis(u) == b % SmallerMillis(u)
  {
    DivModAddMultiple(b, k, Millis(u));
    var c := Millis(u) / SmallerMillis(u);
    SmallerSplit(b, u);
    assert k * Millis(u) == (k * c) * SmallerMillis(u);
    DivModAddMultiple(b, k * c, SmallerMillis(u));
  }

  // ---- Properties of the alignment ----

  /** The aligned date is strictly after the base and at most one interval after it. */
  lemma {:induction false} AlignmentBounds(interval: nat, unit: TimeUnit, base: Instant)
    requires interval > 0
    ensures NextExactDateEveryInterval(interval, unit, Some(base)).Success?
    ensures var r := NextExactDateEveryInterval(interval, unit, Some(base)).value;
      base < r <= base + interval * Millis(unit)
  {
    var k := Advance(interval, Field(base, unit));
    AdvanceIsTheStep(interval, unit, base);
    var next := base + k * Millis(unit);
    ClearShape(next, unit);
    AddUnitsKeepsFiner(base, k, unit);
    SmallerSplit(base, unit);
    MulMonotone(1, k, Millis(unit));
    MulMonotone(k, interval, Millis(unit));
  }

  /** Only the next-smaller field is zeroed; the fields below it are those of the base.
      For HOURS the seconds and milliseconds survive. */
  lemma {:induction false} AlignmentClearsOnlyNextSmaller(interval: nat, unit: TimeUnit, base: Instant)
    requires interval > 0
    ensures NextExactDateEveryInterval(interval, unit, Some(base)).Success?
    ensures var r := NextExactDateEveryInterval(interval, unit, Some(base)).value;
      && SmallerField(r, unit) == 0
      && (unit == HOURS ==> Minute(r) == 0 && Second(r) == Second(base) && Millisecond(r) == Millisecond(base))
      && (unit == MINUTES ==> Second(r) == 0 && Millisecond(r) == Millisecond(base))
      && (unit == SECONDS ==> Millisecond(r) == 0)
  {
    var k := Advance(interval, Field(base, unit));
    AdvanceIsTheStep(interval, unit, base);
    var next := base + k * Millis(unit);
    var r := ClearSmallerField(next, unit);
    ClearShape(next, unit);
    AddUnitsKeepsFiner(base, k, unit);
    assert r % SmallerMillis(unit) == base % SmallerMillis(unit);
    if unit == HOURS {
      SameBelowMinute(r, base);
    }
  }

  /** Two instants that agree below the minute agree on second and millisecond. */
  lemma SameBelowMinute(r: Instant, base: Instant)
    requires r % 60_000 == base % 60_000
    ensures Second(r) == Second(base) && Millisecond(r) == Millisecond(base)
  {
    SplitUnit(r, 60_000, 1000, 60);
    SplitUnit(base, 60_000, 1000, 60);
    DivModUnique(r % 60_000, 1000, Second(r), Millisecond(r));
    DivModUnique(base % 60_000, 1000, Second(base), Millisecond(base));
  }

  /** The aligned field is the base's field advanced by `Advance` units, wrapping at
      the field's cycle; when the interval divides the cycle it lands on a multiple of
      the interval (03:25 with 4 hours gives 04:00). */
  lemma {:induction false} AlignmentOnBoundary(interval: nat, unit: TimeUnit, base: Instant)
    requires interval > 0
    ensures NextExactDateEveryInterval(interval, unit, Some(base)).Success?
    ensures var r := NextExactDateEveryInterval(interval, unit, Some(base)).value;
      Field(r, unit) == (base / Millis(unit) + Advance(interval, Field(base, unit))) % Cycle(unit)
    ensures Cycle(unit) % interval == 0 ==>
      Field(NextExactDateEveryInterval(interval, unit, Some(base)).value, unit) % interval == 0
  {
    var time := Field(base, unit);
    var k := Advance(interval, time);
    AdvanceIsTheStep(interval, unit, base);
    var next := base + k * Millis(unit);
    var r := ClearSmallerField(next, unit);
    assert NextExactDateEveryInterval(interval, unit, Some(base)) == Success(r);
    ClearShape(next, unit);
    AddUnitsKeepsFiner(base, k, unit);
    FieldCountsUnits(r, unit);
    FieldCountsUnits(base, unit);
    assert r / Millis(unit) == base / Millis(unit) + k;
    assert Field(r, unit) == (base / Millis(unit) + k) % Cycle(unit);
    if Cycle(unit) % interval == 0 {
      WrapKeepsMultiple(base / Millis(unit), k, Cycle(unit), interval);
    }
  }

  lemma FieldCountsUnits(t: Instant, u: TimeUnit)
    ensures Field(t, u) == (t / Millis(u)) % Cycle(u)
  {
  }

  /** If `x mod c + k` is a multiple of `d` and `d` divides `c`, so is `(x + k) mod c`. */
  lemma WrapKeepsMultiple(x: nat, k: nat, c: int, d: int)
    requires c > 0 && d > 0 && c % d == 0
    requires (x % c + k) % d == 0
    ensures ((x + k) % c) % d == 0
  {
    var y: nat := x % c + k;
    var q := x / c;
    var m := c / d;
    assert c == m * d;
    assert q * c == (q * m) * d by {
      assert q * c == q * (m * d);
    }
    assert q * m >= 0 by {
      MulMonotone(0, q, m);
    }
    assert x + k == y + (q * m) * d;
    DivModAddMultiple(y, q * m, d);
    ModOfModMultiple(x + k, c, d);
  }

  /** A fixed-rate timer started on an aligned boundary stays on boundaries: every
      later fire, one interval apart, also has its field at a multiple of the interval. */
  lemma {:induction false} FixedRateStaysAligned(interval: nat, unit: TimeUnit, first: Instant, n: nat)
    requires interval > 0 && Cycle(unit) % interval == 0
    requires Field(first, unit) % interval == 0
    ensures Field(first + n * (interval * Millis(unit)), unit) % interval == 0
  {
    var u := Millis(unit);
    var x := first / u;
    var steps: nat := n * interval;
    var later := first + steps * u;
    MulAssociates(n, interval, u);
    AddUnitsKeepsFiner(first, steps, unit);
    FieldCountsUnits(first, unit);
    FieldCountsUnits(later, unit);
    assert Field(later, unit) == (x + steps) % Cycle(unit);
    StepsKeepMultiple(x, n, interval, Cycle(unit));
  }

  lemma MulAssociates(a: int, b: int, c: int)
    ensures a * (b * c) == (a * b) * c
  {
  }

  /** Counting whole intervals from a multiple of the interval, modulo a cycle the
      interval divides, stays on multiples of the interval. */
  lemma StepsKeepMultiple(x: nat, n: nat, interval: int, c: int)
    requires interval > 0 && c > 0 && c % interval == 0
    requires (x % c) % interval == 0
    ensures ((x + n * interval) % c) % interval == 0
  {
    ModOfModMultiple(x + n * interval, c, interval);
    DivModAddMultiple(x, n, interval);
    ModOfModMultiple(x, c, interval);
  }

  /** The documented example: 03:25 with a 4-hour interval aligns to 04:00. */
  lemma FourHoursFromThreeTwentyFive()
    ensures NextExactDateEveryInterval(4, HOURS, Some(3 * 3_600_000 + 25 * 60_000)) == Success(4 * 3_600_000)
  {
  }

  /** `formatDate` as written: the pattern's formatter carries no time zone, so formatting
      an `Instant` cannot resolve the year (or any other calendar field) and throws for
      every present date. Only `null` renders, as `"null"`. */
  function FormatDateAsWritten(date: Option<Instant>): (r: Result<string>)
    ensures r.Success? <==> date.None?
    ensures r.Success? ==> r.value == NULL_STRING
    ensures r.Failure? ==> r.error == UnsupportedTemporalType("YearOfEra")
  {
    match date
    case None => Success(NULL_STRING)
    case Some(_) => Failure(UnsupportedTemporalType("YearOfEra"))
  }

  /** The two agree on `null` and on nothing else: every present date throws as written
      and is rendered by the intended formatter. */
  lemma FormatDateAsWrittenDiverges(d: Instant, render: Instant -> string)
    ensures FormatDateAsWritten(None) == Success(FormatDate(None, render))
    ensures FormatDateAsWritten(Some(d)).Failure?
    ensures FormatDate(Some(d), render) == render(d)
  {
  }

  /** `formatDate` as intended: `null` renders as the literal `"null"`; a present date
      goes through a zone-aware formatter, which is not modelled and is passed in. */
  function FormatDate(date: Option<Instant>, render: Instant -> string): (r: string)
    ensures date.None? ==> r == "null"
    ensures date.Some? ==> r == render(date.value)
  {
    match date
    case None => NULL_STRING
    case Some(d) => render(d)
  }
}

/** Parsing free text such as "5s", "2 minutes" or "90" into a duration and a unit. */
module TimeIntervals {
  import opened Outcomes
  import opened JavaArith
  import opened TimeUnits

  datatype TimeInterval = TimeInterval(duration: nat, unit: TimeUnit)

  /** The two character classes the parser searches for: `\d` and `[a-zA-Z]`. */
  datatype CharClass = Digits | Letters

  predicate InClass(c: char, cls: CharClass)
  {
    match cls
    case Digits => '0' <= c <= '9'
    case Letters => 'a' <= c <= 'z' || 'A' <= c <= 'Z'
  }

  /** `s[i..j]` is the leftmost maximal run of the class: what a greedy `find` returns. */
  ghost predicate IsFirstRun(s: string, cls: CharClass, i: int, j: int)
  {
    && 0 <= i < j <= |s|
    && (forall k :: 0 <= k < i ==> !InClass(s[k], cls))
    && (forall k :: i <= k < j ==> InClass(s[k], cls))
    && (j == |s| || !InClass(s[j], cls))
  }

  /** The first index at or after `from` whose character is in the class, or `|s|`. */
  function RunStart(s: string, cls: CharClass, from: nat): (i: nat)
    requires from <= |s|
    ensures from <= i <= |s|
    ensures forall k :: from <= k < i ==> !InClass(s[k], cls)
    ensures i < |s| ==> InClass(s[i], cls)
    decreases |s| - from
  {
    if from == |s| || InClass(s[from], cls) then from else RunStart(s, cls, from + 1)
  }

  /** The first index at or after `from` whose character is NOT in the class, or `|s|`. */
  function RunEnd(s: string, cls: CharClass, from: nat): (j: nat)
    requires from <= |s|
    ensures from <= j <= |s|
    ensures forall k :: from <= k < j ==> InClass(s[k], cls)
    ensures j < |s| ==> !InClass(s[j], cls)
    decreases |s| - from
  {
    if from == |s| || !InClass(s[from], cls) then from else RunEnd(s, cls, from + 1)
  }

  /** The bounds of the first maximal run of the class, if the class occurs at all. */
  function FindRun(s: string, cls: CharClass): (r: Option<(nat, nat)>)
    ensures r.None? <==> forall k :: 0 <= k < |s| ==> !InClass(s[k], cls)
    ensures r.Some? ==> IsFirstRun(s, cls, r.value.0, r.value.1)
  {
    var i := RunStart(s, cls, 0);
    if i == |s| then None else Some((i, RunEnd(s, cls, i)))
  }

  /** The first maximal run is unique. */
  lemma FirstRunUnique(s: string, cls: CharClass, i: int, j: int, i': int, j': int)
    requires IsFirstRun(s, cls, i, j) && IsFirstRun(s, cls, i', j')
    ensures i == i' && j == j'
  {
    assert InClass(s[i], cls) && InClass(s[i'], cls);
    assert j < |s| ==> !InClass(s[j], cls);
    assert j' < |s| ==> !InClass(s[j'], cls);
  }

  predicate AllDigits(ds: string)
  {
    forall k :: 0 <= k < |ds| ==> '0' <= ds[k] <= '9'
  }

  /** The decimal value of a digit string (`Integer.parseInt` without the range check). */
  function DecimalValue(ds: string): nat
    requires AllDigits(ds)
  {
    if |ds| == 0 then 0
    else DecimalValue(ds[..|ds| - 1]) * 10 + (ds[|ds| - 1] as int - '0' as int)
  }

  /** `extractFirstDigitGroupFrom`: the value of the first digit run. No digit at all,
      or a value beyond `int`, is an IllegalArgument (NumberFormatException). */
  function ExtractFirstDigitGroup(input: string): (r: Result<nat>)
    ensures r.Failure? ==> r.error.IllegalArgument?
    ensures (forall k :: 0 <= k < |input| ==> !InClass(input[k], Digits)) ==> r.Failure?
    ensures r.Success? ==>
              r.value <= MAX_INT
              && exists i, j :: IsFirstRun(input, Digits, i, j) && AllDigits(input[i..j]) && r.value == DecimalValue(input[i..j])
  {
    match FindRun(input, Digits)
    case None => Failure(IllegalArgument("No digit found in input string"))
    case Some((i, j)) =>
      assert AllDigits(input[i..j]);
      var v := DecimalValue(input[i..j]);
      if v > MAX_INT then Failure(IllegalArgument("For input string")) else Success(v)
  }

  /** `extractFirstLetterGroupFrom`: the first letter run, or "" when there is none. */
  function ExtractFirstLetterGroup(input: string): (r: string)
    ensures r == "" <==> forall k :: 0 <= k < |input| ==> !InClass(input[k], Letters)
    ensures r != "" ==> exists i, j :: IsFirstRun(input, Letters, i, j) && r == input[i..j]
  {
    match FindRun(input, Letters)
    case None => ""
    case Some((i, j)) => input[i..j]
  }

  /** `TimeInterval.of`: digits first (so a digit failure wins), then the unit: the
      default when no letters occur, otherwise the unit the letter run identifies. */
  function Of(input: string): (r: Result<TimeInterval>)
    ensures r.Failure? ==> r.error.IllegalArgument?
    ensures r.Success? <==>
              ExtractFirstDigitGroup(input).Success?
              && (ExtractFirstLetterGroup(input) == "" || FindByIdentifier(Some(ExtractFirstLetterGroup(input))).Success?)
    ensures r.Success? ==> r.value.duration == ExtractFirstDigitGroup(input).value
    ensures r.Success? && ExtractFirstLetterGroup(input) == "" ==> r.value.unit == DEFAULT
    ensures r.Success? && ExtractFirstLetterGroup(input) != "" ==>
      IsIdentifiableBy(r.value.unit, Some(ExtractFirstLetterGroup(input)))
  {
    var digits :- ExtractFirstDigitGroup(input);
    var description := ExtractFirstLetterGroup(input);
    var unit :- if description == "" then Success(DEFAULT) else FindByIdentifier(Some(description));
    Success(TimeInterval(digits, unit))
  }

  /** `toMillis`: the duration scaled by the unit. */
  function IntervalMillis(t: TimeInterval): (r: nat)
    ensures r / Millis(t.unit) == t.duration && r % Millis(t.unit) == 0
    ensures r == 0 <==> t.duration == 0
  {
    DivModAddMultiple(0, t.duration, Millis(t.unit));
    t.duration * Millis(t.unit)
  }

  // ---- The round trip "<digits><alias>" ----

  /** The letters of an alias up to its first non-letter: "second(s)" gives "second". */
  lemma AliasLetterPrefix(u: TimeUnit, alias: string) returns (n: nat)
    requires alias in Identifiers(u)
    ensures 0 < n <= |alias|
    ensures forall k :: 0 <= k < n ==> InClass(alias[k], Letters)
    ensures n == |alias| || !InClass(alias[n], Letters)
    ensures alias[..n] in Identifiers(u)
  {
    if alias == Identifiers(u)[2] {
      n := |Identifiers(u)[0]|;
      assert alias[..n] == Identifiers(u)[0];
    } else {
      n := |alias|;
      assert alias[..n] == alias;
    }
  }

  lemma AliasHasNoDigit(u: TimeUnit, alias: string)
    requires alias in Identifiers(u)
    ensures forall k :: 0 <= k < |alias| ==> !InClass(alias[k], Digits)
  {
  }

  /** For every digit string and every alias, `of(digits + alias)` gives the digits'
      value in the alias' unit, and `toMillis` scales it accordingly. */
  lemma {:induction false} OfDigitsThenAlias(ds: string, u: TimeUnit, alias: string)
    requires |ds| > 0 && AllDigits(ds) && DecimalValue(ds) <= MAX_INT
    requires alias in Identifiers(u)
    ensures Of(ds + alias) == Success(TimeInterval(DecimalValue(ds), u))
    ensures IntervalMillis(TimeInterval(DecimalValue(ds), u)) == DecimalValue(ds) * Millis(u)
  {
    DigitRunOfDigitsThenAlias(ds, u, alias);
    LetterRunOfDigitsThenAlias(ds, u, alias);
  }

  /** The digit run of "<digits><alias>" is exactly the digits. */
  lemma DigitRunOfDigitsThenAlias(ds: string, u: TimeUnit, alias: string)
    requires |ds| > 0 && AllDigits(ds) && DecimalValue(ds) <= MAX_INT
    requires alias in Identifiers(u)
    ensures ExtractFirstDigitGroup(ds + alias) == Success(DecimalValue(ds))
  {
    AliasHasNoDigit(u, alias);
    DigitRunThenOther(ds, alias);
  }

  /** Digits followed by a non-digit (or nothing) form the first digit run. */
  lemma DigitRunThenOther(ds: string, rest: string)
    requires |ds| > 0 && AllDigits(ds) && DecimalValue(ds) <= MAX_INT
    requires |rest| == 0 || !InClass(rest[0], Digits)
    ensures ExtractFirstDigitGroup(ds + rest) == Success(DecimalValue(ds))
  {
    var s := ds + rest;
    assert IsFirstRun(s, Digits, 0, |ds|) by {
      assert forall k :: 0 <= k < |ds| ==> s[k] == ds[k];
      assert |ds| < |s| ==> s[|ds|] == rest[0];
    }
    assert s[0..|ds|] == ds;
    DigitGroupOfRun(s, 0, |ds|);
  }

  /** The digit group is the value of the first digit run. */
  lemma DigitGroupOfRun(s: string, i: int, j: int)
    requires IsFirstRun(s, Digits, i, j)
    requires AllDigits(s[i..j]) && DecimalValue(s[i..j]) <= MAX_INT
    ensures ExtractFirstDigitGroup(s) == Success(DecimalValue(s[i..j]))
  {
    assert InClass(s[i], Digits);
    var d := FindRun(s, Digits);
    FirstRunUnique(s, Digits, d.value.0, d.value.1, i, j);
  }

  /** The letter run of "<digits><alias>" is the alias' letter prefix, which
      identifies the alias' unit. */
  lemma LetterRunOfDigitsThenAlias(ds: string, u: TimeUnit, alias: string)
    requires AllDigits(ds)
    requires alias in Identifiers(u)
    ensures ExtractFirstLetterGroup(ds + alias) != ""
    ensures FindByIdentifier(Some(ExtractFirstLetterGroup(ds + alias))) == Success(u)
  {
    var s := ds + alias;
    var n := AliasLetterPrefix(u, alias);
    var e := |ds| + n;
    assert IsFirstRun(s, Letters, |ds|, e) by {
      assert forall k :: 0 <= k < |ds| ==> s[k] == ds[k];
      assert forall k :: |ds| <= k < e ==> s[k] == alias[k - |ds|];
      assert e < |s| ==> s[e] == alias[n];
    }
    assert InClass(s[|ds|], Letters);
    var l := FindRun(s, Letters);
    FirstRunUnique(s, Letters, l.value.0, l.value.1, |ds|, e);
    assert s[|ds|..e] == alias[..n];
    FindsOwnAlias(u, alias[..n]);
  }

  /** Input without letters takes the default unit: "90" is 90 minutes. */
  lemma {:induction false} OfDigitsOnly(ds: string)
    requires |ds| > 0 && AllDigits(ds) && DecimalValue(ds) <= MAX_INT
    ensures Of(ds) == Success(TimeInterval(DecimalValue(ds), MINUTES))
  {
    assert IsFirstRun(ds, Digits, 0, |ds|);
    var d := FindRun(ds, Digits);
    FirstRunUnique(ds, Digits, d.value.0, d.value.1, 0, |ds|);
    assert ds[0..|ds|] == ds;
  }

  /** Input without digits is rejected, whatever else it holds. */
  lemma NoDigitRejected(input: string)
    requires forall k :: 0 <= k < |input| ==> !('0' <= input[k] <= '9')
    ensures Of(input).Failure? && Of(input).error.IllegalArgument?
  {
  }

  /** `of` read off the two first runs: the digit run's value in the unit its letter run
      identifies. Everything after the two runs is ignored. */
  lemma OfByRuns(s: string, di: int, dj: int, li: int, lj: int, u: TimeUnit)
    requires IsFirstRun(s, Digits, di, dj) && IsFirstRun(s, Letters, li, lj)
    requires AllDigits(s[di..dj]) && DecimalValue(s[di..dj]) <= MAX_INT
    requires IsIdentifiableBy(u, Some(s[li..lj]))
    ensures Of(s) == Success(TimeInterval(DecimalValue(s[di..dj]), u))
  {
    assert InClass(s[di], Digits);
    var d := FindRun(s, Digits);
    FirstRunUnique(s, Digits, d.value.0, d.value.1, di, dj);
    assert InClass(s[li], Letters);
    var l := FindRun(s, Letters);
    FirstRunUnique(s, Letters, l.value.0, l.value.1, li, lj);
  }

  /** Only the first digit run and the first letter run count: "1h30m" is one hour. */
  lemma OfIgnoresLaterRuns()
    ensures Of("1h30m") == Success(TimeInterval(1, HOURS))
  {
    var a := "1h30m";
    assert IsFirstRun(a, Digits, 0, 1) && IsFirstRun(a, Letters, 1, 2);
    assert a[0..1] == "1" && a[1..2] == "h";
    assert DecimalValue("1") == 1;
    FindsOwnAlias(HOURS, "h");
    OfByRuns(a, 0, 1, 1, 2, HOURS);
  }

  /** The letter run may come first: "m5" is five minutes. */
  lemma OfLettersBeforeDigits()
    ensures Of("m5") == Success(TimeInterval(5, MINUTES))
  {
    var b := "m5";
    assert IsFirstRun(b, Digits, 1, 2) && IsFirstRun(b, Letters, 0, 1);
    assert b[1..2] == "5" && b[0..1] == "m";
    assert DecimalValue("5") == 5;
    FindsOwnAlias(MINUTES, "m");
    OfByRuns(b, 1, 2, 0, 1, MINUTES);
  }

  /** A letter run stops at "(": "5 second(s)" is recognised through "second". */
  lemma OfParenthesisedAlias()
    ensures Of("5 second(s)") == Success(TimeInterval(5, SECONDS))
  {
    var c := "5 second(s)";
    assert IsFirstRun(c, Digits, 0, 1) && IsFirstRun(c, Letters, 2, 8);
    assert c[0..1] == "5" && c[2..8] == "second";
    assert DecimalValue("5") == 5;
    FindsOwnAlias(SECONDS, "second");
    OfByRuns(c, 0, 1, 2, 8, SECONDS);
  }

  /** There is no positivity check: "0s" is a zero-second interval. */
  lemma OfZero()
    ensures Of("0s") == Success(TimeInterval(0, SECONDS))
  {
    assert DecimalValue("0") == 0;
    assert "0" + "s" == "0s";
    OfDigitsThenAlias("0", SECONDS, "s");
  }

  /** `toMillis` of the canonical inputs: "5s" is 5000 ms. */
  lemma FiveSecondsMillis()
    ensures Of("5s").Success? && IntervalMillis(Of("5s").value) == 5000
  {
    assert DecimalValue("5") == 5;
    assert "5" + "s" == "5s";
    OfDigitsThenAlias("5", SECONDS, "s");
  }

  /** "2m" is 120000 ms. */
  lemma TwoMinutesMillis()
    ensures Of("2m").Success? && IntervalMillis(Of("2m").value) == 120_000
  {
    assert DecimalValue("2") == 2;
    assert "2" + "m" == "2m";
    OfDigitsThenAlias("2", MINUTES, "m");
  }

  /** "3h" is 10800000 ms. */
  lemma ThreeHoursMillis()
    ensures Of("3h").Success? && IntervalMillis(Of("3h").value) == 10_800_000
  {
    assert DecimalValue("3") == 3;
    assert "3" + "h" == "3h";
    OfDigitsThenAlias("3", HOURS, "h");
  }
}

/** The three interval units, their textual aliases and their millisecond scale. */
module TimeUnits {
  import opened Outcomes
  import opened JavaArith
  import StringUtils

  datatype TimeUnit = SECONDS | MINUTES | HOURS

  /** The unit assumed when an interval names none. */
  const DEFAULT: TimeUnit := MINUTES

  /** The aliases, in the order the unit lists them. */
  function Identifiers(u: TimeUnit): seq<string>
  {
    match u
    case SECONDS => ["second", "seconds", "second(s)", "s"]
    case MINUTES => ["minute", "minutes", "minute(s)", "m"]
    case HOURS => ["hour", "hours", "hour(s)", "h"]
  }

  function DisplayText(u: TimeUnit): string
  {
    match u
    case SECONDS => "second(s)"
    case MINUTES => "minute(s)"
    case HOURS => "hour(s)"
  }

  /** Milliseconds in one unit. */
  function Millis(u: TimeUnit): nat
  {
    match u
    case SECONDS => 1000
    case MINUTES => 60_000
    case HOURS => 3_600_000
  }

  /** ASCII case folding (`equalsIgnoreCase` restricted to ASCII letters). */
  function Lower(c: char): char
  {
    if 'A' <= c <= 'Z' then (c as int - 'A' as int + 'a' as int) as char else c
  }

  predicate EqualsIgnoreCase(a: string, b: string)
  {
    |a| == |b| && forall i :: 0 <= i < |a| ==> Lower(a[i]) == Lower(b[i])
  }

  /** True when the identifier is non-empty and equals one of the unit's aliases,
      ignoring case. */
  predicate IsIdentifiableBy(u: TimeUnit, identifier: Option<string>)
  {
    StringUtils.IsNotEmpty(identifier)
    && exists i :: 0 <= i < |Identifiers(u)| && EqualsIgnoreCase(Identifiers(u)[i], identifier.value)
  }

  /** The first unit, in declaration order, that the identifier identifies. */
  function FindByIdentifier(identifier: Option<string>): (r: Result<TimeUnit>)
    ensures r.Success? <==> exists u :: IsIdentifiableBy(u, identifier)
    ensures r.Success? ==> forall u :: IsIdentifiableBy(u, identifier) <==> u == r.value
    ensures r.Failure? ==> r.error.IllegalArgument?
  {
    if IsIdentifiableBy(SECONDS, identifier) then
      AliasesDisjoint(SECONDS, identifier);
      Success(SECONDS)
    else if IsIdentifiableBy(MINUTES, identifier) then
      AliasesDisjoint(MINUTES, identifier);
      Success(MINUTES)
    else if IsIdentifiableBy(HOURS, identifier) then
      AliasesDisjoint(HOURS, identifier);
      Success(HOURS)
    else
      Failure(IllegalArgument("Invalid time unit identifier"))
  }

  /** Every alias is already lower case, so an identifier that matches an alias
      ignoring case folds to exactly that alias. */
  lemma FoldsToAlias(u: TimeUnit, i: int, id: string)
    requires 0 <= i < |Identifiers(u)| && EqualsIgnoreCase(Identifiers(u)[i], id)
    ensures Identifiers(u)[i] == seq(|id|, k requires 0 <= k < |id| => Lower(id[k]))
  {
    var a := Identifiers(u)[i];
    forall k | 0 <= k < |a|
      ensures Lower(a[k]) == a[k]
    {
    }
  }

  /** No identifier identifies two units: the alias lists are pairwise disjoint. */
  lemma AliasesDisjoint(u: TimeUnit, identifier: Option<string>)
    requires IsIdentifiableBy(u, identifier)
    ensures forall v :: IsIdentifiableBy(v, identifier) ==> v == u
  {
    var id := identifier.value;
    var i :| 0 <= i < |Identifiers(u)| && EqualsIgnoreCase(Identifiers(u)[i], id);
    FoldsToAlias(u, i, id);
    forall v | IsIdentifiableBy(v, identifier)
      ensures v == u
    {
      var j :| 0 <= j < |Identifiers(v)| && EqualsIgnoreCase(Identifiers(v)[j], id);
      FoldsToAlias(v, j, id);
      assert Identifiers(v)[j] == Identifiers(u)[i];
    }
  }

  /** A null or empty identifier identifies no unit. */
  lemma EmptyIdentifiesNothing(u: TimeUnit, identifier: Option<string>)
    requires StringUtils.IsEmpty(identifier)
    ensures !IsIdentifiableBy(u, identifier)
    ensures FindByIdentifier(identifier).Failure?
  {
  }

  /** Upper-case spellings of an alias identify the same unit. */
  lemma CaseInsensitiveExamples()
    ensures FindByIdentifier(Some("H")) == Success(HOURS)
    ensures FindByIdentifier(Some("Hours")) == Success(HOURS)
    ensures FindByIdentifier(Some("hour(s)")) == Success(HOURS)
    ensures FindByIdentifier(Some("SECONDS")) == Success(SECONDS)
  {
    IdentifiesH();
    IdentifiesHours();
    IdentifiesHourS();
    IdentifiesSeconds();
  }

  lemma IdentifiesH()
    ensures FindByIdentifier(Some("H")) == Success(HOURS)
  {
    assert EqualsIgnoreCase(Identifiers(HOURS)[3], "H");
    Identifies(HOURS, 3, "H");
  }

  lemma IdentifiesHours()
    ensures FindByIdentifier(Some("Hours")) == Success(HOURS)
  {
    assert EqualsIgnoreCase(Identifiers(HOURS)[1], "Hours");
    Identifies(HOURS, 1, "Hours");
  }

  lemma IdentifiesHourS()
    ensures FindByIdentifier(Some("hour(s)")) == Success(HOURS)
  {
    assert EqualsIgnoreCase(Identifiers(HOURS)[2], "hour(s)");
    Identifies(HOURS, 2, "hour(s)");
  }

  lemma IdentifiesSeconds()
    ensures FindByIdentifier(Some("SECONDS")) == Success(SECONDS)
  {
    assert EqualsIgnoreCase(Identifiers(SECONDS)[1], "SECONDS");
    Identifies(SECONDS, 1, "SECONDS");
  }

  /** An abbreviation that is not listed is rejected. */
  lemma UnlistedAliasRejected()
    ensures FindByIdentifier(Some("min")).Failure?
  {
  }

  lemma Identifies(u: TimeUnit, i: int, id: string)
    requires 0 <= i < |Identifiers(u)| && EqualsIgnoreCase(Identifiers(u)[i], id)
    ensures FindByIdentifier(Some(id)) == Success(u)
  {
    assert |Identifiers(u)[i]| > 0;
    assert IsIdentifiableBy(u, Some(id));
  }

  /** Every alias of a unit finds that unit. */
  lemma FindsOwnAlias(u: TimeUnit, alias: string)
    requires alias in Identifiers(u)
    ensures FindByIdentifier(Some(alias)) == Success(u)
  {
    var i :| 0 <= i < |Identifiers(u)| && Identifiers(u)[i] == alias;
    Identifies(u, i, alias);
  }

  /** `toMillis`: the amount scaled by the unit's milliseconds. Java saturates on
      overflow; the amount is restricted so that it does not happen. */
  function ToMillis(u: TimeUnit, amount: int): (r: int)
    requires InLongRange(amount * Millis(u))
    ensures r / 1000 == amount * (Millis(u) / 1000)
    ensures r % 1000 == 0
  {
    WholeSeconds(amount, Millis(u) / 1000);
    amount * Millis(u)
  }

  /** A count of whole seconds in milliseconds is a multiple of 1000. */
  lemma WholeSeconds(amount: int, k: int)
    ensures (amount * (k * 1000)) / 1000 == amount * k
    ensures (amount * (k * 1000)) % 1000 == 0
  {
    assert amount * (k * 1000) == (amount * k) * 1000;
    DivModUnique(amount * (k * 1000), 1000, amount * k, 0);
  }

  /** `target.convert(amount, source)`: rescales between units, truncating toward zero
      when the target is coarser. */
  function Convert(target: TimeUnit, amount: int, source: TimeUnit): (r: int)
    requires InLongRange(amount * Millis(source))
    ensures amount >= 0 ==> r >= 0 && r * Millis(target) <= amount * Millis(source) < (r + 1) * Millis(target)
    ensures amount >= 0 && Millis(target) <= Millis(source) ==> r * Millis(target) == amount * Millis(source)
  {
    if Millis(target) <= Millis(source) then amount * (Millis(source) / Millis(target))
    else TruncDiv(amount, Millis(target) / Millis(source))
  }

  /** Converting to a finer unit and back recovers the amount; converting 90 seconds
      to minutes truncates to 1. */
  lemma ConvertRoundTrip(fine: TimeUnit, coarse: TimeUnit, n: nat)
    requires Millis(fine) <= Millis(coarse)
    requires InLongRange(n * Millis(coarse))
    ensures Convert(coarse, Convert(fine, n, coarse), fine) == n
    ensures Convert(MINUTES, 90, SECONDS) == 1
  {
    var m := Convert(fine, n, coarse);
    assert m * Millis(fine) == n * Millis(coarse);
  }
}

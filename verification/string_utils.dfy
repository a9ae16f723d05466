/** Null-tolerant string predicates used by configuration building and name lookup. */
module StringUtils {
  import opened Outcomes

  /** A string is empty when it is `null` or has no characters; nothing is trimmed. */
  predicate IsEmpty(s: Option<string>)
  {
    match s
    case None => true
    case Some(v) => |v| == 0
  }

  predicate IsNotEmpty(s: Option<string>)
  {
    !IsEmpty(s)
  }

  /** `s` itself unless it is empty, in which case the fallback `d`. */
  function DefaultIfEmpty(s: Option<string>, d: Option<string>): (r: Option<string>)
    ensures r == s || r == d
    ensures r == d <== IsEmpty(s)
    ensures IsNotEmpty(s) ==> r == s
    ensures IsNotEmpty(r) <==> IsNotEmpty(s) || IsNotEmpty(d)
  {
    if IsEmpty(s) then d else s
  }

  /** Emptiness is decided by length alone: only `null` and `""` are empty. */
  lemma EmptyExactly(s: Option<string>)
    ensures IsEmpty(s) <==> s == None || s == Some("")
    ensures IsNotEmpty(s) <==> !IsEmpty(s)
  {
  }

  /** A string made only of blanks is not empty: there is no trimming. */
  lemma BlankIsNotEmpty(s: string)
    requires |s| > 0
    requires forall i :: 0 <= i < |s| ==> s[i] == ' ' || s[i] == '\t' || s[i] == '\n'
    ensures IsNotEmpty(Some(s))
  {
  }

  /** Defaulting twice with the same fallback is the same as defaulting once. */
  lemma DefaultIfEmptyIdempotent(s: Option<string>, d: Option<string>)
    ensures DefaultIfEmpty(DefaultIfEmpty(s, d), d) == DefaultIfEmpty(s, d)
  {
  }
}

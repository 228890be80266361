/**
 * The stored watermark text: what the driver writes into the state database
 * after a pull and what it makes of that text before the next one.
 */
module Cursor {
  import opened Text
  import opened Util

  /** A decoded watermark: the last key alone (unbounded pulls) or the last (key, primary key). */
  datatype Mark = Plain(key: int) | Pair(key: int, pk: int)

  // ---- decimal integers --------------------------------------------------

  predicate IsDigit(c: char) { '0' <= c <= '9' }

  function Digit(d: nat): (c: char)
    requires d < 10
    ensures IsDigit(c) && c as int - '0' as int == d
  {
    '0' + d as char
  }

  function NatText(n: nat): (s: string)
    ensures s != [] && forall i | 0 <= i < |s| :: IsDigit(s[i])
    ensures s[0] == '0' ==> s == "0"
  {
    if n < 10 then [Digit(n)] else NatText(n / 10) + [Digit(n % 10)]
  }

  /** Python's str(value) on an int. */
  function IntText(n: int): string {
    if n < 0 then "-" + NatText(-n) else NatText(n)
  }

  function ParseNat(s: string): Option<int> {
    if s == [] || !IsDigit(s[|s| - 1]) then None
    else
      var last := s[|s| - 1] as int - '0' as int;
      if |s| == 1 then Some(last)
      else match ParseNat(s[..|s| - 1]) case None => None case Some(front) => Some(front * 10 + last)
  }

  /** int(value) on a text of decimal digits with an optional minus sign. */
  function ParseInt(s: string): Option<int> {
    if s != [] && s[0] == '-'
    then match ParseNat(s[1..]) case None => None case Some(n) => Some(-n)
    else ParseNat(s)
  }

  /** An integer as section 6 of RFC 8259 writes it: no leading zero. */
  function ParseJsonInt(s: string): Option<int> {
    var digits := if s != [] && s[0] == '-' then s[1..] else s;
    if |digits| > 1 && digits[0] == '0' then None else ParseInt(s)
  }

  lemma NoLeadingZero(s: string)
    requires |s| > 1 && (s[0] == '0' || (|s| > 2 && s[0] == '-' && s[1] == '0'))
    ensures ParseJsonInt(s).None?
  {
  }

  lemma {:induction false} NatRoundTrip(n: nat)
    ensures ParseNat(NatText(n)) == Some(n)
  {
    if n >= 10 {
      NatRoundTrip(n / 10);
      assert NatText(n)[..|NatText(n)| - 1] == NatText(n / 10);
    }
  }

  lemma IntRoundTrip(n: int)
    ensures ParseInt(IntText(n)) == Some(n) && ParseJsonInt(IntText(n)) == Some(n)
    ensures forall c | c in IntText(n) :: c == '-' || IsDigit(c)
  {
    NatRoundTrip(if n < 0 then -n else n);
  }

  // ---- the composite cursor object ---------------------------------------

  const HEAD := "{\"watermark\":"
  const MIDDLE := ",\"tie_breaker\":"

  /** json.dumps of the two-member object with compact separators; str() of a plain watermark. */
  function MarkText(m: Mark): string {
    match m
    case Plain(w) => IntText(w)
    case Pair(w, t) => HEAD + (IntText(w) + (MIDDLE + (IntText(t) + "}")))
  }

  predicate StartsWith(s: string, prefix: string) {
    |prefix| <= |s| && s[..|prefix|] == prefix
  }

  /** The integer of middle ++ int ++ "}". */
  function ParseClosing(s: string, middle: string): Option<int> {
    if !StartsWith(s, middle) || |s| == |middle| || s[|s| - 1] != '}' then None
    else ParseJsonInt(s[|middle|..|s| - 1])
  }

  /** The two integers of head ++ int ++ middle ++ int ++ "}", where middle opens with a comma. */
  function ParseMembers(s: string, head: string, middle: string): Option<Mark> {
    if !StartsWith(s, head) then None
    else
      var body := s[|head|..];
      var comma := IndexOf(body, ',');
      match (ParseJsonInt(body[..comma]), ParseClosing(body[comma..], middle))
      case (Some(w), Some(t)) => Some(Pair(w, t))
      case (_, _) => None
  }

  function ParsePair(s: string): Option<Mark> {
    ParseMembers(s, HEAD, MIDDLE)
  }

  /**
   * The mark a pull starts from. The state store hands back an int unless the
   * text opens an object; only a bounded pull has a tie-breaker and so decodes
   * the object, and an unbounded pull's int() of it raises.
   */
  function ReadMark(stored: Option<string>, bounded: bool): Result<Option<Mark>, ()> {
    match stored
    case None => Ok(None)
    case Some(text) =>
      if !StartsWith(text, "{") then
        match ParseInt(text) case Some(w) => Ok(Some(Plain(w))) case None => Err(())
      else if !bounded then Err(())
      else match ParsePair(text) case Some(m) => Ok(Some(m)) case None => Err(())
  }

  lemma Slices(a: string, b: string)
    ensures (a + b)[..|a|] == a && (a + b)[|a|..] == b
  {
  }

  lemma ClosingRoundTrip(t: int, middle: string)
    ensures ParseClosing(middle + (IntText(t) + "}"), middle) == Some(t)
  {
    IntRoundTrip(t);
    Slices(middle, IntText(t) + "}");
    var s := middle + (IntText(t) + "}");
    assert s[|middle|..|s| - 1] == IntText(t);
  }

  lemma MembersRoundTrip(w: int, t: int, head: string, middle: string)
    requires middle != [] && middle[0] == ','
    ensures ParseMembers(head + (IntText(w) + (middle + (IntText(t) + "}"))), head, middle) == Some(Pair(w, t))
  {
    var tail := middle + (IntText(t) + "}");
    IntRoundTrip(w);
    ClosingRoundTrip(t, middle);
    Slices(head, IntText(w) + tail);
    FirstAt(IntText(w), tail, ',');
    Slices(IntText(w), tail);
  }

  /**
   * Every mark written comes back as itself; the one refusal is an unbounded
   * pull over a composite cursor.
   */
  lemma StoredMarkRoundTrip(m: Mark, bounded: bool)
    ensures ReadMark(Some(MarkText(m)), bounded) == if m.Pair? && !bounded then Err(()) else Ok(Some(m))
  {
    match m
    case Plain(w) => IntRoundTrip(w); assert IntText(w)[0] in IntText(w);
    case Pair(w, t) => MembersRoundTrip(w, t, HEAD, MIDDLE); assert MarkText(m)[0] == HEAD[0] == '{';
  }

  /** The text the driver writes for a composite watermark, as it stands in the state database. */
  lemma TextOfPair()
    ensures MarkText(Pair(5, -7)) == "{\"watermark\":5,\"tie_breaker\":-7}"
  {
    assert IntText(5) == "5" && IntText(-7) == "-7";
  }

  /** No two marks share a text, so a plain watermark is never taken for a composite one. */
  lemma MarkTextInjective(a: Mark, b: Mark)
    requires MarkText(a) == MarkText(b)
    ensures a == b
  {
    StoredMarkRoundTrip(a, true);
    StoredMarkRoundTrip(b, true);
  }
}

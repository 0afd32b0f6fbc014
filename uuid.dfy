/**
 * Substitution ids: the canonical text of a UUID (8-4-4-4-12 lower-case hex digits
 * separated by dashes, as `str(uuid.UUID)` prints it) and the `UUID_ON_LINE` pattern
 * that finds one at the start of a serialised JSON line.
 */
module Uuid {
  import opened Wrappers
  import opened Text

  predicate IsHexDigit(c: char) {
    ('0' <= c <= '9') || ('a' <= c <= 'f') || ('A' <= c <= 'F')
  }

  predicate IsLowerHexDigit(c: char) {
    ('0' <= c <= '9') || ('a' <= c <= 'f')
  }

  predicate IsDashPosition(i: int) {
    i == 8 || i == 13 || i == 18 || i == 23
  }

  /** Position i of the pattern: a dash at 8, 13, 18 and 23, a hex digit elsewhere. */
  predicate PatternCharAt(s: string, i: int)
    requires 0 <= i < |s|
  {
    if IsDashPosition(i) then s[i] == '-' else IsHexDigit(s[i])
  }

  /** `[0-9a-fA-F]{8}-[0-9a-fA-F]{4}-[0-9a-fA-F]{4}-[0-9a-fA-F]{4}-[0-9a-fA-F]{12}` */
  predicate MatchesUuidPattern(s: string) {
    |s| == 36 && forall i :: 0 <= i < 36 ==> PatternCharAt(s, i)
  }

  /** Position i of the canonical form: as the pattern, with lower-case hex digits only. */
  predicate CanonicalCharAt(s: string, i: int)
    requires 0 <= i < |s|
  {
    if IsDashPosition(i) then s[i] == '-' else IsLowerHexDigit(s[i])
  }

  /** The text `str(u)` of a `uuid.UUID` u. */
  predicate IsCanonicalUuid(s: string) {
    |s| == 36 && forall i :: 0 <= i < 36 ==> CanonicalCharAt(s, i)
  }

  type Id = s: string | IsCanonicalUuid(s) witness "00000000-0000-0000-0000-000000000000"

  /** Lower-casing a string the pattern matched gives a canonical id. */
  lemma LowerCaseIsCanonical(s: string)
    requires MatchesUuidPattern(s)
    ensures IsCanonicalUuid(Casefold(s))
  {
    forall i | 0 <= i < 36
      ensures CanonicalCharAt(Casefold(s), i)
    {
      assert PatternCharAt(s, i);
    }
  }

  /** `str(uuid.UUID(s))` for a string the pattern matched: the hex digits in lower case. */
  function Canonicalise(s: string): (u: Id)
    requires MatchesUuidPattern(s)
    ensures forall i :: 0 <= i < 36 ==> u[i] == AsciiLowerChar(s[i])
  {
    LowerCaseIsCanonical(s);
    Casefold(s)
  }

  /** A canonical id is its own canonical form. */
  lemma CanonicalIsFixed(u: Id)
    ensures MatchesUuidPattern(u) && Canonicalise(u) == u
  {
    forall i | 0 <= i < 36
      ensures PatternCharAt(u, i) && AsciiLowerChar(u[i]) == u[i]
    {
      assert CanonicalCharAt(u, i);
    }
    assert Canonicalise(u) == u;
  }

  /** `re.match(UUID_ON_LINE, line)`: optional leading whitespace, a double quote, then
      36 characters of the UUID pattern; the id is `uuid.UUID(match.group(1))`. */
  function MatchUuidOnLine(line: string): Option<Id> {
    var t := LStrip(line);
    if |t| >= 37 && t[0] == '"' && MatchesUuidPattern(t[1..37]) then
      Some(Canonicalise(t[1..37]))
    else
      None
  }

  /** An indented line that starts with a double quote and 36 more characters matches
      exactly when those characters fit the pattern, in either case, and then yields
      them in lower case. */
  lemma {:induction false} MatchQuoted(ws: string, s: string, rest: string)
    requires AllSpace(ws) && |s| == 36
    ensures MatchesUuidPattern(s) ==> MatchUuidOnLine(ws + "\"" + s + rest) == Some(Canonicalise(s))
    ensures !MatchesUuidPattern(s) ==> MatchUuidOnLine(ws + "\"" + s + rest) == None
  {
    var body := "\"" + s + rest;
    assert ws + "\"" + s + rest == ws + body;
    LStripSkipsIndent(ws, body);
    assert LStrip(body) == body;
    assert body[1..37] == s;
  }

  /** Every indented line that starts with a quoted canonical id yields that id. */
  lemma MatchFindsQuotedId(ws: string, u: Id, rest: string)
    requires AllSpace(ws)
    ensures MatchUuidOnLine(ws + "\"" + u + rest) == Some(u)
  {
    MatchQuoted(ws, u, rest);
    CanonicalIsFixed(u);
  }

  /** A line whose first non-blank character is not a double quote, or that has fewer
      than 36 characters after it, never matches. */
  lemma NoQuoteNoMatch(line: string)
    requires |LStrip(line)| < 37 || LStrip(line)[0] != '"'
    ensures MatchUuidOnLine(line) == None
  {
  }
}

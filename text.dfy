/**
 * The few pieces of Python's `str` and `re` behaviour that sort_file.py relies on,
 * restricted to ASCII: whitespace, lstrip, startswith, `in`, split, join, casefold,
 * code-point ordering and decimal digits.
 */
module Text {

  /** Python's `str.isspace` on ASCII: space, \t \n \v \f \r and the separators \x1c-\x1f. */
  predicate IsSpace(c: char) {
    c == ' ' || (9 <= c as int <= 13) || (28 <= c as int <= 31)
  }

  predicate AllSpace(s: string) {
    forall i :: 0 <= i < |s| ==> IsSpace(s[i])
  }

  /** `s.lstrip(chars)`: drops the longest prefix whose characters all satisfy `stripped`. */
  function LStripBy(s: string, stripped: char -> bool): (r: string)
    ensures |r| <= |s|
  {
    if s != [] && stripped(s[0]) then LStripBy(s[1..], stripped) else s
  }

  /** What `lstrip` keeps is a suffix of its argument; every character it dropped is one
      it strips, and the first character it kept is not. */
  lemma {:induction false} LStripByStripsPrefix(s: string, stripped: char -> bool)
    ensures var r := LStripBy(s, stripped);
      && r == s[|s| - |r|..]
      && (forall i :: 0 <= i < |s| - |r| ==> stripped(s[i]))
      && (r == [] || !stripped(r[0]))
  {
    if s != [] && stripped(s[0]) {
      LStripByStripsPrefix(s[1..], stripped);
      var r := LStripBy(s, stripped);
      assert s[1..][|s| - 1 - |r|..] == s[|s| - |r|..];
      forall i | 0 < i < |s| - |r|
        ensures stripped(s[i])
      {
        assert s[i] == s[1..][i - 1];
      }
    }
  }

  /** Stripping a prefix made only of stripped characters leaves what stripping the rest
      leaves. */
  lemma {:induction false} LStripBySkips(pre: string, s: string, stripped: char -> bool)
    requires forall i :: 0 <= i < |pre| ==> stripped(pre[i])
    ensures LStripBy(pre + s, stripped) == LStripBy(s, stripped)
  {
    if pre != [] {
      assert (pre + s)[1..] == pre[1..] + s;
      LStripBySkips(pre[1..], s, stripped);
    } else {
      assert pre + s == s;
    }
  }

  /** `s.lstrip()` */
  function LStrip(s: string): string {
    LStripBy(s, IsSpace)
  }

  /** `s.lstrip(c)` for a one-character argument */
  function LStripChar(s: string, c: char): string {
    LStripBy(s, x => x == c)
  }

  /** Whatever `s` starts with, stripping leading whitespace from `ws + s` with `ws` all
      whitespace gives what stripping `s` gives. */
  lemma LStripSkipsIndent(ws: string, s: string)
    requires AllSpace(ws)
    ensures LStrip(ws + s) == LStrip(s)
  {
    LStripBySkips(ws, s, IsSpace);
  }

  predicate StartsWith(s: string, prefix: string) {
    |prefix| <= |s| && s[..|prefix|] == prefix
  }

  predicate OccursAt(s: string, pat: string, i: int) {
    0 <= i && i + |pat| <= |s| && s[i..i + |pat|] == pat
  }

  /** Python's `pat in s`. */
  function Contains(s: string, pat: string): bool
    decreases |s|
  {
    StartsWith(s, pat) || (s != [] && Contains(s[1..], pat))
  }

  /** `pat in s` holds exactly when `pat` occurs in `s` at some position. */
  lemma {:induction false} ContainsIffOccurs(s: string, pat: string)
    ensures Contains(s, pat) <==> exists i :: OccursAt(s, pat, i)
    decreases |s|
  {
    if StartsWith(s, pat) {
      assert OccursAt(s, pat, 0);
    } else if s != [] {
      ContainsIffOccurs(s[1..], pat);
      if Contains(s[1..], pat) {
        var i :| OccursAt(s[1..], pat, i);
        assert OccursAt(s, pat, i + 1);
      } else {
        forall i | OccursAt(s, pat, i)
          ensures false
        {
          assert i != 0;
          assert OccursAt(s[1..], pat, i - 1);
        }
      }
    }
  }

  /** `sep.join(parts)` */
  function JoinWith(sep: string, parts: seq<string>): string {
    if |parts| == 0 then ""
    else if |parts| == 1 then parts[0]
    else parts[0] + sep + JoinWith(sep, parts[1..])
  }

  /** `"\n".join(lines)` */
  function JoinLines(lines: seq<string>): string {
    JoinWith("\n", lines)
  }

  function IndexOf(s: string, c: char): (i: nat)
    requires c in s
    ensures i < |s| && s[i] == c && c !in s[..i]
  {
    if s[0] == c then 0 else IndexOf(s[1..], c) + 1
  }

  /** `s.split(sep)` for a one-character separator: never empty, no part holds the
      separator, and joining the parts again gives back `s`. */
  function SplitOn(s: string, sep: char): (parts: seq<string>)
    ensures |parts| >= 1
    ensures forall k :: 0 <= k < |parts| ==> sep !in parts[k]
    ensures JoinWith([sep], parts) == s
    decreases |s|
  {
    if sep !in s then [s]
    else
      var i := IndexOf(s, sep);
      var rest := SplitOn(s[i + 1..], sep);
      assert s == s[..i] + [sep] + s[i + 1..];
      [s[..i]] + rest
  }

  /** Splitting a join of separator-free parts gives the parts back. */
  lemma {:induction false} SplitJoin(parts: seq<string>, sep: char)
    requires |parts| >= 1
    requires forall k :: 0 <= k < |parts| ==> sep !in parts[k]
    ensures SplitOn(JoinWith([sep], parts), sep) == parts
  {
    var s := JoinWith([sep], parts);
    if |parts| == 1 {
      assert s == parts[0];
    } else {
      var tail := JoinWith([sep], parts[1..]);
      assert s == parts[0] + [sep] + tail;
      assert s[|parts[0]|] == sep;
      var i := IndexOf(s, sep);
      assert s[..|parts[0]|] == parts[0];
      assert forall j :: 0 <= j < |parts[0]| ==> s[j] == parts[0][j];
      assert i == |parts[0]|;
      assert s[i + 1..] == tail;
      SplitJoin(parts[1..], sep);
      assert SplitOn(s, sep) == [parts[0]] + parts[1..];
    }
  }

  function AsciiLowerChar(c: char): (d: char) {
    if 'A' <= c <= 'Z' then (c as int - 'A' as int + 'a' as int) as char else c
  }

  /** `s.casefold()`, restricted to ASCII letters: A-Z become a-z, nothing else changes. */
  function Casefold(s: string): (r: string)
    ensures |r| == |s|
    ensures forall i :: 0 <= i < |s| ==> r[i] == AsciiLowerChar(s[i])
  {
    if s == [] then [] else [AsciiLowerChar(s[0])] + Casefold(s[1..])
  }

  /** Python's `a <= b` on `str`: code-point lexicographic order. */
  predicate LexLe(a: string, b: string) {
    |a| == 0 || (|b| > 0 && (a[0] < b[0] || (a[0] == b[0] && LexLe(a[1..], b[1..]))))
  }

  lemma {:induction false} LexLeReflexive(a: string)
    ensures LexLe(a, a)
  {
    if |a| > 0 { LexLeReflexive(a[1..]); }
  }

  lemma {:induction false} LexLeTotal(a: string, b: string)
    ensures LexLe(a, b) || LexLe(b, a)
  {
    if |a| > 0 && |b| > 0 && a[0] == b[0] { LexLeTotal(a[1..], b[1..]); }
  }

  lemma {:induction false} LexLeAntisymmetric(a: string, b: string)
    requires LexLe(a, b) && LexLe(b, a)
    ensures a == b
  {
    if |a| > 0 && |b| > 0 {
      LexLeAntisymmetric(a[1..], b[1..]);
      assert a == [a[0]] + a[1..];
      assert b == [b[0]] + b[1..];
    }
  }

  lemma {:induction false} LexLeTransitive(a: string, b: string, c: string)
    requires LexLe(a, b) && LexLe(b, c)
    ensures LexLe(a, c)
  {
    if |a| > 0 && |b| > 0 && |c| > 0 && a[0] == b[0] == c[0] {
      LexLeTransitive(a[1..], b[1..], c[1..]);
    }
  }

  predicate IsDigit(c: char) {
    '0' <= c <= '9'
  }

  predicate AllDigits(s: string) {
    forall i :: 0 <= i < |s| ==> IsDigit(s[i])
  }

  /** The longest prefix of `s` made of decimal digits (what `\d+` takes, greedily). */
  function DigitPrefix(s: string): (d: string)
    ensures StartsWith(s, d) && AllDigits(d)
    ensures |d| == |s| || !IsDigit(s[|d|])
  {
    if s != [] && IsDigit(s[0]) then [s[0]] + DigitPrefix(s[1..]) else []
  }

  /** The digit run in front of a non-digit is exactly that run. */
  lemma {:induction false} DigitPrefixOfRun(d: string, rest: string)
    requires AllDigits(d)
    requires rest == [] || !IsDigit(rest[0])
    ensures DigitPrefix(d + rest) == d
  {
    if d != [] {
      assert (d + rest)[1..] == d[1..] + rest;
      DigitPrefixOfRun(d[1..], rest);
      assert d == [d[0]] + d[1..];
    } else {
      assert d + rest == rest;
    }
  }

  /** `int(ds)` for a string of decimal digits. */
  function DigitsValue(ds: string): nat
    requires AllDigits(ds)
  {
    if ds == [] then 0
    else DigitsValue(ds[..|ds| - 1]) * 10 + (ds[|ds| - 1] as int - '0' as int)
  }

  function DigitChar(d: nat): (c: char)
    requires d < 10
    ensures IsDigit(c) && c as int - '0' as int == d
  {
    ('0' as int + d) as char
  }

  /** `str(n)` for a natural number. */
  function Decimal(n: nat): (s: string)
    ensures |s| >= 1 && AllDigits(s)
  {
    if n < 10 then [DigitChar(n)] else Decimal(n / 10) + [DigitChar(n % 10)]
  }

  /** `int(str(n)) == n` */
  lemma {:induction false} DecimalRoundTrip(n: nat)
    ensures DigitsValue(Decimal(n)) == n
  {
    var s := Decimal(n);
    if n >= 10 {
      DecimalRoundTrip(n / 10);
      assert s[..|s| - 1] == Decimal(n / 10);
    }
  }

  /** `str(n)` for any integer. */
  function IntToString(n: int): string {
    if n < 0 then "-" + Decimal(-n) else Decimal(n)
  }
}

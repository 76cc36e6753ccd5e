/**
 * The string operations the readers and the web code use: decimal
 * rendering and parsing of naturals (Python `str(q)` / `int(s)`),
 * `"%02d"`, prefix tests, whitespace stripping and ASCII case mapping.
 */
module Text {
  import opened Wrappers

  predicate IsDigit(c: char) { '0' <= c <= '9' }

  function DigitChar(d: nat): (c: char)
    requires d < 10
    ensures IsDigit(c) && DigitValue(c) == d
  {
    ['0', '1', '2', '3', '4', '5', '6', '7', '8', '9'][d]
  }

  function DigitValue(c: char): (d: nat)
    requires IsDigit(c)
    ensures d < 10
  {
    (c as int - '0' as int) as nat
  }

  /** Python `str(n)` for a natural: decimal digits without leading zeros. */
  function NatToString(n: nat): (s: string)
    ensures |s| > 0
    ensures forall i :: 0 <= i < |s| ==> IsDigit(s[i])
    ensures |s| > 1 ==> s[0] != '0'
    decreases n
  {
    if n < 10 then [DigitChar(n)] else NatToString(n / 10) + [DigitChar(n % 10)]
  }

  /** The value of a string of decimal digits, read left to right. */
  function DigitsValue(s: string): nat
    requires forall i :: 0 <= i < |s| ==> IsDigit(s[i])
  {
    if |s| == 0 then 0 else 10 * DigitsValue(s[..|s| - 1]) + DigitValue(s[|s| - 1])
  }

  /** Python `int(s)` restricted to plain decimal strings; anything else is a failure. */
  function ParseNat(s: string): (r: Option<nat>)
    ensures r.Some? <==> |s| > 0 && forall i :: 0 <= i < |s| ==> IsDigit(s[i])
  {
    if |s| > 0 && forall i :: 0 <= i < |s| ==> IsDigit(s[i]) then Some(DigitsValue(s)) else None
  }

  lemma {:induction false} DigitsValueOfNatToString(n: nat)
    ensures DigitsValue(NatToString(n)) == n
    decreases n
  {
    var s := NatToString(n);
    if n >= 10 {
      var prefix := NatToString(n / 10);
      assert s[..|s| - 1] == prefix;
      DigitsValueOfNatToString(n / 10);
    }
  }

  /** Two digit characters read as a two-digit number. */
  lemma {:induction false} TwoDigits(a: nat, b: nat)
    requires a < 10 && b < 10
    ensures ParseNat([DigitChar(a), DigitChar(b)]) == Some(10 * a + b)
  {
    var s := [DigitChar(a), DigitChar(b)];
    assert s[..1] == [DigitChar(a)];
    assert DigitsValue(s[..1]) == 10 * DigitsValue(s[..1][..0]) + DigitValue(DigitChar(a));
    assert s[..1][..0] == [];
    assert DigitsValue(s[..1]) == a;
    assert DigitsValue(s) == 10 * a + b;
  }

  /** Parsing a rendered natural gives the natural back. */
  lemma {:induction false} ParseNatToString(n: nat)
    ensures ParseNat(NatToString(n)) == Some(n)
  {
    DigitsValueOfNatToString(n);
  }

  /** Rendering is injective: distinct naturals give distinct strings. */
  lemma {:induction false} NatToStringInjective(m: nat, n: nat)
    requires NatToString(m) == NatToString(n)
    ensures m == n
  {
    ParseNatToString(m);
    ParseNatToString(n);
  }

  /** Python `"%02d" % n`: at least two digits, padded with a leading zero. */
  function ZeroPad2(n: nat): (s: string)
    ensures |s| == if n < 10 then 2 else |NatToString(n)|
    ensures ParseNat(s) == Some(n)
  {
    ParseNatToString(n);
    if n < 10 then
      assert DigitsValue(['0', DigitChar(n)]) == n by {
        assert ['0', DigitChar(n)][..1] == ['0'];
      }
      ['0', DigitChar(n)]
    else NatToString(n)
  }

  /** Python `str.startswith` / JavaScript `String.prototype.startsWith`. */
  predicate StartsWith(s: string, prefix: string)
  {
    |prefix| <= |s| && s[..|prefix|] == prefix
  }

  /** The characters Python's argument-less `str.strip()` removes (`str.isspace`): tab to
      carriage return, the four information separators, space, NEL, no-break space, and the
      Unicode space separators, line separator and paragraph separator. */
  predicate IsSpace(c: char)
  {
    c == ' ' || '\t' <= c <= '\r' || '\U{001C}' <= c <= '\U{001F}'
    || c == '\U{0085}' || c == '\U{00A0}' || c == '\U{1680}'
    || '\U{2000}' <= c <= '\U{200A}' || c == '\U{2028}' || c == '\U{2029}'
    || c == '\U{202F}' || c == '\U{205F}' || c == '\U{3000}'
  }

  function StripLeft(s: string): (r: string)
    ensures |r| <= |s| && r == s[|s| - |r|..]
    ensures forall i :: 0 <= i < |s| - |r| ==> IsSpace(s[i])
    ensures |r| > 0 ==> !IsSpace(r[0])
  {
    if |s| > 0 && IsSpace(s[0]) then StripLeft(s[1..]) else s
  }

  function StripRight(s: string): (r: string)
    ensures |r| <= |s| && r == s[..|r|]
    ensures forall i :: |r| <= i < |s| ==> IsSpace(s[i])
    ensures |r| > 0 ==> !IsSpace(r[|r| - 1])
  {
    if |s| > 0 && IsSpace(s[|s| - 1]) then StripRight(s[..|s| - 1]) else s
  }

  /** Python `s.strip()`: the longest slice of s without whitespace at either end. */
  function Strip(s: string): (r: string)
  {
    StripRight(StripLeft(s))
  }

  /** Strip removes exactly a whitespace prefix and a whitespace suffix and keeps the middle. */
  lemma {:induction false} StripSlice(s: string)
    ensures exists i, j ::
      (0 <= i <= j <= |s| && Strip(s) == s[i..j]
      && (forall k :: 0 <= k < i ==> IsSpace(s[k]))
      && (forall k :: j <= k < |s| ==> IsSpace(s[k])))
    ensures |Strip(s)| > 0 ==> !IsSpace(Strip(s)[0]) && !IsSpace(Strip(s)[|Strip(s)| - 1])
  {
    var i, j := StripCuts(s);
    StripEnds(s);
  }

  /** The two cut points of Strip: everything before i and from j on is whitespace. */
  lemma {:induction false} StripCuts(s: string) returns (i: nat, j: nat)
    ensures i <= j <= |s| && Strip(s) == s[i..j]
    ensures forall k :: 0 <= k < i ==> IsSpace(s[k])
    ensures forall k :: j <= k < |s| ==> IsSpace(s[k])
  {
    var l := StripLeft(s);
    i := |s| - |l|;
    var r := StripRight(l);
    j := i + |r|;
    assert l == s[i..];
    assert r == s[i..j] by {
      assert r == l[..|r|];
    }
    forall k | j <= k < |s|
      ensures IsSpace(s[k])
    {
      assert s[k] == l[k - i];
    }
  }

  /** A non-empty strip starts and ends with a non-whitespace character. */
  lemma {:induction false} StripEnds(s: string)
    ensures |Strip(s)| > 0 ==> !IsSpace(Strip(s)[0]) && !IsSpace(Strip(s)[|Strip(s)| - 1])
  {
    var l := StripLeft(s);
    var r := StripRight(l);
    if |r| > 0 {
      assert r[0] == l[0];
    }
  }

  /** An information separator counts as whitespace too. */
  lemma {:induction false} StripSeparator()
    ensures Strip(['\U{001C}', 'A']) == ['A']
  {
    var s: string := ['\U{001C}', 'A'];
    assert IsSpace(s[0]) && !IsSpace(s[1]);
    assert s[1..] == ['A'];
    assert StripLeft(['A']) == ['A'];
    assert StripRight(['A']) == ['A'];
  }

  /** So does the no-break space. */
  lemma {:induction false} StripNoBreakSpace()
    ensures Strip(['A', '\U{00A0}']) == ['A']
  {
    var s: string := ['A', '\U{00A0}'];
    assert !IsSpace(s[0]) && IsSpace(s[1]);
    assert StripLeft(s) == s;
    assert s[..1] == ['A'];
    assert StripRight(['A']) == ['A'];
  }

  /** A string without whitespace at its ends is its own strip. */
  lemma {:induction false} StripOfTrimmed(s: string)
    requires |s| > 0 ==> !IsSpace(s[0]) && !IsSpace(s[|s| - 1])
    ensures Strip(s) == s
  {
  }

  /** ASCII upper-casing of one character; other characters are unchanged. */
  function UpperChar(c: char): (u: char)
    ensures 'a' <= c <= 'z' ==> u as int == c as int - 32
    ensures !('a' <= c <= 'z') ==> u == c
  {
    if 'a' <= c <= 'z' then (c as int - 32) as char else c
  }

  /** ASCII lower-casing of one character; other characters are unchanged. */
  function LowerChar(c: char): (l: char)
    ensures 'A' <= c <= 'Z' ==> l as int == c as int + 32
    ensures !('A' <= c <= 'Z') ==> l == c
  {
    if 'A' <= c <= 'Z' then (c as int + 32) as char else c
  }

  function Lower(s: string): (r: string)
    ensures |r| == |s| && forall i :: 0 <= i < |s| ==> r[i] == LowerChar(s[i])
  {
    if |s| == 0 then [] else [LowerChar(s[0])] + Lower(s[1..])
  }

  /** Upper-casing yields an ASCII capital exactly for ASCII letters, and a letter and its
      lower-case form upper-case to the same character. */
  lemma {:induction false} UpperCharCases(c: char)
    ensures 'A' <= UpperChar(c) <= 'Z' <==> ('A' <= c <= 'Z' || 'a' <= c <= 'z')
    ensures UpperChar(LowerChar(c)) == UpperChar(c)
  {
  }
}

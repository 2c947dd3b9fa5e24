/** Decimal rendering and parsing of integers, as Python's f-string
    interpolation (`f"{n}"`), `int(digits)` and the two-digit fields of
    `strftime` do them, plus `str.join`. Digits are ASCII ('0'..'9'). */
module Strings {

  predicate IsDigit(c: char) {
    '0' <= c <= '9'
  }

  predicate AllDigits(s: string) {
    forall i :: 0 <= i < |s| ==> IsDigit(s[i])
  }

  function DigitChar(d: nat): (c: char)
    requires d < 10
    ensures IsDigit(c)
  {
    ('0' as int + d) as char
  }

  function DigitValue(c: char): (d: nat)
    requires IsDigit(c)
    ensures d < 10 && DigitChar(d) == c
  {
    c as int - '0' as int
  }

  /** The value of a run of decimal digits, as Python's `int(s)`: leading
      zeros are allowed and do not change the value. */
  function DigitsValue(s: string): nat
    requires AllDigits(s)
  {
    if s == [] then 0 else DigitsValue(s[..|s| - 1]) * 10 + DigitValue(s[|s| - 1])
  }

  /** `f"{n}"` for a non-negative integer: the shortest decimal numeral. */
  function NatToString(n: nat): (s: string)
    ensures 1 <= |s| && AllDigits(s)
    ensures |s| > 1 ==> s[0] != '0'
  {
    if n < 10 then [DigitChar(n)] else NatToString(n / 10) + [DigitChar(n % 10)]
  }

  /** `f"{n}"` for any integer: a minus sign before the numeral of `-n`. */
  function IntToString(n: int): (s: string)
    ensures 1 <= |s|
    ensures n < 0 <==> s[0] == '-'
    ensures forall i :: 0 <= i < |s| ==> IsDigit(s[i]) || (i == 0 && s[i] == '-')
  {
    if n < 0 then "-" + NatToString(-n) else NatToString(n)
  }

  /** `int(NatToString(n)) == n`: the rendering is read back to the same value. */
  lemma {:induction false} NatToStringRoundTrip(n: nat)
    ensures DigitsValue(NatToString(n)) == n
  {
    var s := NatToString(n);
    if n >= 10 {
      NatToStringRoundTrip(n / 10);
      assert s[..|s| - 1] == NatToString(n / 10);
    }
  }

  lemma NatToStringInjective(a: nat, b: nat)
    requires NatToString(a) == NatToString(b)
    ensures a == b
  {
    NatToStringRoundTrip(a);
    NatToStringRoundTrip(b);
  }

  /** Different integers are rendered differently, so names built from
      rendered ids are distinct for distinct ids. */
  lemma IntToStringInjective(a: int, b: int)
    requires IntToString(a) == IntToString(b)
    ensures a == b
  {
    var s := IntToString(a);
    if a < 0 {
      assert b < 0;
      var sa := NatToString(-a);
      var sb := NatToString(-b);
      assert s == "-" + sa && s == "-" + sb;
      assert sa == s[1..] && sb == s[1..];
      NatToStringInjective(-a, -b);
    } else {
      assert b >= 0;
      NatToStringInjective(a, b);
    }
  }

  /** A numeral of a number in [1000, 9999] has exactly four digits. */
  lemma FourDigitNumeral(n: nat)
    requires 1000 <= n <= 9999
    ensures |NatToString(n)| == 4
  {
    assert |NatToString(n / 1000)| == 1;
    assert |NatToString(n / 100)| == 2;
    assert |NatToString(n / 10)| == 3;
  }

  /** A field zero-padded to two digits, as `%d`, `%m`, `%H` and `%M` print it. */
  function Pad2(n: nat): (s: string)
    requires n < 100
    ensures |s| == 2 && AllDigits(s) && DigitsValue(s) == n
  {
    var s := [DigitChar(n / 10), DigitChar(n % 10)];
    assert s[..1] == [DigitChar(n / 10)] && s[..1][..0] == [];
    assert DigitsValue(s[..1]) == n / 10;
    s
  }

  /** `sep.join(parts)`. */
  function Join(parts: seq<string>, sep: string): (r: string)
  {
    if |parts| == 0 then ""
    else if |parts| == 1 then parts[0]
    else Join(parts[..|parts| - 1], sep) + sep + parts[|parts| - 1]
  }

  function TotalLength(parts: seq<string>): nat
  {
    if parts == [] then 0 else TotalLength(parts[..|parts| - 1]) + |parts[|parts| - 1]|
  }

  /** The joined text holds every part and one separator between each two. */
  lemma {:induction false} JoinLength(parts: seq<string>, sep: string)
    requires |parts| >= 1
    ensures |Join(parts, sep)| == TotalLength(parts) + (|parts| - 1) * |sep|
  {
    if |parts| > 1 {
      var init := parts[..|parts| - 1];
      JoinLength(init, sep);
      var k := |init|;
      assert (k - 1) * |sep| + |sep| == k * |sep|;
    } else {
      assert parts[..0] == [];
    }
  }

  /** Where part `i` starts in the joined text: after the earlier parts,
      each followed by one separator. */
  function PartStart(parts: seq<string>, sep: string, i: nat): nat
    requires i <= |parts|
  {
    TotalLength(parts[..i]) + i * |sep|
  }

  /** Join of two or more parts: the join of all but the last, the
      separator, then the last part. */
  lemma JoinLast(parts: seq<string>, sep: string)
    requires |parts| >= 2
    ensures var init := parts[..|parts| - 1];
            Join(parts, sep) == Join(init, sep) + sep + parts[|parts| - 1]
            && |Join(init, sep)| + |sep| == PartStart(parts, sep, |parts| - 1)
  {
    var init := parts[..|parts| - 1];
    var n := |init|;
    JoinLength(init, sep);
    assert parts[..n] == init;
    assert (n - 1) * |sep| + |sep| == n * |sep|;
  }

  /** The start of a part does not depend on the parts after it. */
  lemma PartStartPrefix(parts: seq<string>, sep: string, i: nat, k: nat)
    requires i <= k <= |parts|
    ensures PartStart(parts[..k], sep, i) == PartStart(parts, sep, i)
  {
    assert parts[..k][..i] == parts[..i];
  }

  /** The joined text holds every part, in order, at its place. */
  lemma {:induction false} JoinPart(parts: seq<string>, sep: string, i: nat)
    requires i < |parts|
    ensures var r, p := Join(parts, sep), PartStart(parts, sep, i);
            p + |parts[i]| <= |r| && r[p..p + |parts[i]|] == parts[i]
  {
    if |parts| == 1 {
      assert parts[..0] == [];
    } else {
      var init := parts[..|parts| - 1];
      JoinLast(parts, sep);
      if i < |init| {
        JoinPart(init, sep, i);
        PartStartPrefix(parts, sep, i, |init|);
      }
    }
  }

  /** Between each part and the next the joined text holds the separator. */
  lemma {:induction false} JoinSeparator(parts: seq<string>, sep: string, i: nat)
    requires i + 1 < |parts|
    ensures var r, p := Join(parts, sep), PartStart(parts, sep, i) + |parts[i]|;
            p + |sep| == PartStart(parts, sep, i + 1) <= |r| && r[p..p + |sep|] == sep
  {
    var init := parts[..|parts| - 1];
    var n := |init|;
    JoinLast(parts, sep);
    PartStartPrefix(parts, sep, i, n);
    PartStartPrefix(parts, sep, i + 1, n);
    assert parts[..i + 1] == parts[..i] + [parts[i]];
    assert (parts[..i] + [parts[i]])[..i] == parts[..i];
    assert PartStart(parts, sep, i + 1) == PartStart(parts, sep, i) + |parts[i]| + |sep| by {
      assert (i + 1) * |sep| == i * |sep| + |sep|;
    }
    if i + 1 < n {
      JoinSeparator(init, sep, i);
    } else {
      JoinLength(init, sep);
    }
  }
}

/**
 The part of Python's `str.format` that the table renderer uses: a value is
 turned into text (`str` of an integer) and padded with spaces to a minimum
 width, aligned left (`<`), right (`>`) or centred (`^`). Padding never
 truncates: a value longer than the width is emitted whole.
 Strings are sequences of code points, as Python counts them.
 */
module Format {

  function Max(a: int, b: int): int {
    if a < b then b else a
  }

  /** `n` copies of `c`; Python's `c * n`. */
  function Repeat(c: char, n: nat): (r: string)
    ensures |r| == n
    ensures forall i :: 0 <= i < n ==> r[i] == c
  {
    seq(n, _ => c)
  }

  /** `n` spaces, the fill character of every alignment below. */
  function Spaces(n: nat): string {
    Repeat(' ', n)
  }

  /** `'{:<width}'.format(s)`: the text first, padding after it. */
  function AlignLeft(s: string, width: nat): (r: string)
    ensures |r| == Max(|s|, width)
    ensures r[..|s|] == s
    ensures forall i :: |s| <= i < |r| ==> r[i] == ' '
  {
    if |s| < width then s + Spaces(width - |s|) else s
  }

  /** `'{:>width}'.format(s)`: padding first, the text at the end. */
  function AlignRight(s: string, width: nat): (r: string)
    ensures |r| == Max(|s|, width)
    ensures r[|r| - |s|..] == s
    ensures forall i :: 0 <= i < |r| - |s| ==> r[i] == ' '
  {
    if |s| < width then Spaces(width - |s|) + s else s
  }

  /** How many spaces `'{:^width}'` puts before `s`: half the padding, rounded down. */
  function CenterLeftPad(s: string, width: nat): nat {
    if |s| < width then (width - |s|) / 2 else 0
  }

  /**
   `'{:^width}'.format(s)`: the padding is split in two, and when it is odd the
   extra space goes to the right.
   */
  function AlignCenter(s: string, width: nat): (r: string)
    ensures |r| == Max(|s|, width)
    ensures var left := CenterLeftPad(s, width);
      && r[left..left + |s|] == s
      && (forall i :: 0 <= i < left ==> r[i] == ' ')
      && (forall i :: left + |s| <= i < |r| ==> r[i] == ' ')
      && left <= |r| - |s| - left <= left + 1
  {
    if |s| < width then
      var left := (width - |s|) / 2;
      Spaces(left) + s + Spaces(width - |s| - left)
    else
      s
  }

  predicate IsDigit(c: char) {
    '0' <= c <= '9'
  }

  function DigitChar(d: nat): (c: char)
    requires d < 10
    ensures IsDigit(c)
  {
    "0123456789"[d]
  }

  function DigitValue(c: char): (d: nat)
    requires IsDigit(c)
    ensures d < 10
  {
    (c as int - '0' as int) as nat
  }

  /** Decimal digits of `n`, most significant first, no leading zero. */
  function NatToString(n: nat): (r: string)
    ensures 0 < |r|
    ensures forall i :: 0 <= i < |r| ==> IsDigit(r[i])
    ensures r[0] == '0' ==> n == 0
    ensures n == 0 ==> r == "0"
  {
    if n < 10 then [DigitChar(n)] else NatToString(n / 10) + [DigitChar(n % 10)]
  }

  /** Python's `str(i)` for an `int`: a minus sign, then the digits of the magnitude. */
  function IntToString(i: int): string {
    if i < 0 then "-" + NatToString(-i) else NatToString(i)
  }

  /** Reads back a string of decimal digits (the inverse of NatToString). */
  function ParseNat(s: string): nat
    requires forall i :: 0 <= i < |s| ==> IsDigit(s[i])
  {
    if s == [] then 0 else ParseNat(s[..|s| - 1]) * 10 + DigitValue(s[|s| - 1])
  }

  /** Reads back an optionally signed decimal integer (the inverse of IntToString). */
  function ParseInt(s: string): int
    requires 0 < |s|
    requires forall i :: 1 <= i < |s| ==> IsDigit(s[i])
    requires s[0] == '-' || IsDigit(s[0])
  {
    if s[0] == '-' then 0 - ParseNat(s[1..]) as int else ParseNat(s)
  }

  lemma DigitRoundTrip(d: nat)
    requires d < 10
    ensures DigitValue(DigitChar(d)) == d
  {
  }

  lemma {:induction false} NatToStringRoundTrip(n: nat)
    ensures ParseNat(NatToString(n)) == n
  {
    var s := NatToString(n);
    if n < 10 {
      DigitRoundTrip(n);
    } else {
      NatToStringRoundTrip(n / 10);
      DigitRoundTrip(n % 10);
      assert s[..|s| - 1] == NatToString(n / 10);
    }
  }

  /** `str` of an integer can be read back: no two integers print alike. */
  lemma IntToStringRoundTrip(i: int)
    ensures var s := IntToString(i);
      && 0 < |s|
      && (s[0] == '-' || IsDigit(s[0]))
      && (forall k :: 1 <= k < |s| ==> IsDigit(s[k]))
      && (s[0] == '-' <==> i < 0)
      && (i == 0 ==> s == "0")
      && (i != 0 ==> s[if i < 0 then 1 else 0] != '0')
      && ParseInt(s) == i
  {
    var s := IntToString(i);
    if i < 0 {
      var m := NatToString(-i);
      NatToStringRoundTrip(-i);
      assert s == "-" + m;
      assert s[1..] == m;
      assert forall k :: 1 <= k < |s| ==> s[k] == m[k - 1];
    } else {
      NatToStringRoundTrip(i);
    }
  }

  function Pow10(k: nat): nat {
    if k == 0 then 1 else 10 * Pow10(k - 1)
  }

  /** A number below 10^k prints in at most k digits. */
  lemma {:induction false} NatToStringLength(n: nat, k: nat)
    requires 0 < k
    requires n < Pow10(k)
    ensures |NatToString(n)| <= k
  {
    if 10 <= n {
      assert k != 1;
      assert n / 10 < Pow10(k - 1);
      NatToStringLength(n / 10, k - 1);
    }
  }
}

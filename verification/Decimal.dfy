/** Decimal texts: writing a number and reading it back. */
module Decimal {

  function Digit(d: nat): (c: char)
    requires d < 10
  {
    '0' + d as char
  }

  function DecText(n: nat): (t: string)
    ensures t != []
  {
    if n < 10 then [Digit(n)] else DecText(n / 10) + [Digit(n % 10)]
  }

  predicate IsDigit(c: char) { '0' <= c <= '9' }

  /** The number that leads s, given the digits read so far. */
  function ReadDec(s: string, acc: nat): (nat, string) {
    if s == [] || !IsDigit(s[0]) then (acc, s)
    else ReadDec(s[1..], 10 * acc + (s[0] - '0') as nat)
  }

  predicate AllDigits(s: string) { forall i :: 0 <= i < |s| ==> IsDigit(s[i]) }

  lemma {:induction false} DecTextIsDigits(n: nat)
    ensures AllDigits(DecText(n))
  {
    if n >= 10 { DecTextIsDigits(n / 10); }
  }

  lemma {:induction false} ReadDecAppend(s: string, acc: nat, t: string)
    requires AllDigits(s)
    ensures ReadDec(s + t, acc) == ReadDec(t, ReadDec(s, acc).0) && ReadDec(s, acc).1 == []
  {
    if s == [] {
      assert s + t == t;
    } else {
      assert (s + t)[1..] == s[1..] + t;
      ReadDecAppend(s[1..], 10 * acc + (s[0] - '0') as nat, t);
    }
  }

  lemma {:induction false} ReadDecText(n: nat)
    ensures ReadDec(DecText(n), 0) == (n, [])
  {
    if n >= 10 {
      var last := [Digit(n % 10)];
      ReadDecText(n / 10);
      DecTextIsDigits(n / 10);
      ReadDecAppend(DecText(n / 10), 0, last);
      assert last[1..] == [] && (last[0] - '0') as nat == n % 10;
      assert ReadDec(last, n / 10) == ReadDec(last[1..], 10 * (n / 10) + n % 10);
    } else {
      assert ReadDec([Digit(n)], 0) == ReadDec([Digit(n)][1..], n);
    }
  }

  predicate IsSpace(c: char) { c == ' ' || '\t' <= c <= '\r' }

  function SkipSpace(s: string): string {
    if s != [] && IsSpace(s[0]) then SkipSpace(s[1..]) else s
  }

  datatype Scan = NoNumber | Number(value: int, rest: string)

  /** A decimal number after blanks and an optional sign, and the text behind it.
      The value is not clamped as the C library's is; where that can be told, the
      caller's model clamps it. */
  function Strtol(s: string): Scan {
    var t := SkipSpace(s);
    var minus := t != [] && t[0] == '-';
    var u := if t != [] && (t[0] == '-' || t[0] == '+') then t[1..] else t;
    if u == [] || !IsDigit(u[0]) then NoNumber
    else
      var (n, rest) := ReadDec(u, 0);
      Number(if minus then 0 - (n as int) else n, rest)
  }

  /** A decimal text scans as its number, up to what follows it. */
  lemma StrtolText(n: nat, tail: string)
    requires tail == [] || !IsDigit(tail[0])
    ensures Strtol(DecText(n) + tail) == Number(n, tail)
  {
    DecTextIsDigits(n);
    ReadDecText(n);
    ReadDecAppend(DecText(n), 0, tail);
    var s := DecText(n) + tail;
    assert IsDigit(s[0]) && SkipSpace(s) == s;
  }

  lemma {:induction false} BlanksSkipped(blanks: string, rest: string)
    requires (forall i :: 0 <= i < |blanks| ==> IsSpace(blanks[i])) && (rest == [] || !IsSpace(rest[0]))
    ensures SkipSpace(blanks + rest) == rest
  {
    if blanks == [] {
      assert blanks + rest == rest;
    } else {
      assert (blanks + rest)[1..] == blanks[1..] + rest;
      BlanksSkipped(blanks[1..], rest);
    }
  }

  lemma NumberScan(n: nat, tail: string)
    requires tail == [] || !IsDigit(tail[0])
    ensures var number := DecText(n) + tail; IsDigit(number[0]) && ReadDec(number, 0) == (n, tail)
  {
    DecTextIsDigits(n);
    ReadDecText(n);
    ReadDecAppend(DecText(n), 0, tail);
  }

  lemma SignedScan(blanks: string, sign: string, n: nat, tail: string)
    requires (forall i :: 0 <= i < |blanks| ==> IsSpace(blanks[i])) && (tail == [] || !IsDigit(tail[0]))
    requires sign == "" || sign == "+" || sign == "-"
    ensures Strtol(blanks + (sign + (DecText(n) + tail))) == Number(if sign == "-" then 0 - (n as int) else n, tail)
  {
    var number := DecText(n) + tail;
    NumberScan(n, tail);
    BlanksSkipped(blanks, sign + number);
    assert sign == "" ==> sign + number == number;
    assert sign != "" ==> (sign + number)[1..] == number;
  }

  /** Blanks, a sign, digits and what stands behind them. */
  lemma StrtolSigned(blanks: string, n: nat, tail: string)
    requires (forall i :: 0 <= i < |blanks| ==> IsSpace(blanks[i])) && (tail == [] || !IsDigit(tail[0]))
    ensures Strtol(blanks + DecText(n) + tail) == Number(n, tail)
    ensures Strtol(blanks + "+" + DecText(n) + tail) == Number(n, tail)
    ensures Strtol(blanks + "-" + DecText(n) + tail) == Number(0 - (n as int), tail)
  {
    SignedScan(blanks, "", n, tail);
    SignedScan(blanks, "+", n, tail);
    SignedScan(blanks, "-", n, tail);
    Joined(blanks, "", DecText(n), tail);
    Joined(blanks, "+", DecText(n), tail);
    Joined(blanks, "-", DecText(n), tail);
    assert blanks + "" == blanks;
  }

  lemma Joined(a: string, b: string, c: string, d: string)
    ensures a + b + c + d == a + (b + (c + d))
  {
    assert (a + b) + (c + d) == a + (b + (c + d));
    assert (a + b) + c + d == (a + b) + (c + d);
  }

  /** Anything else is no number. */
  lemma StrtolNone(blanks: string, rest: string)
    requires forall i :: 0 <= i < |blanks| ==> IsSpace(blanks[i])
    requires rest == [] || (!IsSpace(rest[0]) && !IsDigit(rest[0]) && rest[0] != '+' && rest[0] != '-')
    ensures Strtol(blanks + rest) == NoNumber
  {
    BlanksSkipped(blanks, rest);
  }

  // ---------------------------------------------------------------------
  // Machine numbers
  // ---------------------------------------------------------------------

  const LONG_MAX: int := 0x7FFF_FFFF_FFFF_FFFF
  const LONG_MIN: int := -0x8000_0000_0000_0000

  type s32 = x: int | -0x8000_0000 <= x < 0x8000_0000

  function Signed32(n: nat): int {
    if n < 0x8000_0000 then n else n - 0x1_0000_0000
  }

  /** The number as a 32-bit int. */
  function ToInt(code: int): (r: s32)
    ensures -0x8000_0000 <= code < 0x8000_0000 ==> r == code
  {
    Signed32(code % 0x1_0000_0000)
  }
}

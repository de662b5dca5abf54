/** iosnoop's bounded text formatter: literals and decimal numbers appended in
    place to a zeroed buffer. */
module Formatter {
  import opened BpfMap
  import opened Decimal

  const LITERAL_MAX: nat := 40
  const ARGS_SIZE: nat := 128

  type s64 = x: int | -0x8000_0000_0000_0000 <= x < 0x8000_0000_0000_0000

  function Min(a: int, b: int): int { if a <= b then a else b }

  // ---------------------------------------------------------------------
  // The text meant
  // ---------------------------------------------------------------------

  function Magnitude(v: s64): u64 { if v < 0 then 0 - (v as int) else v }

  datatype Item = Lit(text: string) | U64(u: u64) | S64(v: s64)

  /** A literal is cut at 40 characters. */
  function Ideal(item: Item): string {
    match item
    case Lit(text) => text[..Min(|text|, LITERAL_MAX)]
    case U64(u) => DecText(u)
    case S64(v) => (if v < 0 then "-" else "") + DecText(Magnitude(v))
  }

  function IdealText(items: seq<Item>): string {
    if items == [] then "" else IdealText(items[..|items| - 1]) + Ideal(items[|items| - 1])
  }

  // ---------------------------------------------------------------------
  // What the calls do
  // ---------------------------------------------------------------------

  /** A buffer and the position at which the next call writes. */
  datatype Buf = Buf(s: string, pos: nat)

  /** As much of t as leaves room for a terminator, then the terminator. */
  function Place(b: Buf, max: nat, t: string): (r: Buf)
    requires b.pos < max <= |b.s|
    ensures |r.s| == |b.s| && b.pos <= r.pos < max
    ensures forall i :: max <= i < |b.s| ==> r.s[i] == b.s[i]
  {
    var n := Min(|t|, max - 1 - b.pos);
    Buf(b.s[..b.pos] + t[..n] + ['\0'] + b.s[b.pos + n + 1..], b.pos + n)
  }

  function PlaceLit(b: Buf, max: nat, lit: string): Buf
    requires b.pos < max <= |b.s|
  {
    Place(b, max, lit[..Min(|lit|, LITERAL_MAX)])
  }

  /** Without room for a digit the digit writer returns at once. */
  function PlaceU64(b: Buf, max: nat, u: u64): Buf
    requires b.pos < max <= |b.s|
  {
    if b.pos >= max - 1 then b else Place(b, max, DecText(u))
  }

  function PlaceS64(b: Buf, max: nat, v: s64): Buf
    requires b.pos < max <= |b.s|
  {
    var b' := if v < 0 && b.pos < max - 1 then Buf(b.s[b.pos := '-'], b.pos + 1) else b;
    PlaceU64(b', max, Magnitude(v))
  }

  function PlaceItem(b: Buf, max: nat, item: Item): (r: Buf)
    requires b.pos < max <= |b.s|
    ensures |r.s| == |b.s| && r.pos < max
    ensures forall i :: max <= i < |b.s| ==> r.s[i] == b.s[i]
  {
    match item
    case Lit(text) => PlaceLit(b, max, text)
    case U64(u) => PlaceU64(b, max, u)
    case S64(v) => PlaceS64(b, max, v)
  }

  function PlaceAll(b: Buf, max: nat, items: seq<Item>): (r: Buf)
    requires b.pos < max <= |b.s|
    ensures |r.s| == |b.s| && r.pos < max
    ensures forall i :: max <= i < |b.s| ==> r.s[i] == b.s[i]
  {
    if items == [] then b else PlaceItem(PlaceAll(b, max, items[..|items| - 1]), max, items[|items| - 1])
  }

  /** What one append does to the buffer, byte by byte: the text as far as it
      leaves room for a terminator, the terminator, and nothing else. */
  lemma PlaceMeans(b: Buf, max: nat, t: string)
    requires b.pos < max <= |b.s|
    ensures var r := Place(b, max, t);
            && r.pos == (if b.pos + |t| < max then b.pos + |t| else max - 1)
            && |r.s| == |b.s|
            && forall i :: 0 <= i < |b.s| ==>
                 r.s[i] == if b.pos <= i < r.pos then t[i - b.pos] else if i == r.pos then '\0' else b.s[i]
  {}

  /** A literal counts up to its fortieth character; a number needs room for at
      least one, and a minus goes before the digits if there is room for it. */
  lemma AppendsMean(b: Buf, max: nat, lit: string, u: u64, v: s64)
    requires b.pos < max <= |b.s|
    ensures PlaceLit(b, max, lit) == Place(b, max, if |lit| <= 40 then lit else lit[..40])
    ensures PlaceU64(b, max, u) == if b.pos == max - 1 then b else Place(b, max, DecText(u))
    ensures v >= 0 ==> PlaceS64(b, max, v) == PlaceU64(b, max, v)
    ensures v < 0 && b.pos == max - 1 ==> PlaceS64(b, max, v) == b
    ensures v < 0 && b.pos < max - 1 ==>
              PlaceS64(b, max, v) == PlaceU64(Buf(b.s[b.pos := '-'], b.pos + 1), max, 0 - (v as int))
  {}

  // ---------------------------------------------------------------------
  // Prefix and termination
  // ---------------------------------------------------------------------

  /** The buffer holds the longest prefix of the text that leaves room for a
      terminator, and zeros from there on. */
  ghost predicate Holds(b: Buf, max: nat, text: string) {
    && 0 < max <= |b.s|
    && b.pos == Min(|text|, max - 1)
    && b.s[..b.pos] == text[..b.pos]
    && forall i :: b.pos <= i < |b.s| ==> b.s[i] == '\0'
  }

  lemma PlaceExtends(b: Buf, max: nat, text: string, t: string)
    requires Holds(b, max, text)
    ensures Holds(Place(b, max, t), max, text + t)
  {
    var r := Place(b, max, t);
    assert r.pos == Min(|text + t|, max - 1);
    forall i | 0 <= i < r.pos
      ensures r.s[i] == (text + t)[i]
    {
      if i < b.pos {
        assert b.s[i] == b.s[..b.pos][i] == text[..b.pos][i];
      }
    }
    assert r.s[..r.pos] == (text + t)[..r.pos];
  }

  lemma U64Extends(b: Buf, max: nat, text: string, u: u64)
    requires Holds(b, max, text)
    ensures Holds(PlaceU64(b, max, u), max, text + DecText(u))
  {
    if b.pos >= max - 1 {
      assert (text + DecText(u))[..b.pos] == text[..b.pos];
    } else {
      PlaceExtends(b, max, text, DecText(u));
    }
  }

  lemma S64Extends(b: Buf, max: nat, text: string, v: s64)
    requires Holds(b, max, text) && v < 0
    ensures Holds(PlaceS64(b, max, v), max, text + Ideal(S64(v)))
  {
    var digits := DecText(Magnitude(v));
    assert text + Ideal(S64(v)) == (text + "-") + digits;
    if b.pos < max - 1 {
      var b' := Place(b, max, "-");
      PlaceExtends(b, max, text, "-");
      assert b' == Buf(b.s[b.pos := '-'], b.pos + 1);
      U64Extends(b', max, text + "-", Magnitude(v));
    } else {
      assert (text + Ideal(S64(v)))[..b.pos] == text[..b.pos];
    }
  }

  lemma ItemExtends(b: Buf, max: nat, text: string, item: Item)
    requires Holds(b, max, text)
    ensures Holds(PlaceItem(b, max, item), max, text + Ideal(item))
  {
    match item
    case Lit(_) => PlaceExtends(b, max, text, Ideal(item));
    case U64(u) => U64Extends(b, max, text, u);
    case S64(v) =>
      if v < 0 {
        S64Extends(b, max, text, v);
      } else {
        U64Extends(b, max, text, v);
        assert Ideal(item) == DecText(v);
      }
  }

  /** Any chain of appends on a zeroed buffer leaves a prefix of the ideal text,
      full but for the terminator, and zeros from the returned position on. */
  lemma {:induction false} ChainHoldsPrefix(b: Buf, max: nat, items: seq<Item>)
    requires 0 < max <= |b.s| && b.pos == 0 && forall i :: 0 <= i < |b.s| ==> b.s[i] == '\0'
    ensures Holds(PlaceAll(b, max, items), max, IdealText(items))
  {
    if items != [] {
      ChainHoldsPrefix(b, max, items[..|items| - 1]);
      ItemExtends(PlaceAll(b, max, items[..|items| - 1]), max, IdealText(items[..|items| - 1]), items[|items| - 1]);
    }
  }

  // ---------------------------------------------------------------------
  // Round trip
  // ---------------------------------------------------------------------

  function Pow10(k: nat): (p: nat)
    ensures p > 0
  {
    if k == 0 then 1 else 10 * Pow10(k - 1)
  }

  lemma {:induction false} DigitCount(n: nat, k: nat)
    requires 0 < k && n < Pow10(k)
    ensures |DecText(n)| <= k
  {
    if n >= 10 {
      assert Pow10(1) == 10;
      DigitCount(n / 10, k - 1);
    }
  }

  lemma TwentyDigitsSuffice(n: u64)
    ensures n < Pow10(20)
    ensures |DecText(n)| <= 20
  {
    assert Pow10(4) == 10_000 by { assert Pow10(2) == 100; }
    assert Pow10(8) == 100_000_000 by { assert Pow10(6) == 1_000_000; }
    assert Pow10(12) == 1_000_000_000_000 by { assert Pow10(10) == 10_000_000_000; }
    assert Pow10(16) == 10_000_000_000_000_000 by { assert Pow10(14) == 100_000_000_000_000; }
    assert Pow10(20) == 100_000_000_000_000_000_000 by { assert Pow10(18) == 1_000_000_000_000_000_000; }
    DigitCount(n, 20);
  }

  datatype Parsed = Failed | Numbers(first: int, second: int)

  function ReadSigned(s: string): (int, string) {
    if s != [] && s[0] == '-' then var (n, rest) := ReadDec(s[1..], 0); (0 - (n as int), rest)
    else var (n, rest) := ReadDec(s, 0); (n, rest)
  }

  /** Reads back a text of two labelled numbers. */
  function Parse(a: string, b: string, s: string): Parsed {
    if !(a <= s) then Failed
    else
      var (first, rest) := ReadSigned(s[|a|..]);
      if !(b <= rest) then Failed
      else
        var (second, tail) := ReadSigned(rest[|b|..]);
        if tail == [] then Numbers(first, second) else Failed
  }

  function ValueOf(item: Item): int
    requires !item.Lit?
  {
    if item.U64? then item.u else item.v
  }

  lemma ReadNumber(item: Item, t: string)
    requires !item.Lit? && (t == [] || !IsDigit(t[0]))
    ensures ReadSigned(Ideal(item) + t) == (ValueOf(item), t)
  {
    var n := if item.U64? then item.u else Magnitude(item.v);
    DecTextIsDigits(n);
    ReadDecText(n);
    ReadDecAppend(DecText(n), 0, t);
    var s := Ideal(item) + t;
    if item.S64? && item.v < 0 {
      assert s[0] == '-' && s[1..] == DecText(n) + t;
    } else {
      assert s == DecText(n) + t && IsDigit(s[0]);
    }
  }

  /** The text before the terminator, as the reader of the event takes it. */
  function CText(s: string): (r: string)
    ensures r <= s && '\0' !in r && (r == s || s[|r|] == '\0')
  {
    if s == [] || s[0] == '\0' then [] else [s[0]] + CText(s[1..])
  }

  function TwoNumbers(a: string, x: Item, b: string, y: Item): seq<Item> { [Lit(a), x, Lit(b), y] }

  lemma IdealSnoc(items: seq<Item>, last: Item)
    ensures IdealText(items + [last]) == IdealText(items) + Ideal(last)
  {
    assert (items + [last])[..|items|] == items;
  }

  lemma IdealOfFour(p: Item, q: Item, r: Item, t: Item)
    ensures IdealText([p, q, r, t]) == Ideal(p) + Ideal(q) + Ideal(r) + Ideal(t)
  {
    var two := [p] + [q];
    var three := two + [r];
    assert [] + [p] == [p] && [p, q, r, t] == three + [t];
    IdealSnoc([], p);
    IdealSnoc([p], q);
    IdealSnoc(two, r);
    IdealSnoc(three, t);
    assert IdealText([p]) == Ideal(p);
  }

  lemma Regroup(a: string, x: string, b: string, y: string)
    ensures a + x + b + y == a + (x + (b + y))
  {
    Regroup3(a + x, b, y);
    Regroup3(a, x, b + y);
  }

  lemma TwoNumbersText(a: string, x: Item, b: string, y: Item)
    requires |a| <= LITERAL_MAX && |b| <= LITERAL_MAX
    ensures IdealText(TwoNumbers(a, x, b, y)) == a + (Ideal(x) + (b + Ideal(y)))
  {
    IdealOfFour(Lit(a), x, Lit(b), y);
    Regroup(a, Ideal(x), b, Ideal(y));
  }

  lemma NumberText(item: Item)
    requires !item.Lit?
    ensures |Ideal(item)| <= 21 && '\0' !in Ideal(item)
  {
    var n := if item.U64? then item.u else Magnitude(item.v);
    TwentyDigitsSuffice(n);
    DecTextIsDigits(n);
  }

  lemma ArgumentsFit(b0: Buf, a: string, x: Item, b: string, y: Item)
    requires |b0.s| == ARGS_SIZE && b0.pos == 0 && forall i :: 0 <= i < |b0.s| ==> b0.s[i] == '\0'
    requires !x.Lit? && !y.Lit? && |a| <= LITERAL_MAX && |b| <= LITERAL_MAX
    requires '\0' !in a && '\0' !in b
    ensures var r := PlaceAll(b0, ARGS_SIZE, TwoNumbers(a, x, b, y));
            && r.pos == |IdealText(TwoNumbers(a, x, b, y))|
            && CText(r.s) == IdealText(TwoNumbers(a, x, b, y))
  {
    var r := PlaceAll(b0, ARGS_SIZE, TwoNumbers(a, x, b, y));
    var text := IdealText(TwoNumbers(a, x, b, y));
    ChainHoldsPrefix(b0, ARGS_SIZE, TwoNumbers(a, x, b, y));
    TwoNumbersText(a, x, b, y);
    NumberText(x);
    NumberText(y);
    assert '\0' !in text && r.pos == |text|;
    assert text == r.s[..r.pos];
    CTextIs(r.s, text);
  }

  lemma ArgumentsParse(a: string, x: Item, b: string, y: Item)
    requires !x.Lit? && !y.Lit? && b != [] && !IsDigit(b[0])
    ensures Parse(a, b, a + (Ideal(x) + (b + Ideal(y)))) == Numbers(ValueOf(x), ValueOf(y))
  {
    var tail := b + Ideal(y);
    assert (a + (Ideal(x) + tail))[|a|..] == Ideal(x) + tail;
    assert tail[|b|..] == Ideal(y) + [];
    ReadNumber(x, tail);
    ReadNumber(y, []);
  }

  /** Two labelled numbers, as in "count=.. pos=.." and "offset=.. len=..", fit
      the argument field untruncated and read back to the same numbers, for
      every unsigned and signed 64-bit value including the most negative one. */
  lemma ArgumentsRoundTrip(b0: Buf, a: string, x: Item, b: string, y: Item)
    requires |b0.s| == ARGS_SIZE && b0.pos == 0 && forall i :: 0 <= i < |b0.s| ==> b0.s[i] == '\0'
    requires !x.Lit? && !y.Lit? && |a| <= LITERAL_MAX && 0 < |b| <= LITERAL_MAX
    requires '\0' !in a && '\0' !in b && !IsDigit(b[0])
    ensures var r := PlaceAll(b0, ARGS_SIZE, TwoNumbers(a, x, b, y));
            && r.pos == |IdealText(TwoNumbers(a, x, b, y))|
            && CText(r.s) == IdealText(TwoNumbers(a, x, b, y))
            && Parse(a, b, CText(r.s)) == Numbers(ValueOf(x), ValueOf(y))
  {
    ArgumentsFit(b0, a, x, b, y);
    TwoNumbersText(a, x, b, y);
    ArgumentsParse(a, x, b, y);
  }

  lemma {:induction false} CTextIs(s: string, text: string)
    requires text <= s && '\0' !in text && |text| < |s| && s[|text|] == '\0'
    ensures CText(s) == text
  {
    if text != [] {
      CTextIs(s[1..], text[1..]);
      assert text == [text[0]] + text[1..];
    }
  }

  // ---------------------------------------------------------------------
  // The calls themselves
  // ---------------------------------------------------------------------

  method AppendLit(dst: array<char>, start: nat, max: nat, lit: string) returns (pos: nat)
    requires start < max <= dst.Length && '\0' !in lit
    modifies dst
    ensures Buf(dst[..], pos) == PlaceLit(Buf(old(dst[..]), start), max, lit)
  {
    pos := start;
    var i := 0;
    while i < 40
      invariant i <= 40 && i <= |lit| && pos == start + i < max
      invariant Written(dst[..], old(dst[..]), start, lit[..i])
    {
      if pos >= max - 1 || i == |lit| { break; }
      WrittenMore(dst[..], old(dst[..]), start, lit[..i], lit[i]);
      assert lit[..i] + [lit[i]] == lit[..i + 1];
      dst[pos] := lit[i];
      assert dst[..] == dst[..][pos := lit[i]];
      pos := pos + 1;
      i := i + 1;
    }
    WrittenDone(dst[..], Buf(old(dst[..]), start), max, lit[..Min(|lit|, LITERAL_MAX)], i);
    dst[pos] := '\0';
  }

  /** s is was with t written over it from start on. */
  ghost predicate Written(s: string, was: string, start: nat, t: string) {
    && |s| == |was| && start + |t| <= |s|
    && forall i :: 0 <= i < |s| ==> s[i] == if start <= i < start + |t| then t[i - start] else was[i]
  }

  lemma WrittenMore(s: string, was: string, start: nat, t: string, c: char)
    requires Written(s, was, start, t) && start + |t| < |s|
    ensures Written(s[start + |t| := c], was, start, t + [c])
  {}

  lemma WrittenDone(s: string, b: Buf, max: nat, t: string, n: nat)
    requires b.pos < max <= |b.s| && n == Min(|t|, max - 1 - b.pos) && Written(s, b.s, b.pos, t[..n])
    ensures Buf(s[b.pos + n := '\0'], b.pos + n) == Place(b, max, t)
  {}

  /** The digits of tmp, last written first. */
  ghost function Reversed(tmp: seq<char>): string {
    if tmp == [] then [] else [tmp[|tmp| - 1]] + Reversed(tmp[..|tmp| - 1])
  }

  lemma {:induction false} ReversedAt(tmp: seq<char>, k: nat)
    requires k < |tmp|
    ensures |Reversed(tmp)| == |tmp| && Reversed(tmp)[k] == tmp[|tmp| - 1 - k]
  {
    var rest := tmp[..|tmp| - 1];
    if k > 0 {
      ReversedAt(rest, k - 1);
    } else if rest != [] {
      ReversedAt(rest, 0);
    }
  }

  /** Digits still to be peeled off, and those already in tmp. */
  ghost function Unpeeled(v: nat): string { if v == 0 then [] else DecText(v) }

  lemma LastDigit(v: nat)
    requires v > 0
    ensures DecText(v) == Unpeeled(v / 10) + [Digit(v % 10)]
  {}

  lemma ReversedMore(tmp: seq<char>, c: char)
    ensures Reversed(tmp + [c]) == [c] + Reversed(tmp)
  {
    assert (tmp + [c])[..|tmp|] == tmp;
  }

  lemma Regroup3(a: string, b: string, c: string)
    ensures (a + b) + c == a + (b + c)
  {}

  lemma Peel(v: nat, tmp: seq<char>)
    requires v > 0
    ensures Unpeeled(v) + Reversed(tmp) == Unpeeled(v / 10) + Reversed(tmp + [Digit(v % 10)])
  {
    LastDigit(v);
    ReversedMore(tmp, Digit(v % 10));
    Regroup3(Unpeeled(v / 10), [Digit(v % 10)], Reversed(tmp));
  }

  method AppendU64Dec(dst: array<char>, start: nat, max: nat, u: u64) returns (pos: nat)
    requires start < max <= dst.Length
    modifies dst
    ensures Buf(dst[..], pos) == PlaceU64(Buf(old(dst[..]), start), max, u)
  {
    pos := start;
    if pos >= max - 1 { return; }
    if u == 0 {
      assert DecText(0)[..1] == ['0'];
      dst[pos] := '0';
      pos := pos + 1;
      dst[pos] := '\0';
      return;
    }
    var tmp, i := Peeled(u);
    pos := CopyBack(dst, start, max, tmp, i);
  }

  /** The second loop of the digit writer: the digits in reverse. */
  method CopyBack(dst: array<char>, start: nat, max: nat, tmp: array<char>, n: nat) returns (pos: nat)
    requires start < max <= dst.Length && 0 < n <= tmp.Length && tmp != dst
    modifies dst
    ensures Buf(dst[..], pos) == Place(Buf(old(dst[..]), start), max, Reversed(tmp[..n]))
  {
    pos := start;
    var i := n;
    ghost var text := Reversed(tmp[..n]);
    ReversedAt(tmp[..n], 0);
    while i > 0
      invariant 0 <= i <= n && start + (n - i) == pos < max && |text| == n
      invariant text == Reversed(tmp[..n])
      invariant Written(dst[..], old(dst[..]), start, text[..n - i])
    {
      if pos >= max - 1 { break; }
      i := i - 1;
      ReversedAt(tmp[..n], n - 1 - i);
      WrittenMore(dst[..], old(dst[..]), start, text[..n - i - 1], tmp[i]);
      assert text[..n - i - 1] + [tmp[i]] == text[..n - i];
      ghost var before := dst[..];
      dst[pos] := tmp[i];
      assert dst[..] == before[pos := tmp[i]];
      pos := pos + 1;
    }
    WrittenDone(dst[..], Buf(old(dst[..]), start), max, text, n - i);
    dst[pos] := '\0';
  }

  /** v is what is left of u after tmp was peeled off; twenty digits suffice. */
  ghost predicate Peeling(u: nat, v: nat, tmp: seq<char>) {
    && |tmp| <= 20 && v < Pow10(20 - |tmp|)
    && Unpeeled(v) + Reversed(tmp) == DecText(u)
  }

  lemma PeelStart(u: u64)
    requires u > 0
    ensures Peeling(u, u, [])
  {
    TwentyDigitsSuffice(u);
    assert DecText(u) + [] == DecText(u);
  }

  lemma PeelStep(u: nat, v: nat, tmp: seq<char>)
    requires Peeling(u, v, tmp) && v > 0
    ensures |tmp| < 20 && Peeling(u, v / 10, tmp + [Digit(v % 10)])
  {
    Peel(v, tmp);
    assert Pow10(20 - |tmp|) == 10 * Pow10(20 - |tmp| - 1);
  }

  lemma PeelDone(u: nat, v: nat, tmp: seq<char>)
    requires Peeling(u, v, tmp) && (v == 0 || |tmp| == 20)
    ensures Reversed(tmp) == DecText(u) && tmp != []
  {
    assert [] + Reversed(tmp) == Reversed(tmp);
  }

  /** The first loop of the digit writer: its 20 rounds always reach zero. */
  method Peeled(u: u64) returns (tmp: array<char>, i: nat)
    requires u > 0
    ensures fresh(tmp) && 0 < i <= 20 < tmp.Length && Reversed(tmp[..i]) == DecText(u)
  {
    tmp := new char[21];
    i := 0;
    var v := u;
    PeelStart(u);
    assert tmp[..0] == [];
    while v != 0 && i < 20
      invariant 0 <= i <= 20 && 0 <= v && Peeling(u, v, tmp[..i])
    {
      PeelStep(u, v, tmp[..i]);
      ghost var done := tmp[..i];
      tmp[i] := '0' + (v % 10) as char;
      assert tmp[..i + 1] == done + [Digit(v % 10)];
      v := v / 10;
      i := i + 1;
    }
    PeelDone(u, v, tmp[..i]);
  }

  /** Two's-complement negation: the most negative number is its own. */
  function Negate64(v: s64): s64 {
    if v == -0x8000_0000_0000_0000 then v else 0 - (v as int)
  }

  function AsUnsigned(v: s64): u64 {
    if v < 0 then v + TWO64 else v
  }

  lemma NegationIsMagnitude(v: s64)
    requires v < 0
    ensures AsUnsigned(Negate64(v)) == Magnitude(v)
  {}

  method AppendS64Dec(dst: array<char>, start: nat, max: nat, value: s64) returns (pos: nat)
    requires start < max <= dst.Length
    modifies dst
    ensures Buf(dst[..], pos) == PlaceS64(Buf(old(dst[..]), start), max, value)
  {
    pos := start;
    var v := value;
    if v < 0 {
      NegationIsMagnitude(v);
      if pos < max - 1 {
        dst[pos] := '-';
        assert dst[..] == old(dst[..])[start := '-'];
        pos := pos + 1;
      }
      v := Negate64(v);
    }
    pos := AppendU64Dec(dst, pos, max, AsUnsigned(v));
  }

  // ---------------------------------------------------------------------
  // Two entry probes
  // ---------------------------------------------------------------------

  lemma ChainOfFour(b: Buf, max: nat, a: Item, x: Item, c: Item, y: Item)
    requires b.pos < max <= |b.s|
    ensures PlaceAll(b, max, [a, x, c, y])
         == PlaceItem(PlaceItem(PlaceItem(PlaceItem(b, max, a), max, x), max, c), max, y)
  {
    assert [a, x, c, y][..3] == [a, x, c] && [a, x, c][..2] == [a, x] && [a, x][..1] == [a];
    assert PlaceAll(b, max, [a]) == PlaceItem(b, max, a);
    assert PlaceAll(b, max, [a, x]) == PlaceItem(PlaceItem(b, max, a), max, x);
    assert PlaceAll(b, max, [a, x, c]) == PlaceItem(PlaceItem(PlaceItem(b, max, a), max, x), max, c);
  }

  /** The argument text of a read or a write. */
  method ReadArgs(count: u64, off: s64) returns (args: array<char>)
    ensures fresh(args) && args.Length == 128
    ensures Parse("count=", " pos=", CText(args[..])) == Numbers(count, off)
  {
    args := new char[ARGS_SIZE](_ => '\0');
    ghost var zeroed := Buf(args[..], 0);
    var p := AppendLit(args, 0, ARGS_SIZE, "count=");
    p := AppendU64Dec(args, p, ARGS_SIZE, count);
    p := AppendLit(args, p, ARGS_SIZE, " pos=");
    p := AppendS64Dec(args, p, ARGS_SIZE, off);
    ChainOfFour(zeroed, ARGS_SIZE, Lit("count="), U64(count), Lit(" pos="), S64(off));
    ArgumentsRoundTrip(zeroed, "count=", U64(count), " pos=", S64(off));
  }

  /** The argument text of a fallocate. */
  method FallocateArgs(offset: s64, len: s64) returns (args: array<char>)
    ensures fresh(args) && args.Length == 128
    ensures Parse("offset=", " len=", CText(args[..])) == Numbers(offset, len)
  {
    args := new char[ARGS_SIZE](_ => '\0');
    ghost var zeroed := Buf(args[..], 0);
    var p := AppendLit(args, 0, ARGS_SIZE, "offset=");
    p := AppendS64Dec(args, p, ARGS_SIZE, offset);
    p := AppendLit(args, p, ARGS_SIZE, " len=");
    p := AppendS64Dec(args, p, ARGS_SIZE, len);
    ChainOfFour(zeroed, ARGS_SIZE, Lit("offset="), S64(offset), Lit(" len="), S64(len));
    ArgumentsRoundTrip(zeroed, "offset=", S64(offset), " len=", S64(len));
  }
}

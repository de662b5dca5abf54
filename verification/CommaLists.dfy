/** Option texts that list items between commas, split as the C library does. */
module CommaLists {
  import opened Decimal

  function SkipCommas(s: string): (r: string)
    ensures |r| <= |s| && (r == [] || r[0] != ',')
  {
    if s != [] && s[0] == ',' then SkipCommas(s[1..]) else s
  }

  function FirstToken(s: string): (t: string)
    ensures t <= s && ',' !in t && (t == s || s[|t|] == ',')
  {
    if s == [] || s[0] == ',' then [] else [s[0]] + FirstToken(s[1..])
  }

  /** The texts between commas; empty ones are skipped. */
  function Tokens(s: string): seq<string>
    decreases |s|
  {
    var t := SkipCommas(s);
    if t == [] then [] else [FirstToken(t)] + Tokens(t[|FirstToken(t)|..])
  }

  lemma TokensSkip(s: string)
    ensures Tokens(SkipCommas(s)) == Tokens(s)
  {}

  // ---------------------------------------------------------------------
  // Writing a list
  // ---------------------------------------------------------------------

  function CommaList(codes: seq<nat>): string {
    if codes == [] then []
    else if |codes| == 1 then DecText(codes[0])
    else DecText(codes[0]) + ("," + CommaList(codes[1..]))
  }

  function Texts(codes: seq<nat>): (r: seq<string>)
    ensures |r| == |codes| && forall i :: 0 <= i < |codes| ==> r[i] == DecText(codes[i])
  {
    if codes == [] then [] else [DecText(codes[0])] + Texts(codes[1..])
  }

  lemma {:induction false} FirstTokenIs(word: string, tail: string)
    requires ',' !in word && (tail == [] || tail[0] == ',')
    ensures FirstToken(word + tail) == word
  {
    if word == [] {
      assert word + tail == tail;
    } else {
      assert (word + tail)[1..] == word[1..] + tail;
      FirstTokenIs(word[1..], tail);
    }
  }

  lemma LeadingComma(s: string)
    ensures Tokens("," + s) == Tokens(s)
  {
    assert ("," + s)[1..] == s;
  }

  lemma NumberSplitsOff(n: nat, tail: string)
    requires tail == [] || tail[0] == ','
    ensures Tokens(DecText(n) + tail) == [DecText(n)] + Tokens(tail)
  {
    DecTextIsDigits(n);
    FirstTokenIs(DecText(n), tail);
    TokensOf(DecText(n), tail);
  }

  lemma {:induction false} ListSplits(codes: seq<nat>)
    ensures Tokens(CommaList(codes)) == Texts(codes)
  {
    if |codes| == 1 {
      NumberSplitsOff(codes[0], []);
      assert DecText(codes[0]) + [] == DecText(codes[0]);
    } else if codes != [] {
      ListSplits(codes[1..]);
      NumberSplitsOff(codes[0], "," + CommaList(codes[1..]));
      LeadingComma(CommaList(codes[1..]));
    }
  }

  lemma TokensOf(word: string, tail: string)
    requires word != [] && word[0] != ',' && FirstToken(word + tail) == word
    ensures Tokens(word + tail) == [word] + Tokens(tail)
  {
    assert (word + tail)[|word|..] == tail;
  }
}

/** nfsiosnoop's error filter, from the text on the command line to the probes'
    decision. */
module NfsErrors {
  import opened Options
  import opened BpfMap
  import opened Decimal
  import opened CommaLists
  import opened EventCodec

  const INT_MIN: s32 := -0x8000_0000
  const MAX_ERROR_CODES: nat := 113

  const LOW_ERRORS: seq<int> := [1, 2, 5, 6, 13, 17, 18, 20, 21, 22, 27, 28, 30, 31, 63, 66, 69, 70]

  function Consecutive(from: int, n: nat): (r: seq<int>)
    ensures |r| == n && forall i :: 0 <= i < n ==> r[i] == from + i
  {
    seq(n, i => from + i)
  }

  /** The table: the low codes, 10001, then 10003 to 10072 and 10074 to 10097. */
  const NFS4_ERRORS: seq<int> := LOW_ERRORS + [10001] + Consecutive(10003, 70) + Consecutive(10074, 24)

  // ---------------------------------------------------------------------
  // The table
  // ---------------------------------------------------------------------

  predicate NfsError(code: int) {
    || code in {1, 2, 5, 6, 13, 17, 18, 20, 21, 22, 27, 28, 30, 31, 63, 66, 69, 70}
    || (10001 <= code <= 10097 && code != 10002 && code != 10073)
  }

  /** The table holds 113 codes, strictly increasing, and they are the low codes
      and all but two numbers from 10001 to 10097. */
  lemma TableIncreases()
    ensures |NFS4_ERRORS| == MAX_ERROR_CODES
    ensures forall i, j :: 0 <= i < j < MAX_ERROR_CODES ==> NFS4_ERRORS[i] < NFS4_ERRORS[j]
  {
    var t := NFS4_ERRORS;
    assert |LOW_ERRORS| == 18 && forall i :: 0 <= i < 18 ==> t[i] == LOW_ERRORS[i];
    assert forall i :: 0 <= i < 17 ==> LOW_ERRORS[i] < LOW_ERRORS[i + 1];
    assert t[18] == 10001;
    assert forall i :: 19 <= i < 89 ==> t[i] == 10003 + (i - 19);
    assert forall i :: 89 <= i < 113 ==> t[i] == 10074 + (i - 89);
    assert forall i :: 0 <= i < 112 ==> t[i] < t[i + 1];
    StepwiseIncreases(t);
  }

  lemma StepwiseIncreases(t: seq<int>)
    requires forall i :: 0 <= i < |t| - 1 ==> t[i] < t[i + 1]
    ensures forall i, j :: 0 <= i < j < |t| ==> t[i] < t[j]
  {
    for n := 0 to |t|
      invariant forall i, j :: 0 <= i < j < n ==> t[i] < t[j]
    {
      assert n > 0 ==> t[n - 1] < t[n];
    }
  }

  lemma TableMembers(code: int)
    ensures code in NFS4_ERRORS <==> NfsError(code)
  {
    var t := NFS4_ERRORS;
    if 10003 <= code <= 10072 { assert t[code - 10003 + 19] == code; }
    if 10074 <= code <= 10097 { assert t[code - 10074 + 89] == code; }
  }

  /** The binary search accepts exactly the members of the table. */
  method ValidateErrCode(code: int) returns (found: bool)
    ensures found <==> code in NFS4_ERRORS
  {
    TableIncreases();
    var low, high := 0, MAX_ERROR_CODES;
    while low < high
      invariant 0 <= low <= high <= MAX_ERROR_CODES
      invariant forall i :: 0 <= i < low ==> NFS4_ERRORS[i] < code
      invariant forall i :: high <= i < MAX_ERROR_CODES ==> code < NFS4_ERRORS[i]
    {
      var mid := (low + high) / 2;
      if code < NFS4_ERRORS[mid] {
        high := mid;
      } else if code > NFS4_ERRORS[mid] {
        low := mid + 1;
      } else {
        return true;
      }
    }
    return false;
  }

  // ---------------------------------------------------------------------
  // The text of the option
  // ---------------------------------------------------------------------

  /** A token that is one positive number that fits a long, and nothing else. */
  function ReadCode(token: string): (r: Option<int>)
    ensures r.Some? ==> 0 < r.value <= LONG_MAX
  {
    match Strtol(token)
    case NoNumber => None
    case Number(v, rest) => if rest == [] && 0 < v <= LONG_MAX then Some(v) else None
  }

  predicate Readable(tokens: seq<string>) {
    forall i :: 0 <= i < |tokens| ==> ReadCode(tokens[i]).Some?
  }

  datatype Parsed = Parsed(ok: bool, filter: seq<int>)

  function Appended(filter: seq<int>, code: int): seq<int> {
    if code in NFS4_ERRORS && |filter| < MAX_ERROR_CODES then filter + [code] else filter
  }

  function ParseTokens(tokens: seq<string>, filter: seq<int>): Parsed {
    if tokens == [] then Parsed(true, filter)
    else match ReadCode(tokens[0])
      case None => Parsed(false, filter)
      case Some(code) => ParseTokens(tokens[1..], Appended(filter, ToInt(code)))
  }

  predicate TableOnly(filter: seq<int>) {
    |filter| <= MAX_ERROR_CODES && forall i :: 0 <= i < |filter| ==> filter[i] in NFS4_ERRORS
  }

  /** A number is a code if it is positive, fits a long and fills its token; blanks
      and a plus may stand before it, a minus refuses it, and so does any text
      behind it. */
  lemma CodeTokens(blanks: string, n: nat, tail: string)
    requires (forall i :: 0 <= i < |blanks| ==> IsSpace(blanks[i])) && (tail == [] || !IsDigit(tail[0]))
    ensures ReadCode(blanks + DecText(n) + tail) == if tail == [] && 0 < n <= LONG_MAX then Some(n) else None
    ensures ReadCode(blanks + "+" + DecText(n) + tail) == if tail == [] && 0 < n <= LONG_MAX then Some(n) else None
    ensures ReadCode(blanks + "-" + DecText(n) + tail) == None
    ensures tail != [] && tail[0] != '+' && tail[0] != '-' && !IsSpace(tail[0]) ==> ReadCode(blanks + tail) == None
  {
    StrtolSigned(blanks, n, tail);
    if tail != [] && tail[0] != '+' && tail[0] != '-' && !IsSpace(tail[0]) { StrtolNone(blanks, tail); }
  }

  /** The table codes among the tokens, in order, repeats included. */
  function Codes(tokens: seq<string>): (r: seq<int>)
    ensures |r| <= |tokens|
  {
    if tokens == [] then []
    else
      var rest := Codes(tokens[1..]);
      match ReadCode(tokens[0])
      case None => rest
      case Some(code) => if ToInt(code) in NFS4_ERRORS then [ToInt(code)] + rest else rest
  }

  function Clipped(filter: seq<int>): seq<int> {
    if |filter| <= MAX_ERROR_CODES then filter else filter[..MAX_ERROR_CODES]
  }

  /** The option is refused exactly when some token is not a number. The filter
      only ever holds table codes, at most 113 of them, and after an accepted
      option the first 113 table codes listed, counting repeats. */
  lemma {:induction false} ParsedFilter(tokens: seq<string>, filter: seq<int>)
    requires TableOnly(filter)
    ensures ParseTokens(tokens, filter).ok <==> Readable(tokens)
    ensures TableOnly(ParseTokens(tokens, filter).filter)
    ensures Readable(tokens) ==> ParseTokens(tokens, filter).filter == Clipped(filter + Codes(tokens))
  {
    if tokens == [] {
      assert filter + [] == filter;
    } else if ReadCode(tokens[0]).Some? {
      var code := ToInt(ReadCode(tokens[0]).value);
      ReadableTail(tokens);
      ParsedFilter(tokens[1..], Appended(filter, code));
      ClippedAppend(filter, code, Codes(tokens[1..]));
    }
  }

  lemma ClippedAppend(filter: seq<int>, code: int, rest: seq<int>)
    requires |filter| <= MAX_ERROR_CODES
    ensures Clipped(Appended(filter, code) + rest) ==
            Clipped(filter + (if code in NFS4_ERRORS then [code] + rest else rest))
  {
    assert filter + ([code] + rest) == filter + [code] + rest;
  }

  lemma ReadableTail(tokens: seq<string>)
    requires tokens != [] && ReadCode(tokens[0]).Some?
    ensures Readable(tokens) <==> Readable(tokens[1..])
  {
    if Readable(tokens[1..]) {
      forall i | 0 <= i < |tokens| ensures ReadCode(tokens[i]).Some? {
        assert i > 0 ==> tokens[i] == tokens[1..][i - 1];
      }
    }
  }

  lemma {:induction false} CodesAreListed(tokens: seq<string>, code: int)
    requires Readable(tokens)
    ensures code in Codes(tokens) <==>
              code in NFS4_ERRORS && exists i :: 0 <= i < |tokens| && ToInt(ReadCode(tokens[i]).value) == code
  {
    if tokens != [] {
      ReadableTail(tokens);
      CodesAreListed(tokens[1..], code);
      if exists i :: 0 <= i < |tokens| && ToInt(ReadCode(tokens[i]).value) == code {
        var i :| 0 <= i < |tokens| && ToInt(ReadCode(tokens[i]).value) == code;
        assert i > 0 ==> tokens[i] == tokens[1..][i - 1];
      }
    }
  }

  /** The first option is refused exactly when some token is not a number, or none
      is a table code. */
  lemma FirstOptionRefusedIff(tokens: seq<string>)
    ensures !Readable(tokens) || ParseTokens(tokens, []).filter == [] <==> !Readable(tokens) || Codes(tokens) == []
  {
    ParsedFilter(tokens, []);
    assert [] + Codes(tokens) == Codes(tokens);
  }

  /** Every table code listed gets into the filter exactly when no code first
      appears after 113 others, counting repeats. */
  lemma CompleteIffEarly(tokens: seq<string>)
    requires Readable(tokens)
    ensures (forall code :: code in Codes(tokens) ==> code in ParseTokens(tokens, []).filter) <==>
              |Codes(tokens)| <= MAX_ERROR_CODES ||
              forall code :: code in Codes(tokens)[MAX_ERROR_CODES..] ==> code in Codes(tokens)[..MAX_ERROR_CODES]
  {
    var codes := Codes(tokens);
    ParsedFilter(tokens, []);
    assert [] + codes == codes;
    if |codes| > MAX_ERROR_CODES {
      assert codes == codes[..MAX_ERROR_CODES] + codes[MAX_ERROR_CODES..];
    }
  }

  /** Listing one code 113 times crowds out the next. */
  lemma RepeatsCrowdOut(tokens: seq<string>)
    requires tokens == seq(113, _ => "1") + ["2"]
    ensures ParseTokens(tokens, []).ok && 2 !in ParseTokens(tokens, []).filter && 2 in Codes(tokens)
  {
    ReadOneTwo();
    RepeatedCodes(113);
    ParsedFilter(tokens, []);
    assert [] + Codes(tokens) == seq(113, _ => 1) + [2];
  }

  lemma ReadOneTwo()
    ensures ReadCode("1") == Some(1) && ReadCode("2") == Some(2)
  {
    assert DecText(1) == "1" && DecText(2) == "2";
    StrtolText(1, []);
    StrtolText(2, []);
    assert "1" + [] == "1" && "2" + [] == "2";
  }

  lemma {:induction false} RepeatedCodes(n: nat)
    ensures Codes(seq(n, _ => "1") + ["2"]) == seq(n, _ => 1) + [2]
  {
    ReadOneTwo();
    TableMembers(1);
    TableMembers(2);
    if n > 0 {
      RepeatedCodes(n - 1);
      assert (seq(n, _ => "1") + ["2"])[1..] == seq(n - 1, _ => "1") + ["2"];
      assert seq(n, _ => 1) + [2] == [1] + (seq(n - 1, _ => 1) + [2]);
    } else {
      assert seq(0, _ => "1") + ["2"] == ["2"] && Codes([]) == [];
      assert ["2"][1..] == [];
    }
  }

  lemma TableIsSmall(code: int)
    requires code in NFS4_ERRORS
    ensures 0 < code < 0x1_0000
  {
    TableMembers(code);
  }

  lemma LowBitsDecide(code: int)
    requires 0 < code <= LONG_MAX
    ensures ToInt(code) in NFS4_ERRORS <==> code % 0x1_0000_0000 in NFS4_ERRORS
  {
    if ToInt(code) in NFS4_ERRORS { TableIsSmall(ToInt(code)); }
    if code % 0x1_0000_0000 in NFS4_ERRORS { TableIsSmall(code % 0x1_0000_0000); }
  }

  lemma LargeIsUnknown(code: int)
    requires code >= 0x1_0000
    ensures code !in NFS4_ERRORS
  {
    if code in NFS4_ERRORS { TableIsSmall(code); }
  }

  /** A number counts as a table code exactly when its low 32 bits are one, so a
      number from 2^32 on that is none itself may count as one. */
  lemma LargeNumbersAlias(code: int)
    requires 0 < code <= LONG_MAX
    ensures (ToInt(code) in NFS4_ERRORS <==> code in NFS4_ERRORS) <==>
              code < 0x1_0000_0000 || code % 0x1_0000_0000 !in NFS4_ERRORS
  {
    LowBitsDecide(code);
    if code >= 0x1_0000_0000 {
      LargeIsUnknown(code);
    } else {
      assert code % 0x1_0000_0000 == code;
    }
  }

  /** 4294967301 counts as 5. */
  lemma AliasOfFive()
    ensures ToInt(4294967301) == 5 && 5 in NFS4_ERRORS && 4294967301 !in NFS4_ERRORS
  {
    TableMembers(5);
    TableMembers(4294967301);
  }

  // ---------------------------------------------------------------------
  // A list of numbers as the option's text
  // ---------------------------------------------------------------------

  lemma TextReads(n: nat)
    requires 0 < n < 0x8000_0000
    ensures ReadCode(DecText(n)) == Some(n) && ToInt(n) == n
  {
    StrtolText(n, []);
    assert DecText(n) + [] == DecText(n);
  }

  lemma {:induction false} TextCodes(codes: seq<nat>, code: int)
    requires forall i :: 0 <= i < |codes| ==> 0 < codes[i] < 0x8000_0000
    ensures Readable(Texts(codes))
    ensures code in Codes(Texts(codes)) <==> code in NFS4_ERRORS && code in codes
  {
    if codes != [] {
      var tokens := Texts(codes);
      assert tokens[0] == DecText(codes[0]) && tokens[1..] == Texts(codes[1..]);
      TextReads(codes[0]);
      TextCodes(codes[1..], code);
      ReadableTail(tokens);
    }
  }

  lemma ShortFilter(tokens: seq<string>)
    requires Readable(tokens) && |tokens| <= MAX_ERROR_CODES
    ensures ParseTokens(tokens, []) == Parsed(true, Codes(tokens))
  {
    ParsedFilter(tokens, []);
    assert [] + Codes(tokens) == Codes(tokens);
  }

  /** Up to 113 codes written with commas between them are accepted, and the
      filter holds exactly those of them that are in the table. */
  lemma OptionRoundTrip(codes: seq<nat>, code: int)
    requires |codes| <= MAX_ERROR_CODES
    requires forall i :: 0 <= i < |codes| ==> 0 < codes[i] < 0x8000_0000
    ensures var p := ParseTokens(Tokens(CommaList(codes)), []);
            p.ok && (code in p.filter <==> code in NFS4_ERRORS && code in codes)
  {
    ListSplits(codes);
    TextCodes(codes, code);
    ShortFilter(Texts(codes));
  }

  // ---------------------------------------------------------------------
  // Reading the option
  // ---------------------------------------------------------------------

  class ErrFilter {
    const errFilter: array<int>
    var errFilterCount: nat
    var errFilterSet: bool

    ghost predicate Valid()
      reads this, errFilter
    {
      errFilter.Length == MAX_ERROR_CODES && errFilterCount <= MAX_ERROR_CODES && TableOnly(Contents())
    }

    ghost function Contents(): seq<int>
      requires errFilterCount <= errFilter.Length
      reads this, errFilter
    {
      errFilter[..errFilterCount]
    }

    constructor ()
      ensures Valid() && fresh(errFilter) && Contents() == [] && !errFilterSet
    {
      errFilter := new int[MAX_ERROR_CODES];
      errFilterCount, errFilterSet := 0, false;
    }

    method Keep(code: s32)
      requires Valid()
      modifies this`errFilterCount, errFilter
      ensures Valid() && Contents() == Appended(old(Contents()), code)
    {
      var valid := ValidateErrCode(code);
      if valid && errFilterCount < MAX_ERROR_CODES {
        errFilter[errFilterCount] := code;
        errFilterCount := errFilterCount + 1;
      }
    }

    /** A bad token ends the reading; what was read before it stays. */
    method ParseErrList(arg: string) returns (count: int)
      requires Valid()
      modifies this, errFilter
      ensures Valid() && errFilterSet
      ensures Contents() == ParseTokens(Tokens(arg), old(Contents())).filter
      ensures count == if Readable(Tokens(arg)) then |Contents()| else -1
    {
      errFilterSet := true;
      ParsedFilter(Tokens(arg), Contents());
      ghost var goal := ParseTokens(Tokens(arg), Contents());
      var rest := SkipCommas(arg);
      while rest != []
        invariant Valid() && errFilterSet && (rest == [] || rest[0] != ',')
        invariant ParseTokens(Tokens(rest), Contents()) == goal
        decreases |rest|
      {
        var token := FirstToken(rest);
        var tail := rest[|token|..];
        assert Tokens(rest)[0] == token && Tokens(rest)[1..] == Tokens(tail);
        var code := ReadCode(token);
        if code.None? { return -1; }
        Keep(ToInt(code.value));
        TokensSkip(tail);
        rest := SkipCommas(tail);
      }
      count := errFilterCount;
    }

    /** The option as a whole: a refusal ends the program. */
    method ParseErrOption(arg: string) returns (refused: bool)
      requires Valid()
      modifies this, errFilter
      ensures Valid() && errFilterSet
      ensures Contents() == ParseTokens(Tokens(arg), old(Contents())).filter
      ensures refused <==> !Readable(Tokens(arg)) || Contents() == []
    {
      var count := ParseErrList(arg);
      refused := count <= 0;
    }

    /** The map has room for every code, so no update fails. */
    method UpdateAllowlistErrors() returns (ok: bool, allowlist: map<int, byte>)
      requires Valid()
      ensures ok
      ensures allowlist.Keys == if errFilterSet then set code | code in Contents() else {}
    {
      ok, allowlist := true, map[];
      if errFilterSet {
        for i := 0 to errFilterCount
          invariant ok && |allowlist| <= i
          invariant allowlist.Keys == set code | code in errFilter[..i]
        {
          ok := Admits(allowlist, MAX_ERROR_CODES, Any, errFilter[i]);
          if !ok { return; }
          allowlist := Update(allowlist, MAX_ERROR_CODES, Any, errFilter[i], 1);
          assert errFilter[..i + 1] == errFilter[..i] + [errFilter[i]];
        }
      }
    }
  }

  // ---------------------------------------------------------------------
  // The probes
  // ---------------------------------------------------------------------

  /** What the loader hands to the kernel; without an option nothing is filtered. */
  datatype Filters = Filters(errors: Option<set<int>>, cmds: Option<set<u16>>)

  datatype Request = Request(xid: u32, command: u16, pid: u32, comm: seq<byte>)

  /** Negation in a 32-bit int: the most negative number stays as it is. */
  function Negated(status: s32): s32 {
    if status == INT_MIN then INT_MIN else -status
  }

  function ErrorOf(status: s32): s32 { if status < 0 then Negated(status) else status }

  function Bits(v: s32): u32 { v % 0x1_0000_0000 }

  predicate Passes(f: Filters, code: int, command: u16) {
    && (f.errors.Some? ==> code in f.errors.value)
    && (f.cmds.Some? ==> command in f.cmds.value)
  }

  function Shown(code: s32, r: Request, now: u64): AodEvent {
    AodEvent(r.pid, r.command, NFSIOSNOOP, now, r.xid, Retval(Bits(code)), r.comm)
  }

  predicate RpcEmits(f: Filters, status: s32, command: u16) {
    status != 0 && Passes(f, ErrorOf(status), command)
  }

  predicate XdrEmits(f: Filters, error: u64, command: u16) {
    error != 0 && Passes(f, ToInt(error), command)
  }

  /** The event of a status: its magnitude, and for the most negative one the
      number 2^31, as the 32 bits read unsigned. */
  function RpcEvent(status: s32, r: Request, now: u64): AodEvent {
    AodEvent(r.pid, r.command, 11, now, r.xid, Retval(Abs(status)), r.comm)
  }

  /** The event of an error: its low 32 bits. */
  function XdrEvent(error: u64, r: Request, now: u64): AodEvent {
    AodEvent(r.pid, r.command, 11, now, r.xid, Retval(error % 0x1_0000_0000), r.comm)
  }

  class NfsIosnoop {
    const filters: Filters
    var aodrb: seq<AodEvent>

    constructor (filters: Filters)
      ensures this.filters == filters && aodrb == []
    {
      this.filters, aodrb := filters, [];
    }

    /** Runs when a request ends, with its status. */
    method ProbeEntry(status: s32, r: Request, ring: bool, now: u64)
      modifies this
      ensures aodrb == old(aodrb) +
                if ring && RpcEmits(filters, status, r.command) then [Shown(ErrorOf(status), r, now)] else []
      ensures filters == Filters(None, None) ==>
                aodrb == old(aodrb) + if ring && status != 0 then [RpcEvent(status, r, now)] else []
      ensures filters.errors == None && filters.cmds.Some? ==>
                aodrb == old(aodrb) +
                  if ring && status != 0 && r.command in filters.cmds.value then [RpcEvent(status, r, now)] else []
      ensures filters.errors.Some? && filters.cmds == None && status != -0x8000_0000 ==>
                aodrb == old(aodrb) +
                  if ring && status != 0 && Abs(status) in filters.errors.value
                  then [RpcEvent(status, r, now)] else []
    {
      var retval := status;
      if retval == 0 { return; }
      if retval < 0 { retval := Negated(retval); }
      if filters.errors.Some? {
        if retval !in filters.errors.value { return; }
      }
      if filters.cmds.Some? {
        if r.command !in filters.cmds.value { return; }
      }
      if !ring { return; }
      aodrb := aodrb + [AodEvent(r.pid, r.command, NFSIOSNOOP, now, r.xid, Retval(Bits(retval)), r.comm)];
    }

    /** Runs when a reply is decoded, with its error number as a long; the lookup
        and the event take its low 32 bits. */
    method EmitXdrStatus(error: u64, r: Request, ring: bool, now: u64)
      modifies this
      ensures aodrb == old(aodrb) +
                if ring && XdrEmits(filters, error, r.command) then [Shown(ToInt(error), r, now)] else []
      ensures filters == Filters(None, None) ==>
                aodrb == old(aodrb) + if ring && error != 0 then [XdrEvent(error, r, now)] else []
      ensures filters.errors == None && filters.cmds.Some? ==>
                aodrb == old(aodrb) +
                  if ring && error != 0 && r.command in filters.cmds.value then [XdrEvent(error, r, now)] else []
      ensures filters.errors.Some? && filters.cmds == None && error < 0x8000_0000 ==>
                aodrb == old(aodrb) +
                  if ring && error != 0 && error in filters.errors.value then [XdrEvent(error, r, now)] else []
    {
      if error == 0 { return; }
      if filters.errors.Some? && ToInt(error) !in filters.errors.value { return; }
      if filters.cmds.Some? && r.command !in filters.cmds.value { return; }
      if !ring { return; }
      aodrb := aodrb + [AodEvent(r.pid, r.command, NFSIOSNOOP, now, r.xid, Retval(Bits(ToInt(error))), r.comm)];
    }
  }

  /** The filters after the option with this text and no command option. */
  function FilterFrom(arg: string): Filters {
    Filters(Some(set code | code in ParseTokens(Tokens(arg), []).filter), None)
  }

  function Abs(x: int): nat { if x < 0 then -x else x }

  /** With the option accepted and no command filter, a request is reported
      exactly when the absolute value of its status is among the first 113 table
      codes listed. The most negative status, whose absolute value is no int,
      never is reported. */
  lemma ReportedIffListed(arg: string, status: s32, command: u16)
    requires Readable(Tokens(arg))
    ensures RpcEmits(FilterFrom(arg), status, command) <==>
              status != INT_MIN && Abs(status) in Clipped(Codes(Tokens(arg)))
  {
    var e := ErrorOf(status);
    ParsedFilter(Tokens(arg), []);
    assert [] + Codes(Tokens(arg)) == Codes(Tokens(arg));
    PassesAlone(arg, e, command);
    if e in ParseTokens(Tokens(arg), []).filter { TableIsSmall(e); }
    if Abs(status) in Clipped(Codes(Tokens(arg))) { TableIsSmall(Abs(status)); }
  }

  /** From numbers written on the command line to the ring: up to 113 of them,
      and exactly those requests are reported whose status is, up to sign, one of
      the numbers and a known NFS error. */
  lemma ReportedIffAsked(codes: seq<nat>, status: s32, command: u16)
    requires |codes| <= MAX_ERROR_CODES
    requires forall i :: 0 <= i < |codes| ==> 0 < codes[i] < 0x8000_0000
    ensures RpcEmits(FilterFrom(CommaList(codes)), status, command) <==>
              status != INT_MIN && Abs(status) in codes && NfsError(Abs(status))
  {
    var e := ErrorOf(status);
    OptionRoundTrip(codes, e);
    PassesAlone(CommaList(codes), e, command);
    TableMembers(e);
    if e in NFS4_ERRORS { TableIsSmall(e); }
    assert status != INT_MIN ==> e == Abs(status);
  }

  lemma PassesAlone(arg: string, e: int, command: u16)
    ensures Passes(FilterFrom(arg), e, command) <==> e in ParseTokens(Tokens(arg), []).filter
  {}

  /** The consumer reads what the event of a status or of an error is about. */
  lemma ConsumerReadsNfsError(stale: seq<byte>, status: s32, error: u64, r: Request, now: u64)
    requires |r.comm| == TASK_COMM_LEN && |stale| == EVENT_SIZE
    ensures var d := Decode(Encode(stale, RpcEvent(status, r, now)));
            d.reading == Error(Abs(status)) && d.command == r.command && d.rqstId == r.xid && d.task == TaskName(r.comm)
            && (d.pid == r.pid <==> r.pid < 0x8000_0000)
    ensures var d := Decode(Encode(stale, XdrEvent(error, r, now)));
            d.reading == Error(error % 0x1_0000_0000) && d.command == r.command && d.rqstId == r.xid
            && d.task == TaskName(r.comm) && (d.pid == r.pid <==> r.pid < 0x8000_0000)
  {
    ConsumerRecoversEvent(stale, RpcEvent(status, r, now));
    ConsumerRecoversEvent(stale, XdrEvent(error, r, now));
  }

  /** Whatever the filter, both probes report a failed request alike: the status
      -e at the end of the request, the error e in the reply. The consumer reads
      e from either. */
  lemma ProbesAgree(f: Filters, stale: seq<byte>, e: s32, r: Request, now: u64)
    requires e > 0 && |r.comm| == TASK_COMM_LEN && |stale| == EVENT_SIZE
    ensures RpcEmits(f, -e, r.command) <==> XdrEmits(f, e, r.command)
    ensures Shown(ErrorOf(-e), r, now) == Shown(ToInt(e), r, now)
    ensures Decode(Encode(stale, Shown(ErrorOf(-e), r, now))).reading == Error(e)
  {
    assert ErrorOf(-e) == e == ToInt(e);
    ConsumerReadsNfsError(stale, -e, e, r, now);
  }

  /** With a filter of table codes, a status or error whose 32 bits read as zero
      or as a negative number is never reported. */
  lemma OnlyTableCodesReported(f: Filters, error: u64, command: u16)
    requires f.errors.Some? && forall code :: code in f.errors.value ==> code in NFS4_ERRORS
    ensures XdrEmits(f, error, command) ==> NfsError(error % 0x1_0000_0000)
    ensures !RpcEmits(f, INT_MIN, command)
  {
    TableMembers(ToInt(error));
    TableMembers(INT_MIN);
  }
}

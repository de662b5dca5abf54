/** smbslower's command filter, from the option's text to the deny list. */
module SmbFilter {
  import opened Decimal
  import opened CommaLists

  const MAX_SMB_COMMANDS: nat := 20

  // ---------------------------------------------------------------------
  // Tokens as numbers
  // ---------------------------------------------------------------------

  function Clamped(v: int): int {
    if v > LONG_MAX then LONG_MAX else if v < LONG_MIN then LONG_MIN else v
  }

  /** The C library's atoi: strtol, which clamps to a long, cut to an int; a text
      that starts with no number is 0, and what follows the number is ignored. */
  function Atoi(s: string): s32 {
    match Strtol(s)
    case NoNumber => 0
    case Number(v, _) => ToInt(Clamped(v))
  }

  /** A token means the number it starts with exactly when that fits an int. */
  lemma AtoiExact(s: string)
    ensures match Strtol(s)
            case NoNumber => Atoi(s) == 0
            case Number(v, _) => Atoi(s) == v <==> -0x8000_0000 <= v < 0x8000_0000
  {}

  predicate Command(c: int) { 0 <= c < MAX_SMB_COMMANDS }

  /** The commands are those numbered 0 to 19. */
  lemma CommandNumbers(c: int)
    ensures Command(c) <==> 0 <= c <= 19
  {}

  /** A token names a command exactly when it starts with no number, which names
      command 0, or with one that names it by its low 32 bits after clamping.
      Numbers below the least long name command 0, too. */
  lemma TokenNamesCommand(s: string, c: int)
    requires Command(c)
    ensures Atoi(s) == c <==>
              match Strtol(s)
              case NoNumber => c == 0
              case Number(v, _) => if v > LONG_MAX then false
                                   else if v < LONG_MIN then c == 0
                                   else v % 0x1_0000_0000 == c
  {}

  function Numbers(tokens: seq<string>): (r: seq<int>)
    ensures |r| == |tokens| && forall i :: 0 <= i < |tokens| ==> r[i] == Atoi(tokens[i])
  {
    seq(|tokens|, i requires 0 <= i < |tokens| => Atoi(tokens[i]))
  }

  // ---------------------------------------------------------------------
  // What a list takes
  // ---------------------------------------------------------------------

  /** The first `room` commands among the numbers, repeats included. */
  function Taken(nums: seq<int>, room: nat): (r: seq<int>)
    ensures |r| <= room && |r| <= |nums|
    ensures forall i :: 0 <= i < |r| ==> Command(r[i])
    decreases |nums|
  {
    if nums == [] || room == 0 then []
    else if Command(nums[0]) then [nums[0]] + Taken(nums[1..], room - 1)
    else Taken(nums[1..], room)
  }

  function CommandsIn(nums: seq<int>): nat {
    if nums == [] then 0 else CommandsIn(nums[..|nums| - 1]) + if Command(nums[|nums| - 1]) then 1 else 0
  }

  lemma {:induction false} CommandsInTail(nums: seq<int>)
    requires nums != []
    ensures CommandsIn(nums) == CommandsIn(nums[1..]) + if Command(nums[0]) then 1 else 0
  {
    var init := nums[..|nums| - 1];
    if init != [] {
      CommandsInTail(init);
      assert nums[1..][..|nums| - 2] == init[1..];
    } else {
      assert nums[1..] == [];
    }
  }

  /** A command is taken exactly when it is listed with fewer than `room` commands
      before it. */
  lemma {:induction false} TakenIff(nums: seq<int>, room: nat, c: int)
    requires Command(c)
    ensures c in Taken(nums, room) <==> exists i :: ListedWithin(nums, room, c, i)
    decreases |nums|
  {
    if nums != [] && room > 0 {
      var rest := if Command(nums[0]) then room - 1 else room;
      TakenIff(nums[1..], rest, c);
      if i :| ListedWithin(nums[1..], rest, c, i) {
        WithinTail(nums, room, c, i + 1);
        assert ListedWithin(nums, room, c, i + 1);
      }
      if i :| ListedWithin(nums, room, c, i) {
        if i > 0 {
          WithinTail(nums, room, c, i);
          assert ListedWithin(nums[1..], rest, c, i - 1);
        }
      }
      if nums[0] == c {
        assert nums[..0] == [];
        assert ListedWithin(nums, room, c, 0);
      }
    }
  }

  predicate ListedWithin(nums: seq<int>, room: nat, c: int, i: int) {
    0 <= i < |nums| && nums[i] == c && CommandsIn(nums[..i]) < room
  }

  lemma WithinTail(nums: seq<int>, room: nat, c: int, i: int)
    requires 0 < i < |nums| && room > 0
    ensures ListedWithin(nums, room, c, i) <==>
              ListedWithin(nums[1..], if Command(nums[0]) then room - 1 else room, c, i - 1)
  {
    CommandsInTail(nums[..i]);
    assert nums[..i][1..] == nums[1..][..i - 1];
  }

  lemma {:induction false} ManyCommands(nums: seq<int>)
    ensures CommandsIn(nums) <= |nums|
  {
    if nums != [] { ManyCommands(nums[..|nums| - 1]); }
  }

  /** Up to `room` tokens, no command listed is left out. */
  lemma ShortListIsComplete(nums: seq<int>, room: nat, c: int)
    requires |nums| <= room && Command(c)
    ensures c in Taken(nums, room) <==> c in nums
  {
    TakenIff(nums, room, c);
    if c in nums {
      var i :| 0 <= i < |nums| && nums[i] == c;
      ManyCommands(nums[..i]);
      assert ListedWithin(nums, room, c, i);
    }
  }

  /** Numbers written with commas between them: exactly the commands among them
      are taken. */
  lemma OptionRoundTrip(codes: seq<nat>, room: nat, c: int)
    requires |codes| <= room && Command(c)
    requires forall i :: 0 <= i < |codes| ==> codes[i] < 0x8000_0000
    ensures c in Taken(Numbers(Tokens(CommaList(codes))), room) <==> c in codes
  {
    var nums := Numbers(Tokens(CommaList(codes)));
    ListSplits(codes);
    forall i | 0 <= i < |codes|
      ensures nums[i] == codes[i]
    {
      StrtolText(codes[i], []);
      assert Texts(codes)[i] + [] == Texts(codes)[i];
    }
    ShortListIsComplete(nums, room, c);
  }

  /** A list of one word that is no number takes command 0. */
  lemma WordTakesCommandZero(word: string)
    requires word != [] && ',' !in word && Strtol(word) == NoNumber
    ensures Taken(Numbers(Tokens(word)), MAX_SMB_COMMANDS) == [0]
  {
    assert word + [] == word;
    FirstTokenIs(word, []);
    TokensOf(word, []);
    assert Tokens(word) == [word] && Numbers([word]) == [0];
    assert Taken([0][1..], MAX_SMB_COMMANDS - 1) == [];
  }

  lemma NothingLeft(rest: string, room: nat)
    requires rest == [] || room == 0
    ensures Taken(Numbers(Tokens(rest)), room) == []
  {}

  /** The text from the next token on. */
  function NextToken(rest: string): (next: string)
    ensures next == [] || next[0] != ','
    ensures rest != [] && rest[0] != ',' ==> |next| < |rest|
  {
    assert rest != [] && rest[0] != ',' ==> FirstToken(rest) != [];
    SkipCommas(rest[|FirstToken(rest)|..])
  }

  /** What the first token adds. */
  lemma TakenStep(rest: string, room: nat)
    requires rest != [] && rest[0] != ',' && room > 0
    ensures var token, next := FirstToken(rest), Numbers(Tokens(NextToken(rest)));
            Taken(Numbers(Tokens(rest)), room) ==
              if Command(Atoi(token)) then [Atoi(token)] + Taken(next, room - 1) else Taken(next, room)
  {
    var token, tail := FirstToken(rest), rest[|FirstToken(rest)|..];
    TokensSkip(tail);
    assert Tokens(rest) == [token] + Tokens(tail);
    assert Numbers(Tokens(rest))[1..] == Numbers(Tokens(tail));
  }

  /** `done` was taken from what came before rest. */
  ghost predicate Parsing(arg: string, maxCmds: nat, rest: string, done: seq<int>) {
    && |done| <= maxCmds && (rest == [] || rest[0] != ',')
    && Taken(Numbers(Tokens(arg)), maxCmds) == done + Taken(Numbers(Tokens(rest)), maxCmds - |done|)
  }

  lemma ParsingStart(arg: string, maxCmds: nat)
    ensures Parsing(arg, maxCmds, SkipCommas(arg), [])
  {
    TokensSkip(arg);
  }

  lemma MoveOver(all: seq<int>, done: seq<int>, todo: seq<int>, cmd: int, left: seq<int>)
    requires all == done + todo && todo == [cmd] + left
    ensures all == (done + [cmd]) + left
  {}

  lemma TakenCommand(rest: string, room: nat)
    requires rest != [] && rest[0] != ',' && room > 0 && Command(Atoi(FirstToken(rest)))
    ensures Taken(Numbers(Tokens(rest)), room) == [Atoi(FirstToken(rest))] + Taken(Numbers(Tokens(NextToken(rest))), room - 1)
  {
    TakenStep(rest, room);
  }

  lemma CommandTaken(arg: string, maxCmds: nat, rest: string, done: seq<int>)
    requires Parsing(arg, maxCmds, rest, done) && rest != [] && |done| < maxCmds && Command(Atoi(FirstToken(rest)))
    ensures Parsing(arg, maxCmds, NextToken(rest), done + [Atoi(FirstToken(rest))])
  {
    var room, cmd := maxCmds - |done|, Atoi(FirstToken(rest));
    var left := Taken(Numbers(Tokens(NextToken(rest))), room - 1);
    TakenCommand(rest, room);
    MoveOver(Taken(Numbers(Tokens(arg)), maxCmds), done, Taken(Numbers(Tokens(rest)), room), cmd, left);
    assert maxCmds - |done + [cmd]| == room - 1;
  }

  lemma OtherSkipped(arg: string, maxCmds: nat, rest: string, done: seq<int>)
    requires Parsing(arg, maxCmds, rest, done) && rest != [] && |done| < maxCmds && !Command(Atoi(FirstToken(rest)))
    ensures Parsing(arg, maxCmds, NextToken(rest), done)
  {
    TakenStep(rest, maxCmds - |done|);
  }

  lemma ParsingDone(arg: string, maxCmds: nat, rest: string, done: seq<int>)
    requires Parsing(arg, maxCmds, rest, done) && (rest == [] || |done| == maxCmds)
    ensures Taken(Numbers(Tokens(arg)), maxCmds) == done
  {
    NothingLeft(rest, maxCmds - |done|);
    assert done + [] == done;
  }

  // ---------------------------------------------------------------------
  // The filter
  // ---------------------------------------------------------------------

  class CmdFilter {
    var includeMode: bool
    var excludeMode: bool
    const cmdFilter: array<bool>

    constructor ()
      ensures !includeMode && !excludeMode && fresh(cmdFilter) && cmdFilter.Length == MAX_SMB_COMMANDS
      ensures forall c :: 0 <= c < MAX_SMB_COMMANDS ==> !cmdFilter[c]
    {
      includeMode, excludeMode := false, false;
      cmdFilter := new bool[MAX_SMB_COMMANDS](_ => false);
    }

    /** The number of commands taken, and their marks beside those there before. */
    method ParseCmdList(arg: string, maxCmds: nat) returns (count: nat)
      requires cmdFilter.Length == MAX_SMB_COMMANDS
      modifies cmdFilter
      ensures count == |Taken(Numbers(Tokens(arg)), maxCmds)| <= maxCmds
      ensures forall c :: 0 <= c < MAX_SMB_COMMANDS ==>
                (cmdFilter[c] <==> old(cmdFilter[c]) || c in Taken(Numbers(Tokens(arg)), maxCmds))
    {
      count := 0;
      ghost var done: seq<int> := [];
      var rest := SkipCommas(arg);
      ParsingStart(arg, maxCmds);
      while rest != [] && count < maxCmds
        invariant count == |done| && Parsing(arg, maxCmds, rest, done)
        invariant forall c :: 0 <= c < MAX_SMB_COMMANDS ==> (cmdFilter[c] <==> old(cmdFilter[c]) || c in done)
        decreases |rest|
      {
        var cmd := Atoi(FirstToken(rest));
        if 0 <= cmd < MAX_SMB_COMMANDS {
          CommandTaken(arg, maxCmds, rest, done);
          cmdFilter[cmd] := true;
          count := count + 1;
          done := done + [cmd];
        } else {
          OtherSkipped(arg, maxCmds, rest, done);
        }
        rest := NextToken(rest);
      }
      ParsingDone(arg, maxCmds, rest, done);
    }

    /** A command is denied when it is excluded or when an include list leaves it
        out; commands from 20 on are never denied. */
    method UpdateDenylistMap() returns (denylist: set<int>)
      requires cmdFilter.Length == MAX_SMB_COMMANDS
      ensures forall c :: c in denylist <==>
                0 <= c < MAX_SMB_COMMANDS && (if excludeMode && cmdFilter[c] then true else includeMode && !cmdFilter[c])
      ensures |denylist| <= MAX_SMB_COMMANDS
    {
      denylist := {};
      for cmd := 0 to MAX_SMB_COMMANDS
        invariant |denylist| <= cmd
        invariant forall c :: c in denylist <==>
          0 <= c < cmd && (if excludeMode && cmdFilter[c] then true else includeMode && !cmdFilter[c])
      {
        var deny := false;
        if excludeMode && cmdFilter[cmd] {
          deny := true;
        } else if includeMode && !cmdFilter[cmd] {
          deny := true;
        }
        if deny { denylist := denylist + {cmd}; }
      }
    }
  }
}

/** nfsslower's map with the memory behind it: a record sits in a slot, a removal
    frees the slot, and the exit probe reads the command from the slot afterwards. */
module NfsSlots {
  import opened BpfMap
  import opened Tracker
  import opened TrackerRuns
  import opened EventCodec
  import opened SlowerBpf

  /** An exit that meets a record looks at the clock and removes the record in one
      step, and reads the command and fills the event in a later one. */
  datatype SlotStep =
    | Enter(rpc: Pointer, command: u16, pass: bool, slot: nat, now: u64)
    | Take(rpc: Pointer, task: Finisher, ring: bool, now: u64)
    | Read(of: nat)

  /** Which slot each key's record is in, and what the slots hold, freed or not. */
  datatype Temp = Temp(at: map<Pointer, nat>, mem: map<nat, Rec<u16>>)

  predicate Accepts(s: Temp, a: SlotStep) {
    a.Enter? && a.pass && Admits(s.at, TEMP_ENTRIES, NoExist, a.rpc)
  }

  function SlotNext(s: Temp, a: SlotStep): Temp {
    match a
    case Enter(rpc, command, _, slot, now) =>
      if Accepts(s, a) then Temp(s.at[rpc := slot], s.mem[slot := Rec(command, now)]) else s
    case Take(rpc, _, _, _) => s.(at := Delete(s.at, rpc))
    case Read(_) => s
  }

  function SlotRun(tr: seq<SlotStep>, n: nat): Temp
    requires n <= |tr|
  {
    if n == 0 then Temp(map[], map[]) else SlotNext(SlotRun(tr, n - 1), tr[n - 1])
  }

  ghost predicate Accepted(tr: seq<SlotStep>, n: int) {
    0 <= n < |tr| && Accepts(SlotRun(tr, n), tr[n])
  }

  /** An accepted entry is given a slot that is not in use. */
  ghost predicate FreshSlots(tr: seq<SlotStep>) {
    forall n :: Accepted(tr, n) ==> FreshAt(tr, n)
  }

  ghost predicate FreshAt(tr: seq<SlotStep>, n: nat)
    requires Accepted(tr, n)
  {
    tr[n].slot !in SlotRun(tr, n).at.Values
  }

  // ---------------------------------------------------------------------
  // The map behind the slots
  // ---------------------------------------------------------------------

  /** No two keys share a slot, and every slot in use holds a record. */
  ghost predicate Sound(s: Temp) {
    OneToOne(s.at) && forall k :: k in s.at ==> s.at[k] in s.mem
  }

  /** The map from keys to records that the slots stand for. */
  ghost function Deref(s: Temp): map<Pointer, Rec<u16>>
    requires Sound(s)
  {
    map k | k in s.at :: s.mem[s.at[k]]
  }

  /** The same step on the tracker; reading the command does nothing to it. */
  function StepOf(a: SlotStep): Step<Pointer, u16, Finisher> {
    match a
    case Enter(rpc, command, pass, _, now) => Start(rpc, command, pass, now)
    case Take(rpc, task, ring, now) => Finish(rpc, task, ring, now)
    case Read(_) => Start(0, 0, false, 0)
  }

  ghost function StepsOf(tr: seq<SlotStep>): (steps: seq<Step<Pointer, u16, Finisher>>)
    ensures |steps| == |tr| && forall i :: 0 <= i < |tr| ==> steps[i] == StepOf(tr[i])
  {
    seq(|tr|, i requires 0 <= i < |tr| => StepOf(tr[i]))
  }

  lemma EnterRefines(s: Temp, rpc: Pointer, slot: nat, rec: Rec<u16>)
    requires Sound(s) && rpc !in s.at && slot !in s.at.Values
    ensures var n := Temp(s.at[rpc := slot], s.mem[slot := rec]); Sound(n) && Deref(n) == Deref(s)[rpc := rec]
  {
    assert forall k :: k in s.at ==> s.at[k] != slot;
  }

  lemma TakeRefines(s: Temp, rpc: Pointer)
    requires Sound(s)
    ensures var n := s.(at := Delete(s.at, rpc)); Sound(n) && Deref(n) == Delete(Deref(s), rpc)
  {
    var at := Delete(s.at, rpc);
    StaysOneToOne(s.at, rpc);
    forall k | k in at
      ensures at[k] in s.mem
    {
      assert k in s.at && at[k] == s.at[k];
    }
    SameDeref(s, s.(at := at), rpc);
  }

  lemma StaysOneToOne<K, L>(b: map<K, L>, k: K)
    requires OneToOne(b)
    ensures OneToOne(Delete(b, k))
  {
    var d := Delete(b, k);
    forall x, y | x in d && y in d && d[x] == d[y]
      ensures x == y
    {
      assert x in b && y in b && b[x] == d[x] && b[y] == d[y];
    }
  }

  lemma SameDeref(s: Temp, n: Temp, rpc: Pointer)
    requires Sound(s) && Sound(n) && n == s.(at := Delete(s.at, rpc))
    ensures Deref(n) == Delete(Deref(s), rpc)
  {
    var a, b := Deref(n), Delete(Deref(s), rpc);
    forall k
      ensures k in a <==> k in b
      ensures k in a ==> a[k] == b[k]
    {
      assert k in n.at <==> k in s.at && k != rpc;
    }
  }

  /** A step with a slot not in use is the tracker's step on the map. */
  lemma SlotStepRefines(minLatNs: u64, s: Temp, t: State<Pointer, u16, Finisher>, a: SlotStep)
    requires Sound(s) && t.pending == Deref(s) && (Accepts(s, a) ==> a.slot !in s.at.Values)
    ensures Sound(SlotNext(s, a)) && Next(PointerConfig(minLatNs), t, StepOf(a)).pending == Deref(SlotNext(s, a))
  {
    assert s.at.Keys == t.pending.Keys;
    assert |s.at| == |s.at.Keys| && |t.pending.Keys| == |t.pending|;
    match a {
      case Enter(rpc, command, _, slot, now) =>
        if Accepts(s, a) { EnterRefines(s, rpc, slot, Rec(command, now)); }
      case Take(rpc, _, _, _) =>
        TakeRefines(s, rpc);
        if rpc !in t.pending { DeleteAbsent(t.pending, rpc); }
      case Read(_) =>
    }
  }

  ghost predicate Refines(minLatNs: u64, tr: seq<SlotStep>, n: nat)
    requires n <= |tr|
  {
    && Sound(SlotRun(tr, n))
    && Run(PointerConfig(minLatNs), StepsOf(tr), n).pending == Deref(SlotRun(tr, n))
  }

  lemma RefinesStep(minLatNs: u64, tr: seq<SlotStep>, n: nat)
    requires n < |tr| && FreshSlots(tr) && Refines(minLatNs, tr, n)
    ensures Refines(minLatNs, tr, n + 1)
  {
    assert Accepts(SlotRun(tr, n), tr[n]) ==> Accepted(tr, n) && FreshAt(tr, n);
    SlotStepRefines(minLatNs, SlotRun(tr, n), Run(PointerConfig(minLatNs), StepsOf(tr), n), tr[n]);
  }

  /** In every run the slots in use hold what the tracker's map holds. */
  lemma SlotsRefineTracker(minLatNs: u64, tr: seq<SlotStep>, n: nat)
    requires n <= |tr| && FreshSlots(tr)
    ensures Refines(minLatNs, tr, n)
  {
    for i := 0 to n
      invariant Refines(minLatNs, tr, i)
    {
      RefinesStep(minLatNs, tr, i);
    }
  }

  // ---------------------------------------------------------------------
  // What a freed slot holds
  // ---------------------------------------------------------------------

  /** Entry m is given this slot. */
  ghost predicate Takes(tr: seq<SlotStep>, m: int, slot: nat) { Accepted(tr, m) && tr[m].slot == slot }

  ghost predicate Retaken(tr: seq<SlotStep>, lo: int, hi: int, slot: nat) {
    exists m :: lo <= m < hi && Takes(tr, m, slot)
  }

  ghost predicate LastTaker(tr: seq<SlotStep>, lo: int, hi: int, slot: nat, m: int) {
    lo <= m < hi && Takes(tr, m, slot) && !Retaken(tr, m + 1, hi, slot)
  }

  ghost predicate Unchanged(tr: seq<SlotStep>, lo: nat, hi: nat, slot: nat)
    requires lo <= hi <= |tr|
  {
    var a, b := SlotRun(tr, lo).mem, SlotRun(tr, hi).mem;
    (slot in a <==> slot in b) && (slot in a ==> b[slot] == a[slot])
  }

  lemma UnchangedStep(tr: seq<SlotStep>, lo: nat, n: nat, slot: nat)
    requires lo <= n < |tr| && Unchanged(tr, lo, n, slot) && !Takes(tr, n, slot)
    ensures Unchanged(tr, lo, n + 1, slot)
  {}

  /** A slot keeps its content until it is taken again. */
  lemma KeepsContent(tr: seq<SlotStep>, lo: nat, hi: nat, slot: nat)
    requires lo <= hi <= |tr| && !Retaken(tr, lo, hi, slot)
    ensures Unchanged(tr, lo, hi, slot)
  {
    for i := lo to hi
      invariant Unchanged(tr, lo, i, slot)
    {
      UnchangedStep(tr, lo, i, slot);
    }
  }

  /** And then holds what the last taker wrote. */
  lemma HoldsLastTakers(tr: seq<SlotStep>, lo: nat, hi: nat, slot: nat, m: nat)
    requires hi <= |tr| && LastTaker(tr, lo, hi, slot, m)
    ensures slot in SlotRun(tr, hi).mem && SlotRun(tr, hi).mem[slot] == Rec(tr[m].command, tr[m].now)
  {
    TakerWrites(tr, m);
    KeepsContent(tr, m + 1, hi, slot);
  }

  lemma TakerWrites(tr: seq<SlotStep>, m: nat)
    requires Accepted(tr, m)
    ensures tr[m].slot in SlotRun(tr, m + 1).mem
    ensures SlotRun(tr, m + 1).mem[tr[m].slot] == Rec(tr[m].command, tr[m].now)
  {}

  lemma HasLastTaker(tr: seq<SlotStep>, lo: nat, hi: nat, slot: nat) returns (m: nat)
    requires hi <= |tr| && Retaken(tr, lo, hi, slot)
    ensures LastTaker(tr, lo, hi, slot, m)
  {
    m :| lo <= m < hi && Takes(tr, m, slot);
    var n := m + 1;
    while n < hi
      invariant lo <= m < n <= hi && Takes(tr, m, slot) && !Retaken(tr, m + 1, n, slot)
    {
      if Takes(tr, n, slot) { m := n; }
      n := n + 1;
    }
  }

  // ---------------------------------------------------------------------
  // What an exit reports
  // ---------------------------------------------------------------------

  /** Step r reads for exit j, which took its record from this slot. */
  ghost predicate ReadsFor(tr: seq<SlotStep>, r: int, j: int, slot: nat) {
    && 0 <= j < r < |tr| && tr[r] == Read(j) && tr[j].Take?
    && tr[j].rpc in SlotRun(tr, j).at && SlotRun(tr, j).at[tr[j].rpc] == slot
  }

  /** The slot was not taken again before the read, or last for this command. */
  ghost predicate StillNames(tr: seq<SlotStep>, j: int, r: int, slot: nat, command: u16) {
    !Retaken(tr, j + 1, r, slot) || exists m :: LastTaker(tr, j + 1, r, slot, m) && tr[m].command == command
  }

  lemma SourceInSlot(minLatNs: u64, tr: seq<SlotStep>, i: int, j: nat, slot: nat)
    requires FreshSlots(tr) && j < |tr| && tr[j].Take?
    requires tr[j].rpc in SlotRun(tr, j).at && SlotRun(tr, j).at[tr[j].rpc] == slot
    requires Source(PointerConfig(minLatNs), StepsOf(tr), i, j, tr[j].rpc)
    ensures tr[i].Enter? && slot in SlotRun(tr, j).mem && slot in SlotRun(tr, j + 1).mem
    ensures SlotRun(tr, j).mem[slot] == SlotRun(tr, j + 1).mem[slot] == Rec(tr[i].command, tr[i].now)
  {
    SlotsRefineTracker(minLatNs, tr, j);
    PendingIsSource(PointerConfig(minLatNs), StepsOf(tr), j, tr[j].rpc);
    assert StepsOf(tr)[i] == StepOf(tr[i]);
  }

  lemma RetakenReads(tr: seq<SlotStep>, lo: nat, r: nat, slot: nat, command: u16)
    requires r <= |tr| && Retaken(tr, lo, r, slot)
    ensures slot in SlotRun(tr, r).mem
    ensures SlotRun(tr, r).mem[slot].data == command <==>
              exists m :: LastTaker(tr, lo, r, slot, m) && tr[m].command == command
  {
    var m := HasLastTaker(tr, lo, r, slot);
    HoldsLastTakers(tr, lo, r, slot, m);
    LastTakerDecides(tr, lo, r, slot, m, command);
  }

  lemma SlotReads(tr: seq<SlotStep>, j: nat, r: nat, slot: nat, command: u16)
    requires j < r <= |tr| && slot in SlotRun(tr, j + 1).mem && SlotRun(tr, j + 1).mem[slot].data == command
    ensures slot in SlotRun(tr, r).mem
    ensures SlotRun(tr, r).mem[slot].data == command <==> StillNames(tr, j, r, slot, command)
  {
    if Retaken(tr, j + 1, r, slot) {
      RetakenReads(tr, j + 1, r, slot, command);
    } else {
      KeepsContent(tr, j + 1, r, slot);
    }
  }

  /** In every run, whatever enters between an exit's removal and its read: the
      command read is that of the start the exit answers exactly when the freed
      slot was not given to another entry by then, or last to one with the same
      command. */
  lemma ReadsOwnCommandIff(minLatNs: u64, tr: seq<SlotStep>, i: int, j: nat, r: nat, slot: nat)
    requires FreshSlots(tr) && ReadsFor(tr, r, j, slot)
    requires Source(PointerConfig(minLatNs), StepsOf(tr), i, j, tr[j].rpc)
    ensures tr[i].Enter? && slot in SlotRun(tr, r).mem
    ensures SlotRun(tr, r).mem[slot].data == tr[i].command <==> StillNames(tr, j, r, slot, tr[i].command)
  {
    SourceInSlot(minLatNs, tr, i, j, slot);
    SlotReads(tr, j, r, slot, tr[i].command);
  }

  lemma LastTakerDecides(tr: seq<SlotStep>, lo: nat, hi: nat, slot: nat, m: int, command: u16)
    requires LastTaker(tr, lo, hi, slot, m)
    ensures (exists x :: LastTaker(tr, lo, hi, slot, x) && tr[x].command == command) <==> tr[m].command == command
  {
    if x :| LastTaker(tr, lo, hi, slot, x) && tr[x].command == command {
      assert x < m ==> Retaken(tr, x + 1, hi, slot);
      assert m < x ==> Retaken(tr, m + 1, hi, slot);
    }
  }

  /** The event filled at step r for exit j. */
  ghost function ReadEvent(minLatNs: u64, tr: seq<SlotStep>, r: nat, j: nat, slot: nat): seq<Event<u16, Finisher>>
    requires ReadsFor(tr, r, j, slot) && slot in SlotRun(tr, r).mem && slot in SlotRun(tr, j).mem
  {
    Report(PointerConfig(minLatNs), Rec(SlotRun(tr, r).mem[slot].data, SlotRun(tr, j).mem[slot].ts),
           tr[j].task, tr[j].ring, tr[j].now)
  }

  /** So the exit reports what the tracker's completion reports exactly when that
      is so, or no event is due. */
  lemma ReportsLikeTrackerIff(minLatNs: u64, tr: seq<SlotStep>, i: int, j: nat, r: nat, slot: nat)
    requires FreshSlots(tr) && ReadsFor(tr, r, j, slot)
    requires Source(PointerConfig(minLatNs), StepsOf(tr), i, j, tr[j].rpc)
    ensures tr[i].Enter? && slot in SlotRun(tr, r).mem && slot in SlotRun(tr, j).mem
    ensures Run(PointerConfig(minLatNs), StepsOf(tr), j + 1).out
         == Run(PointerConfig(minLatNs), StepsOf(tr), j).out + ReadEvent(minLatNs, tr, r, j, slot)
       <==> StillNames(tr, j, r, slot, tr[i].command) || !tr[j].ring || Sub64(tr[j].now, tr[i].now) < minLatNs
  {
    var c, steps := PointerConfig(minLatNs), StepsOf(tr);
    SourceInSlot(minLatNs, tr, i, j, slot);
    SlotsRefineTracker(minLatNs, tr, j);
    ReadsOwnCommandIff(minLatNs, tr, i, j, r, slot);
    PendingIsSource(c, steps, j, tr[j].rpc);
    assert steps[j] == StepOf(tr[j]);
    var own := Report(c, Rec(tr[i].command, tr[i].now), tr[j].task, tr[j].ring, tr[j].now);
    assert Run(c, steps, j + 1).out == Run(c, steps, j).out + own;
    SameTail(Run(c, steps, j).out, own, ReadEvent(minLatNs, tr, r, j, slot));
  }

  lemma SameTail<T>(s: seq<T>, a: seq<T>, b: seq<T>)
    ensures s + a == s + b <==> a == b
  {
    if s + a == s + b { assert a == (s + a)[|s|..] == (s + b)[|s|..] == b; }
  }

  /** A run where the next request is given the freed slot before the read: the
      event names the next request's command. */
  lemma FreedSlotIsReused(first: u16, second: u16, task: Finisher)
    ensures
      var tr := [Enter(1, first, true, 0, 0), Take(1, task, true, 5), Enter(2, second, true, 0, 6), Read(1)];
      && FreshSlots(tr) && ReadsFor(tr, 3, 1, 0) && SlotRun(tr, 3).mem == map[0 := Rec(second, 6)]
      && 0 in SlotRun(tr, 1).mem && ReadEvent(0, tr, 3, 1, 0) == [Event(second, task, 5, 5)]
  {
    var tr := [Enter(1, first, true, 0, 0), Take(1, task, true, 5), Enter(2, second, true, 0, 6), Read(1)];
    assert SlotRun(tr, 0) == Temp(map[], map[]);
    assert SlotRun(tr, 1) == Temp(map[1 := 0], map[0 := Rec(first, 0)]);
    assert SlotRun(tr, 2) == Temp(map[], map[0 := Rec(first, 0)]);
    assert SlotRun(tr, 3) == Temp(map[2 := 0], map[0 := Rec(second, 6)]);
  }
}

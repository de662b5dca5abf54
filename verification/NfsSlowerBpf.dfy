/** The nfsslower probes against the slots behind their map. */
module NfsSlowerBpf {
  import opened Options
  import opened BpfMap
  import opened Tracker
  import opened TrackerRuns
  import opened EventCodec
  import opened SlowerBpf
  import opened NfsSlots

  function NfsShown(e: Event<u16, Finisher>): AodEvent {
    AodEvent(e.info.pid, e.data, NFSSLOWER, e.end, e.info.xid, Latency(e.latency), e.info.comm)
  }

  ghost function AllNfsShown(out: seq<Event<u16, Finisher>>): seq<AodEvent> {
    seq(|out|, i requires 0 <= i < |out| => NfsShown(out[i]))
  }

  /** Whatever bytes the record held, the consumer prints the event's latency,
      command, request and process. */
  lemma ConsumerReadsNfsEvent(stale: seq<byte>, e: Event<u16, Finisher>)
    requires |stale| == EVENT_SIZE && |e.info.comm| == TASK_COMM_LEN
    ensures WellFormed(NfsShown(e))
    ensures var d := Decode(Encode(stale, NfsShown(e)));
            && d.reading == LatencyNs(e.latency) && d.command == e.data && d.rqstId == e.info.xid
            && (d.pid == e.info.pid <==> e.info.pid < 0x8000_0000) && d.task == TaskName(e.info.comm)
    ensures FromLE(Encode(stale, NfsShown(e))[8..16]) == e.end
  {
    ConsumerRecoversEvent(stale, NfsShown(e));
    EncodeFields(stale, NfsShown(e));
    Pow256Values();
    ReadBack(e.end, 8);
  }

  /** What an exit keeps of the record it met: a pointer to it, and the latency. */
  datatype Pointed = Pointed(slot: nat, latency: u64)

  class NfsSlower {
    const denylist: set<u16>
    const minLatNs: u64
    var temp: map<Pointer, nat>
    var mem: map<nat, Rec<u16>>
    var aodrb: seq<AodEvent>
    ghost var out: seq<Event<u16, Finisher>>

    ghost function Slots(): Temp reads this { Temp(temp, mem) }

    ghost predicate Valid()
      reads this
    {
      Sound(Slots()) && aodrb == AllNfsShown(out)
    }

    ghost function TaskState(): State<Pointer, u16, Finisher>
      requires Sound(Slots())
      reads this
    {
      State(Deref(Slots()), out)
    }

    constructor (denylist: set<u16>, minLatNs: u64)
      ensures Valid() && this.denylist == denylist && this.minLatNs == minLatNs
      ensures Slots() == Temp(map[], map[]) && TaskState() == State(map[], [])
    {
      this.denylist, this.minLatNs := denylist, minLatNs;
      temp, mem, aodrb, out := map[], map[], [], [];
    }

    /** `slot` is the one the map picks for a record it accepts. */
    method ProbeEntry(rpc: Pointer, command: u16, slot: nat, now: u64)
      requires Valid() && slot !in temp.Values
      modifies this`temp, this`mem
      ensures Valid()
      ensures Slots() == SlotNext(old(Slots()), Enter(rpc, command, command !in denylist, slot, now))
      ensures TaskState() == Next(PointerConfig(minLatNs), old(TaskState()), Start(rpc, command, command !in denylist, now))
      ensures if command !in denylist && rpc !in old(temp) && |old(temp)| < 49152
              then temp == old(temp)[rpc := slot] && mem == old(mem)[slot := Rec(command, now)]
              else temp == old(temp) && mem == old(mem)
    {
      SlotStepRefines(minLatNs, Slots(), TaskState(), Enter(rpc, command, command !in denylist, slot, now));
      if command in denylist { return; }
      if Admits(temp, TEMP_ENTRIES, NoExist, rpc) {
        temp := temp[rpc := slot];
        mem := mem[slot := Rec(command, now)];
      }
    }

    /** The first half of the exit probe: lookup, clock and removal. */
    method TakeRecord(rpc: Pointer, now: u64) returns (met: Option<Pointed>)
      requires Valid()
      modifies this`temp
      ensures Sound(Slots()) && Slots().at == Delete(old(temp), rpc) && Slots().mem == old(mem)
      ensures met == if rpc in old(temp) then Some(Pointed(old(temp)[rpc], Sub64(now, old(mem)[old(temp)[rpc]].ts))) else None
    {
      if rpc !in temp {
        DeleteAbsent(temp, rpc);
        return None;
      }
      var slot := temp[rpc];
      var latency := Sub64(now, mem[slot].ts);
      temp := Delete(temp, rpc);
      return Some(Pointed(slot, latency));
    }

    /** The second half: floor, ring, and the command as the slot holds it now. */
    method EmitEvent(pe: Pointed, task: Finisher, ring: bool, now: u64)
      requires Valid() && pe.slot in mem
      modifies this`aodrb, this`out
      ensures Valid()
      ensures out == old(out) + if pe.latency < minLatNs || !ring then []
                                else [Event(mem[pe.slot].data, task, pe.latency, now)]
      ensures aodrb == old(aodrb) + if pe.latency < minLatNs || !ring then []
                else [AodEvent(task.pid, mem[pe.slot].data, 10, now, task.xid, Latency(pe.latency), task.comm)]
    {
      if pe.latency < minLatNs { return; }
      if !ring { return; }
      aodrb := aodrb + [AodEvent(task.pid, mem[pe.slot].data, NFSSLOWER, now, task.xid, Latency(pe.latency), task.comm)];
      out := out + [Event(mem[pe.slot].data, task, pe.latency, now)];
    }

    /** With nothing in between, the two halves are the tracker's completion. */
    method ProbeExit(rpc: Pointer, task: Finisher, ring: bool, now: u64)
      requires Valid()
      modifies this`temp, this`aodrb, this`out
      ensures Valid()
      ensures TaskState() == Next(PointerConfig(minLatNs), old(TaskState()), Finish(rpc, task, ring, now))
    {
      SlotStepRefines(minLatNs, Slots(), TaskState(), Take(rpc, task, ring, now));
      var met := TakeRecord(rpc, now);
      if met.Some? { EmitEvent(met.value, task, ring, now); }
    }
  }
}

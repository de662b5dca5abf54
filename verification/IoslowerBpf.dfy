/** The ioslower probes, step by step, against the machine of VfsProbes. */
module IoslowerBpf {
  import opened Options
  import opened BpfMap
  import opened Tracker
  import opened TrackerRuns
  import opened CallStack
  import opened VfsProbes

  datatype SlowStart = SlowStart(ts: u64, op: Op)

  datatype SlowEvent = SlowEvent(ts: u64, pid: Pid, uid: bv32, gid: bv32, deltaUs: u32, kind: nat, ret: bv32,
                                 comm: string, fname: string)

  /** The 32-bit field that holds a latency in microseconds. */
  function DeltaField(deltaNs: u64): u32 { deltaNs / 1000 % 0x1_0000_0000 }

  function Shown(e: Event<Op, Exiting>): SlowEvent {
    SlowEvent(e.info.who.ts, e.info.pid, e.info.who.uid, e.info.who.gid, DeltaField(e.latency),
              e.data.kind, e.info.ret, e.info.who.comm, e.data.fname)
  }

  ghost function AllShown(out: seq<Event<Op, Exiting>>): seq<SlowEvent> {
    seq(|out|, i requires 0 <= i < |out| => Shown(out[i]))
  }

  /** The test on whole microseconds is the test on nanoseconds, and the field is
      exact for latencies below 2^32 microseconds. */
  lemma FloorTest(deltaNs: u64, thresholdUs: u64)
    ensures deltaNs / 1000 < thresholdUs <==> deltaNs < 1000 * thresholdUs
    ensures deltaNs < 1000 * 0x1_0000_0000 <==> DeltaField(deltaNs) == deltaNs / 1000
  {
    var us := deltaNs / 1000;
    assert 1000 * us <= deltaNs < 1000 * (us + 1);
    assert us % 0x1_0000_0000 == us <==> us < 0x1_0000_0000;
  }

  /** The map and the ring hold what the tracker holds; the map's key is the
      thread alone. */
  ghost predicate Matches(opStart: map<Thread, SlowStart>, events: seq<SlowEvent>, track: State<OpKey, Op, Exiting>) {
    && |opStart| == |track.pending|
    && (forall id :: id in opStart <==> OpKey(id, 0) in track.pending)
    && (forall id :: id in opStart ==> track.pending[OpKey(id, 0)] == Rec(opStart[id].op, opStart[id].ts))
    && events == AllShown(track.out)
  }

  lemma StartMatches(opStart: map<Thread, SlowStart>, events: seq<SlowEvent>, track: State<OpKey, Op, Exiting>,
                     c: Config, id: Thread, st: SlowStart, pass: bool)
    requires Matches(opStart, events, track) && c.cap == MAP_ENTRIES && c.flag == Any
    ensures Matches(if pass then Update(opStart, MAP_ENTRIES, Any, id, st) else opStart, events,
                    Next(c, track, Start(OpKey(id, 0), st.op, pass, st.ts)))
  {}

  function Emitted(st: SlowStart, pid: Pid, deltaNs: u64, ret: bv32, who: Caller): SlowEvent {
    SlowEvent(who.ts, pid, who.uid, who.gid, DeltaField(deltaNs), st.op.kind, ret, who.comm, st.op.fname)
  }

  lemma FinishMatches(opStart: map<Thread, SlowStart>, events: seq<SlowEvent>, track: State<OpKey, Op, Exiting>,
                      thresholdUs: u64, id: Thread, ret: bv32, who: Caller, ring: bool, now: u64)
    requires Matches(opStart, events, track)
    ensures Matches(Delete(opStart, id), Finished(opStart, events, thresholdUs, id, ret, who, ring, now),
                    Next(Config(Any, MAP_ENTRIES, 1000 * thresholdUs), track,
                         Finish(OpKey(id, 0), Exiting(id.pid, ret, who), ring, now)))
  {
    if id !in opStart {
      DeleteAbsent(opStart, id);
    } else {
      FloorTest(Sub64(now, opStart[id].ts), thresholdUs);
    }
  }

  /** The ring after an exit probe. */
  function Finished(opStart: map<Thread, SlowStart>, events: seq<SlowEvent>, thresholdUs: u64,
                    id: Thread, ret: bv32, who: Caller, ring: bool, now: u64): seq<SlowEvent>
  {
    if id !in opStart then events
    else
      var delta := Sub64(now, opStart[id].ts);
      if delta / 1000 >= thresholdUs && ring then events + [Emitted(opStart[id], id.pid, delta, ret, who)] else events
  }

  class Ioslower {
    const filter: MountFilter
    const thresholdUs: u64
    var opStart: map<Thread, SlowStart>
    var vmaDevMap: map<VmaKey, u32>
    var events: seq<SlowEvent>
    ghost var model: Machine

    function SetupOf(): Setup { Setup(Tool.Ioslower, filter, thresholdUs) }

    ghost predicate Valid()
      reads this
    {
      Matches(opStart, events, model.track) && vmaDevMap == model.vma
    }

    constructor (filter: MountFilter, thresholdUs: u64)
      ensures Valid() && this.filter == filter && this.thresholdUs == thresholdUs
      ensures model == Machine(State(map[], []), map[])
    {
      this.filter, this.thresholdUs := filter, thresholdUs;
      opStart, vmaDevMap, events := map[], map[], [];
      model := Machine(State(map[], []), map[]);
    }

    method EmitEvent(st: SlowStart, pid: Pid, deltaNs: u64, ret: bv32, who: Caller, ring: bool)
      modifies this`events
      ensures events == if deltaNs / 1000 >= thresholdUs && ring
                        then old(events) + [SlowEvent(who.ts, pid, who.uid, who.gid, deltaNs / 1000 % 0x1_0000_0000,
                                                      st.op.kind, ret, who.comm, st.op.fname)]
                        else old(events)
    {
      var deltaUs := deltaNs / 1000;
      if deltaUs < thresholdUs { return; }
      if !ring { return; }
      events := events + [SlowEvent(who.ts, pid, who.uid, who.gid, deltaUs % 0x1_0000_0000,
                                    st.op.kind, ret, who.comm, st.op.fname)];
    }

    method StartOrDrop(id: Thread, st: SlowStart)
      requires Valid()
      modifies this`opStart, this`model
      ensures Valid() && model == old(model).(track := Next(TrackConfig(SetupOf()), old(model).track,
                Start(OpKey(id, 0), st.op, PassMountFilter(SetupOf(), st.op.dev), st.ts)))
      ensures opStart ==
                if (!filter.enabled
                    || (filter.devMinor < 0x10_0000 && st.op.dev == filter.devMajor * 0x10_0000 + filter.devMinor))
                   && (id in old(opStart) || |old(opStart)| < 4096)
                then old(opStart)[id := st] else old(opStart)
    {
      MountFilterMeans(SetupOf(), st.op.dev);
      ghost var pass := PassMountFilter(SetupOf(), st.op.dev);
      StartMatches(opStart, events, model.track, TrackConfig(SetupOf()), id, st, pass);
      model := model.(track := Next(TrackConfig(SetupOf()), model.track, Start(OpKey(id, 0), st.op, pass, st.ts)));
      if !PassMountFilter(SetupOf(), st.op.dev) { return; }
      opStart := Update(opStart, MAP_ENTRIES, Any, id, st);
    }

    method FinishEvent(id: Thread, ret: bv32, who: Caller, ring: bool, now: u64)
      requires Valid()
      modifies this`opStart, this`events, this`model
      ensures Valid() && model == old(model).(track := Next(TrackConfig(SetupOf()), old(model).track,
                Finish(OpKey(id, 0), Exiting(id.pid, ret, who), ring, now)))
      ensures opStart == old(opStart) - {id}
      ensures events == if id in old(opStart) && ring && Sub64(now, old(opStart)[id].ts) / 1000 >= thresholdUs then
                var st := old(opStart)[id];
                old(events) + [SlowEvent(who.ts, id.pid, who.uid, who.gid, Sub64(now, st.ts) / 1000 % 0x1_0000_0000,
                                         st.op.kind, ret, who.comm, st.op.fname)]
              else old(events)
    {
      FinishMatches(opStart, events, model.track, thresholdUs, id, ret, who, ring, now);
      model := model.(track := Next(TrackConfig(SetupOf()), model.track,
                                    Finish(OpKey(id, 0), Exiting(id.pid, ret, who), ring, now)));
      if id !in opStart {
        DeleteAbsent(opStart, id);
        return;
      }
      var delta := Sub64(now, opStart[id].ts);
      EmitEvent(opStart[id], id.pid, delta, ret, who, ring);
      opStart := Delete(opStart, id);
    }

    /** `arg` is what the probe reads through its argument, if that is no null
        pointer. */
    method TraceEnter(id: Thread, kind: nat, arg: Option<Op>, now: u64)
      requires Valid() && (arg.Some? ==> arg.value.kind == kind)
      modifies this
      ensures Valid()
      ensures model == MachineNext(SetupOf(), old(model),
                                   if arg.Some? then Enter(id, arg.value, now) else EnterNull(id, kind, now))
      ensures vmaDevMap == old(vmaDevMap) && events == old(events)
      ensures opStart ==
                if arg.Some?
                   && (!filter.enabled
                       || (filter.devMinor < 0x10_0000 && arg.value.dev == filter.devMajor * 0x10_0000 + filter.devMinor))
                   && (id in old(opStart) || |old(opStart)| < 4096)
                then old(opStart)[id := SlowStart(now, arg.value)] else old(opStart)
    {
      if arg.None? { return; }
      StartOrDrop(id, SlowStart(now, arg.value));
    }

    method TraceExit(id: Thread, ghost kind: nat, ret: bv64, who: Caller, ring: bool, now: u64)
      requires Valid()
      modifies this
      ensures Valid() && model == MachineNext(SetupOf(), old(model), Exit(id, kind, Low32(ret), who, ring, now))
      ensures vmaDevMap == old(vmaDevMap) && opStart == old(opStart) - {id}
      ensures events == if id in old(opStart) && ring && Sub64(now, old(opStart)[id].ts) / 1000 >= thresholdUs then
                var st := old(opStart)[id];
                old(events) + [SlowEvent(who.ts, id.pid, who.uid, who.gid, Sub64(now, st.ts) / 1000 % 0x1_0000_0000,
                                         st.op.kind, (ret & 0xFFFF_FFFF) as bv32, who.comm, st.op.fname)]
              else old(events)
    {
      FinishEvent(id, Low32(ret), who, ring, now);
    }

    method TraceDoMmapReturn(id: Thread, ret: bv64, who: Caller, ring: bool, now: u64)
      requires Valid()
      modifies this
      ensures Valid() && model == MachineNext(SetupOf(), old(model), MmapExit(id, Landed(id, ret), MmapResult(ret), who, ring, now))
      ensures opStart == old(opStart) - {id}
      ensures vmaDevMap ==
                var k := VmaKey((id.pid << 32) | (ret >> 12));
                if id in old(opStart) && 0 < ret < 0x8000_0000_0000_0000
                   && (k in old(vmaDevMap) || |old(vmaDevMap)| < 4096)
                then old(vmaDevMap)[k := old(opStart)[id].op.dev] else old(vmaDevMap)
      ensures events == if id in old(opStart) && ring && Sub64(now, old(opStart)[id].ts) / 1000 >= thresholdUs then
                var st := old(opStart)[id];
                var shown: bv32 := if 0 < ret < 0x8000_0000_0000_0000 then 0 else (ret & 0xFFFF_FFFF) as bv32;
                old(events) + [SlowEvent(who.ts, id.pid, who.uid, who.gid, Sub64(now, st.ts) / 1000 % 0x1_0000_0000,
                                         st.op.kind, shown, who.comm, st.op.fname)]
              else old(events)
    {
      MmapExitParts(SetupOf(), model, id, Landed(id, ret), MmapResult(ret), who, ring, now);
      if id in opStart && Positive(ret) {
        var dev := opStart[id].op.dev;
        var key := VmaKey(Pack(id.pid, ret >> 12));
        vmaDevMap := Update(vmaDevMap, MAP_ENTRIES, Any, key, dev);
        model := model.(vma := vmaDevMap);
      }
      FinishEvent(id, if Positive(ret) then 0 else Low32(ret), who, ring, now);
    }

    method TakeVmaDev(pid: Pid, start: bv64) returns (dev: u32)
      requires Valid()
      modifies this`vmaDevMap, this`model
      ensures Valid() && model == old(model).(vma := Delete(old(model).vma, KeyAt(Site(pid, start >> 12))))
      ensures dev == DevAt(old(model).vma, Site(pid, start >> 12))
      ensures var k := VmaKey((pid << 32) | (start >> 12));
              && vmaDevMap == old(vmaDevMap) - {k}
              && dev == if k in old(vmaDevMap) then old(vmaDevMap)[k] else 0
    {
      var key := VmaKey(Pack(pid, start >> 12));
      dev := if key in vmaDevMap then vmaDevMap[key] else 0;
      DeleteIs(vmaDevMap, key);
      vmaDevMap := Delete(vmaDevMap, key);
      model := model.(vma := vmaDevMap);
    }

    method TraceVmMunmap(id: Thread, start: bv64, now: u64)
      requires Valid()
      modifies this
      ensures Valid() && model == MachineNext(SetupOf(), old(model), MunmapEnter(id, SiteOf(id, start), "", now))
      ensures events == old(events)
      ensures vmaDevMap == old(vmaDevMap) - {VmaKey((id.pid << 32) | (start >> 12))}
      ensures var k := VmaKey((id.pid << 32) | (start >> 12));
              var dev := if k in old(vmaDevMap) then old(vmaDevMap)[k] else 0;
              opStart ==
                if (!filter.enabled
                    || (filter.devMinor < 0x10_0000 && dev == filter.devMajor * 0x10_0000 + filter.devMinor))
                   && (id in old(opStart) || |old(opStart)| < 4096)
                then old(opStart)[id := SlowStart(now, Op(47, dev, "", ""))] else old(opStart)
    {
      MunmapEnterParts(SetupOf(), model, id, SiteOf(id, start), "", now);
      var dev := TakeVmaDev(id.pid, start);
      StartOrDrop(id, SlowStart(now, Op(IO_MUNMAP, dev, "", "")));
    }
  }
}

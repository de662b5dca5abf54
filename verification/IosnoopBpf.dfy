/** The iosnoop probes, step by step, against the machine of VfsProbes. */
module IosnoopBpf {
  import opened Options
  import opened BpfMap
  import opened Tracker
  import opened TrackerRuns
  import opened CallStack
  import opened VfsProbes

  datatype SnoopEvent = SnoopEvent(ts: u64, pid: Pid, uid: bv32, gid: bv32, kind: nat, ret: bv32,
                                   comm: string, fname: string, args: string)

  function Shown(e: Event<Op, Exiting>): SnoopEvent {
    SnoopEvent(e.end, e.info.pid, e.info.who.uid, e.info.who.gid, e.data.kind, e.info.ret,
               e.info.who.comm, e.data.fname, e.data.args)
  }

  ghost function AllShown(out: seq<Event<Op, Exiting>>): seq<SnoopEvent> {
    seq(|out|, i requires 0 <= i < |out| => Shown(out[i]))
  }

  /** The map and the ring hold what the tracker holds, without the start times
      that iosnoop does not keep. */
  ghost predicate Matches(opState: map<OpKey, Op>, events: seq<SnoopEvent>, track: State<OpKey, Op, Exiting>) {
    && opState.Keys == track.pending.Keys
    && (forall k :: k in opState ==> track.pending[k] == Rec(opState[k], 0))
    && events == AllShown(track.out)
  }

  ghost function SnoopConfig(): Config { Config(Any, MAP_ENTRIES, 0) }

  lemma StartMatches(opState: map<OpKey, Op>, events: seq<SnoopEvent>, track: State<OpKey, Op, Exiting>,
                     key: OpKey, op: Op, pass: bool)
    requires Matches(opState, events, track)
    ensures Matches(if pass then Update(opState, MAP_ENTRIES, Any, key, op) else opState, events,
                    Next(SnoopConfig(), track, Start(key, op, pass, 0)))
  {
    assert |opState| == |opState.Keys| == |track.pending|;
  }

  function Emitted(op: Op, pid: Pid, ret: bv32, who: Caller): SnoopEvent {
    SnoopEvent(who.ts, pid, who.uid, who.gid, op.kind, ret, who.comm, op.fname, op.args)
  }

  lemma FinishMatches(opState: map<OpKey, Op>, events: seq<SnoopEvent>, track: State<OpKey, Op, Exiting>,
                      key: OpKey, pid: Pid, ret: bv32, who: Caller, ring: bool)
    requires Matches(opState, events, track)
    ensures Matches(Delete(opState, key),
                    if key in opState && ring then events + [Emitted(opState[key], pid, ret, who)] else events,
                    Next(SnoopConfig(), track, Finish(key, Exiting(pid, ret, who), ring, who.ts)))
  {
    if key !in opState { DeleteAbsent(opState, key); }
  }

  class Iosnoop {
    const filter: MountFilter
    var opState: map<OpKey, Op>
    var vmaDevMap: map<VmaKey, u32>
    var events: seq<SnoopEvent>
    ghost var model: Machine

    function SetupOf(): Setup { Setup(Tool.Iosnoop, filter, 0) }

    ghost predicate Valid()
      reads this
    {
      Matches(opState, events, model.track) && vmaDevMap == model.vma
    }

    constructor (filter: MountFilter)
      ensures Valid() && this.filter == filter && model == Machine(State(map[], []), map[])
    {
      this.filter := filter;
      opState, vmaDevMap, events := map[], map[], [];
      model := Machine(State(map[], []), map[]);
    }

    method EmitEvent(op: Op, pid: Pid, ret: bv32, who: Caller, ring: bool)
      modifies this`events
      ensures events == if ring then
                old(events) + [SnoopEvent(who.ts, pid, who.uid, who.gid, op.kind, ret, who.comm, op.fname, op.args)]
              else old(events)
    {
      if !ring { return; }
      events := events + [SnoopEvent(who.ts, pid, who.uid, who.gid, op.kind, ret, who.comm, op.fname, op.args)];
    }

    method SubmitOrDrop(id: Thread, op: Op)
      requires Valid()
      modifies this`opState, this`model
      ensures Valid() && model == old(model).(track := Next(TrackConfig(SetupOf()), old(model).track,
                Start(OpKey(id, op.kind), op, PassMountFilter(SetupOf(), op.dev), 0)))
      ensures opState ==
                if (!filter.enabled || op.dev == 0
                    || (filter.devMinor < 0x10_0000 && op.dev == filter.devMajor * 0x10_0000 + filter.devMinor))
                   && (OpKey(id, op.kind) in old(opState) || |old(opState)| < 4096)
                then old(opState)[OpKey(id, op.kind) := op] else old(opState)
    {
      MountFilterMeans(SetupOf(), op.dev);
      ghost var pass := PassMountFilter(SetupOf(), op.dev);
      var key := OpKey(id, op.kind);
      StartMatches(opState, events, model.track, key, op, pass);
      model := model.(track := Next(TrackConfig(SetupOf()), model.track, Start(key, op, pass, 0)));
      if !PassMountFilter(SetupOf(), op.dev) { return; }
      opState := Update(opState, MAP_ENTRIES, Any, key, op);
    }

    method FinishEvent(id: Thread, kind: nat, ret: bv32, who: Caller, ring: bool)
      requires Valid()
      modifies this`opState, this`events, this`model
      ensures Valid() && model == old(model).(track := Next(TrackConfig(SetupOf()), old(model).track,
                Finish(OpKey(id, kind), Exiting(id.pid, ret, who), ring, who.ts)))
      ensures opState == old(opState) - {OpKey(id, kind)}
      ensures events == if OpKey(id, kind) in old(opState) && ring then
                var op := old(opState)[OpKey(id, kind)];
                old(events) + [SnoopEvent(who.ts, id.pid, who.uid, who.gid, op.kind, ret, who.comm, op.fname, op.args)]
              else old(events)
    {
      var key := OpKey(id, kind);
      FinishMatches(opState, events, model.track, key, id.pid, ret, who, ring);
      model := model.(track := Next(TrackConfig(SetupOf()), model.track,
                                    Finish(key, Exiting(id.pid, ret, who), ring, who.ts)));
      if key !in opState {
        DeleteAbsent(opState, key);
        return;
      }
      EmitEvent(opState[key], id.pid, ret, who, ring);
      opState := Delete(opState, key);
    }

    /** `arg` is what the probe reads through its argument, if that is no null
        pointer. */
    method TraceEnter(id: Thread, kind: nat, arg: Option<Op>, now: u64)
      requires Valid() && (arg.Some? ==> arg.value.kind == kind)
      modifies this
      ensures Valid()
      ensures model == MachineNext(SetupOf(), old(model),
                                   if arg.Some? then Enter(id, arg.value, now) else EnterNull(id, kind, now))
      ensures vmaDevMap == old(vmaDevMap) && events == old(events)
      ensures opState ==
                if arg.Some?
                   && (!filter.enabled || arg.value.dev == 0
                       || (filter.devMinor < 0x10_0000 && arg.value.dev == filter.devMajor * 0x10_0000 + filter.devMinor))
                   && (OpKey(id, kind) in old(opState) || |old(opState)| < 4096)
                then old(opState)[OpKey(id, kind) := arg.value] else old(opState)
    {
      if arg.None? { return; }
      SubmitOrDrop(id, arg.value);
    }

    method TraceExit(id: Thread, kind: nat, ret: bv64, who: Caller, ring: bool)
      requires Valid()
      modifies this
      ensures Valid() && model == MachineNext(SetupOf(), old(model), Exit(id, kind, Low32(ret), who, ring, who.ts))
      ensures vmaDevMap == old(vmaDevMap) && opState == old(opState) - {OpKey(id, kind)}
      ensures events == if OpKey(id, kind) in old(opState) && ring then
                var op := old(opState)[OpKey(id, kind)];
                old(events) + [SnoopEvent(who.ts, id.pid, who.uid, who.gid, op.kind, (ret & 0xFFFF_FFFF) as bv32,
                                          who.comm, op.fname, op.args)]
              else old(events)
    {
      FinishEvent(id, kind, Low32(ret), who, ring);
    }

    method TraceDoMmapReturn(id: Thread, ret: bv64, who: Caller, ring: bool)
      requires Valid()
      modifies this
      ensures Valid() && model == MachineNext(SetupOf(), old(model), MmapExit(id, Landed(id, ret), MmapResult(ret), who, ring, who.ts))
      ensures opState == old(opState) - {OpKey(id, 45)}
      ensures vmaDevMap ==
                var k := VmaKey((id.pid << 32) | (ret >> 12));
                if OpKey(id, 45) in old(opState) && 0 < ret < 0x8000_0000_0000_0000
                   && (k in old(vmaDevMap) || |old(vmaDevMap)| < 4096)
                then old(vmaDevMap)[k := old(opState)[OpKey(id, 45)].dev] else old(vmaDevMap)
      ensures events == if OpKey(id, 45) in old(opState) && ring then
                var op := old(opState)[OpKey(id, 45)];
                var shown: bv32 := if 0 < ret < 0x8000_0000_0000_0000 then 0 else (ret & 0xFFFF_FFFF) as bv32;
                old(events) + [SnoopEvent(who.ts, id.pid, who.uid, who.gid, op.kind, shown, who.comm, op.fname, op.args)]
              else old(events)
    {
      MmapExitParts(SetupOf(), model, id, Landed(id, ret), MmapResult(ret), who, ring, who.ts);
      var opk := OpKey(id, IO_MMAP);
      if opk in opState && Positive(ret) {
        var dev := opState[opk].dev;
        var vmaKey := VmaKey(Pack(id.pid, ret >> 12));
        vmaDevMap := Update(vmaDevMap, MAP_ENTRIES, Any, vmaKey, dev);
        model := model.(vma := vmaDevMap);
      }
      FinishEvent(id, IO_MMAP, if Positive(ret) then 0 else Low32(ret), who, ring);
    }

    method TakeVmaDev(pid: Pid, start: bv64) returns (dev: u32)
      requires Valid()
      modifies this`vmaDevMap, this`model
      ensures Valid() && model == old(model).(vma := Delete(old(model).vma, KeyAt(Site(pid, start >> 12))))
      ensures dev == DevAt(old(model).vma, Site(pid, start >> 12))
      ensures var k := VmaKey((pid << 32) | (start >> 12));
              && vmaDevMap == old(vmaDevMap) - {k}
              && dev == if k in old(vmaDevMap) then old(vmaDevMap)[k] else 0
    {
      var key := VmaKey(Pack(pid, start >> 12));
      dev := if key in vmaDevMap then vmaDevMap[key] else 0;
      DeleteIs(vmaDevMap, key);
      vmaDevMap := Delete(vmaDevMap, key);
      model := model.(vma := vmaDevMap);
    }

    method TraceVmMunmap(id: Thread, start: bv64, args: string, now: u64)
      requires Valid()
      modifies this
      ensures Valid() && model == MachineNext(SetupOf(), old(model), MunmapEnter(id, SiteOf(id, start), args, now))
      ensures events == old(events)
      ensures vmaDevMap == old(vmaDevMap) - {VmaKey((id.pid << 32) | (start >> 12))}
      ensures var k := VmaKey((id.pid << 32) | (start >> 12));
              var dev := if k in old(vmaDevMap) then old(vmaDevMap)[k] else 0;
              opState ==
                if (!filter.enabled || dev == 0
                    || (filter.devMinor < 0x10_0000 && dev == filter.devMajor * 0x10_0000 + filter.devMinor))
                   && (OpKey(id, 47) in old(opState) || |old(opState)| < 4096)
                then old(opState)[OpKey(id, 47) := Op(47, dev, "", args)] else old(opState)
    {
      MunmapEnterParts(SetupOf(), model, id, SiteOf(id, start), args, now);
      var dev := TakeVmaDev(id.pid, start);
      SubmitOrDrop(id, Op(IO_MUNMAP, dev, "", args));
    }
  }
}

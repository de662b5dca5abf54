/** The smbslower probes against the shared tracker. */
module SlowerBpf {
  import opened BpfMap
  import opened Tracker
  import opened TrackerRuns
  import opened EventCodec

  const TEMP_ENTRIES: nat := 2048 * 24

  type Pointer = u64

  /** The key the SMB tracepoints carry. */
  datatype TraceKey = TraceKey(tid: u32, sesid: u64, mid: u64)

  datatype SmbRequest = SmbRequest(command: u16, mid: u64)

  /** The process that runs an exit probe; nfsslower also reads the request's XID
      there. */
  datatype Finisher = Finisher(pid: u32, comm: seq<byte>, xid: u32)

  function TraceConfig(minLatNs: u64): Config { Config(Any, TEMP_ENTRIES, minLatNs) }

  function PointerConfig(minLatNs: u64): Config { Config(NoExist, TEMP_ENTRIES, minLatNs) }

  function SmbShown(e: Event<SmbRequest, Finisher>): AodEvent {
    AodEvent(e.info.pid, e.data.command, SMBSLOWER, e.end, e.data.mid, Latency(e.latency), e.info.comm)
  }

  ghost function AllSmbShown(out: seq<Event<SmbRequest, Finisher>>): seq<AodEvent> {
    seq(|out|, i requires 0 <= i < |out| => SmbShown(out[i]))
  }

  /** From tracker to consumer: whatever bytes the record held, the consumer prints
      the latency, command, request and process of the tracker's event. */
  lemma ConsumerReadsSmbEvent(stale: seq<byte>, e: Event<SmbRequest, Finisher>)
    requires |stale| == EVENT_SIZE && |e.info.comm| == TASK_COMM_LEN
    ensures WellFormed(SmbShown(e))
    ensures var d := Decode(Encode(stale, SmbShown(e)));
            && d.reading == LatencyNs(e.latency) && d.command == e.data.command && d.rqstId == e.data.mid
            && (d.pid == e.info.pid <==> e.info.pid < 0x8000_0000) && d.task == TaskName(e.info.comm)
    ensures FromLE(Encode(stale, SmbShown(e))[8..16]) == e.end
  {
    ConsumerRecoversEvent(stale, SmbShown(e));
    EncodeFields(stale, SmbShown(e));
    Pow256Values();
    ReadBack(e.end, 8);
  }

  /** In every run of either tracker under a clock that never goes back: a completion
      of a request started at i that reaches the minimum and finds room reaches the
      consumer as exactly the time between the two, with the request's command and
      number, and the record's end less its latency is the start. */
  lemma SmbRequestReachesConsumer<K>(c: Config, tr: seq<Step<K, SmbRequest, Finisher>>, i: int, j: nat, stale: seq<byte>)
    requires j < |tr| && Monotone(tr) && tr[j].Finish? && Source(c, tr, i, j, tr[j].key)
    requires tr[j].ring && tr[j].now - tr[i].now >= c.minLat
    requires |stale| == EVENT_SIZE && |tr[j].info.comm| == TASK_COMM_LEN
    ensures var out, e := Run(c, tr, j + 1).out, Event(tr[i].data, tr[j].info, tr[j].now - tr[i].now, tr[j].now);
            && out == Run(c, tr, j).out + [e]
            && Decode(Encode(stale, SmbShown(e))).reading == LatencyNs(tr[j].now - tr[i].now)
            && Decode(Encode(stale, SmbShown(e))).command == tr[i].data.command
            && Decode(Encode(stale, SmbShown(e))).rqstId == tr[i].data.mid
            && SmbShown(e).endNs - SmbShown(e).metric.ns == tr[i].now
  {
    CompletionReportsSource(c, tr, j, i);
    ConsumerReadsSmbEvent(stale, Event(tr[i].data, tr[j].info, tr[j].now - tr[i].now, tr[j].now));
  }

  /** The tracepoint tracker and the mid-entry tracker are observationally
      equal: fed the same requests under (tid, sesid, mid) and under pointers
      that name the same requests while in flight, and with no request restarted
      in flight, they put the same events in the ring. */
  lemma SmbTrackersAgree(minLatNs: u64, tr: seq<Step<TraceKey, SmbRequest, Finisher>>,
                         tr': seq<Step<Pointer, SmbRequest, Finisher>>, n: nat)
    requires SameButKeys(tr, tr') && NamesAgree(TEMP_ENTRIES, tr, tr') && NoRestart(TEMP_ENTRIES, tr, tr')
    requires n <= |tr|
    ensures AllSmbShown(Run(TraceConfig(minLatNs), tr, n).out) == AllSmbShown(Run(PointerConfig(minLatNs), tr', n).out)
    ensures |Run(TraceConfig(minLatNs), tr, n).pending| == |Run(PointerConfig(minLatNs), tr', n).pending|
  {
    RenamedRunsAgree(TraceConfig(minLatNs), PointerConfig(minLatNs), tr, tr', n);
    var b := Pairing(TEMP_ENTRIES, tr, tr', n);
    OneToOneSize(b);
    assert |Run(TraceConfig(minLatNs), tr, n).pending.Keys| == |b|;
  }

  class SmbSlower {
    const denylist: set<u16>
    const minLatNs: u64
    var temp: map<Pointer, Rec<SmbRequest>>
    var traceTemp: map<TraceKey, Rec<SmbRequest>>
    var aodrb: seq<AodEvent>
    ghost var out: seq<Event<SmbRequest, Finisher>>

    ghost predicate Valid()
      reads this
    {
      aodrb == AllSmbShown(out)
    }

    ghost function MidState(): State<Pointer, SmbRequest, Finisher> reads this { State(temp, out) }

    ghost function TraceState(): State<TraceKey, SmbRequest, Finisher> reads this { State(traceTemp, out) }

    constructor (denylist: set<u16>, minLatNs: u64)
      ensures Valid() && this.denylist == denylist && this.minLatNs == minLatNs
      ensures MidState() == State(map[], []) && TraceState() == State(map[], [])
    {
      this.denylist, this.minLatNs := denylist, minLatNs;
      temp, traceTemp, aodrb, out := map[], map[], [], [];
    }

    method TraceSmb3CmdEnter(key: TraceKey, command: u16, now: u64)
      requires Valid()
      modifies this`traceTemp
      ensures Valid()
      ensures TraceState() == Next(TraceConfig(minLatNs), old(TraceState()),
                                   Start(key, SmbRequest(command, key.mid), command !in denylist, now))
      ensures traceTemp == if command !in denylist && (key in old(traceTemp) || |old(traceTemp)| < 49152)
                           then old(traceTemp)[key := Rec(SmbRequest(command, key.mid), now)] else old(traceTemp)
    {
      if command in denylist { return; }
      traceTemp := Update(traceTemp, TEMP_ENTRIES, Any, key, Rec(SmbRequest(command, key.mid), now));
    }

    method CompleteTraceEvent(key: TraceKey, task: Finisher, ring: bool, now: u64)
      requires Valid()
      modifies this`traceTemp, this`aodrb, this`out
      ensures Valid()
      ensures TraceState() == Next(TraceConfig(minLatNs), old(TraceState()), Finish(key, task, ring, now))
      ensures traceTemp == old(traceTemp) - {key}
      ensures aodrb == if key in old(traceTemp) && ring && Sub64(now, old(traceTemp)[key].ts) >= minLatNs then
                var r := old(traceTemp)[key];
                old(aodrb) + [AodEvent(task.pid, r.data.command, 0, now, r.data.mid, Latency(Sub64(now, r.ts)), task.comm)]
              else old(aodrb)
    {
      DeleteIs(traceTemp, key);
      if key !in traceTemp { return; }
      var completed := traceTemp[key];
      var latency := Sub64(now, completed.ts);
      traceTemp := Delete(traceTemp, key);
      if latency < minLatNs { return; }
      if !ring { return; }
      aodrb := aodrb + [AodEvent(task.pid, completed.data.command, SMBSLOWER, now, completed.data.mid,
                                 Latency(latency), task.comm)];
      out := out + [Event(completed.data, task, latency, now)];
    }

    /** The fexit program; the kretprobes run it for a pointer that is not null. */
    method MidAlloc(mid: Pointer, command: u16, id: u64, now: u64)
      requires Valid()
      modifies this`temp
      ensures Valid()
      ensures MidState() == Next(PointerConfig(minLatNs), old(MidState()),
                                 Start(mid, SmbRequest(command, id), command !in denylist, now))
      ensures temp == if command !in denylist && mid !in old(temp) && |old(temp)| < 49152
                      then old(temp)[mid := Rec(SmbRequest(command, id), now)] else old(temp)
    {
      if command in denylist { return; }
      temp := Update(temp, TEMP_ENTRIES, NoExist, mid, Rec(SmbRequest(command, id), now));
    }

    method MidAllocKretprobe(mid: Pointer, command: u16, id: u64, now: u64)
      requires Valid()
      modifies this`temp
      ensures Valid()
      ensures MidState() == if mid == 0 then old(MidState())
                            else Next(PointerConfig(minLatNs), old(MidState()),
                                      Start(mid, SmbRequest(command, id), command !in denylist, now))
      ensures temp == if mid != 0 && command !in denylist && mid !in old(temp) && |old(temp)| < 49152
                      then old(temp)[mid := Rec(SmbRequest(command, id), now)] else old(temp)
    {
      if mid == 0 { return; }
      MidAlloc(mid, command, id, now);
    }

    method ProbeExit(mid: Pointer, task: Finisher, ring: bool, now: u64)
      requires Valid()
      modifies this`temp, this`aodrb, this`out
      ensures Valid()
      ensures MidState() == Next(PointerConfig(minLatNs), old(MidState()), Finish(mid, task, ring, now))
      ensures temp == old(temp) - {mid}
      ensures aodrb == if mid in old(temp) && ring && Sub64(now, old(temp)[mid].ts) >= minLatNs then
                var r := old(temp)[mid];
                old(aodrb) + [AodEvent(task.pid, r.data.command, 0, now, r.data.mid, Latency(Sub64(now, r.ts)), task.comm)]
              else old(aodrb)
    {
      DeleteIs(temp, mid);
      if mid !in temp { return; }
      var partial := temp[mid];
      var latency := Sub64(now, partial.ts);
      temp := Delete(temp, mid);
      if latency < minLatNs { return; }
      if !ring { return; }
      aodrb := aodrb + [AodEvent(task.pid, partial.data.command, SMBSLOWER, now, partial.data.mid,
                                 Latency(latency), task.comm)];
      out := out + [Event(partial.data, task, latency, now)];
    }
  }
}

/** The VFS probes of iosnoop and ioslower as one machine: the tracker, the mount
    filter, and the index from mapped addresses to devices that the mmap exit
    fills and the munmap entry empties. */
module VfsProbes {
  import opened Options
  import opened BpfMap
  import opened Tracker
  import opened TrackerRuns
  import opened CallStack
  import opened CallReuse
  import opened CallForest

  const IO_MMAP: nat := 45
  const IO_MUNMAP: nat := 47
  const MAP_ENTRIES: nat := 4096

  datatype Tool = Iosnoop | Ioslower

  /** Fixed before the probes are attached. */
  datatype Setup = Setup(tool: Tool, filter: MountFilter, thresholdUs: u64)

  datatype MountFilter = MountFilter(enabled: bool, devMajor: u32, devMinor: u32)

  /** What an entry probe files. */
  datatype Op = Op(kind: nat, dev: u32, fname: string, args: string)

  /** What an exit probe adds to the event. */
  datatype Exiting = Exiting(pid: Pid, ret: bv32, who: Caller)

  /** The calling task, and the clock as the event is filled in. */
  datatype Caller = Caller(uid: bv32, gid: bv32, comm: string, ts: u64)

  /** What the probes see, with registers decoded: `landed` is where a mmap that
      returned a positive address put its mapping. An entry probe whose argument
      is a null pointer, like that of a mmap without a file, files nothing, but
      its call exits like any other. */
  datatype VfsProbe =
    | Enter(id: Thread, op: Op, now: u64)
    | EnterNull(id: Thread, kind: nat, now: u64)
    | Exit(id: Thread, kind: nat, ret: bv32, who: Caller, ring: bool, now: u64)
    | MmapExit(id: Thread, landed: Option<Site>, ret: bv32, who: Caller, ring: bool, now: u64)
    | MunmapEnter(id: Thread, site: Site, args: string, now: u64)

  datatype Machine = Machine(track: State<OpKey, Op, Exiting>, vma: map<VmaKey, u32>)

  /** iosnoop lets a zero device through, ioslower compares it like any other. */
  predicate PassMountFilter(su: Setup, dev: u32) {
    || !su.filter.enabled
    || (su.tool == Iosnoop && dev == 0)
    || (su.filter.devMajor == dev / 0x10_0000 && su.filter.devMinor == dev % 0x10_0000)
  }

  function TrackConfig(su: Setup): Config {
    Config(Any, MAP_ENTRIES, if su.tool == Iosnoop then 0 else 1000 * su.thresholdUs)
  }

  /** iosnoop keys by thread and operation, ioslower by thread alone. */
  function KeyOf(su: Setup, id: Thread, kind: nat): OpKey {
    OpKey(id, if su.tool == Iosnoop then kind else 0)
  }

  /** Only ioslower notes when a call began. */
  function Stamp(su: Setup, now: u64): u64 {
    if su.tool == Iosnoop then 0 else now
  }

  /** A process and a page number: what the packed key stands for. */
  datatype Site = Site(pid: Pid, page: bv64)

  function SiteOf(id: Thread, addr: bv64): Site { Site(id.pid, addr >> 12) }

  function Low32(x: bv64): bv32 { (x & 0xFFFF_FFFF) as bv32 }

  /** A signed register holds a positive value. */
  predicate Positive(x: bv64) { 0 < x < 0x8000_0000_0000_0000 }

  /** A mmap's return register: an address, or an error that is reported. */
  function Landed(id: Thread, ret: bv64): Option<Site> {
    if Positive(ret) then Some(SiteOf(id, ret)) else None
  }

  function MmapResult(ret: bv64): bv32 {
    if Positive(ret) then 0 else Low32(ret)
  }

  function Pack(pid: Pid, page: bv64): bv64 { (pid << 32) | page }

  function KeyAt(s: Site): VmaKey { VmaKey(Pack(s.pid, s.page)) }

  datatype VmaKey = VmaKey(bits: bv64)

  /** The device filed for a mapping that starts here, if any. */
  function DevAt(vma: map<VmaKey, u32>, s: Site): u32 {
    if KeyAt(s) in vma then vma[KeyAt(s)] else 0
  }

  /** iosnoop reads the clock once, for the event; ioslower reads it before. */
  function EndTime(su: Setup, who: Caller, now: u64): u64 {
    if su.tool == Iosnoop then who.ts else now
  }

  function TrackStep(su: Setup, m: Machine, p: VfsProbe): Step<OpKey, Op, Exiting> {
    match p
    case Enter(id, op, now) =>
      Start(KeyOf(su, id, op.kind), op, PassMountFilter(su, op.dev), Stamp(su, now))
    case EnterNull(id, kind, now) =>
      Start(KeyOf(su, id, kind), Op(kind, 0, "", ""), false, Stamp(su, now))
    case Exit(id, kind, ret, who, ring, now) =>
      Finish(KeyOf(su, id, kind), Exiting(id.pid, ret, who), ring, EndTime(su, who, now))
    case MmapExit(id, _, ret, who, ring, now) =>
      Finish(KeyOf(su, id, IO_MMAP), Exiting(id.pid, ret, who), ring, EndTime(su, who, now))
    case MunmapEnter(id, site, args, now) =>
      var dev := DevAt(m.vma, site);
      Start(KeyOf(su, id, IO_MUNMAP), Op(IO_MUNMAP, dev, "", args), PassMountFilter(su, dev), Stamp(su, now))
  }

  /** The mapped-address index as a tracker of its own: a successful tracked mmap
      files a device under a site, munmap takes it out. Other probes do nothing
      to it, like a start that its filter rejects. */
  function SiteStep(su: Setup, m: Machine, p: VfsProbe): Step<Site, u32, ()> {
    match p
    case MmapExit(id, landed, _, _, _, _) =>
      var k := KeyOf(su, id, IO_MMAP);
      if k in m.track.pending && landed.Some?
      then Start(landed.value, m.track.pending[k].data.dev, true, 0)
      else Start(Site(0, 0), 0, false, 0)
    case MunmapEnter(_, site, _, _) => Finish(site, (), false, 0)
    case _ => Start(Site(0, 0), 0, false, 0)
  }

  function VmaNext(vma: map<VmaKey, u32>, step: Step<Site, u32, ()>): map<VmaKey, u32> {
    FileNext(vma, KeyAt(step.key), step)
  }

  function FileNext<K(==), L, V>(m: map<L, V>, l: L, step: Step<K, V, ()>): map<L, V> {
    match step
    case Start(_, v, pass, _) => if pass then Update(m, MAP_ENTRIES, Any, l, v) else m
    case Finish(_, _, _, _) => Delete(m, l)
  }

  function MachineNext(su: Setup, m: Machine, p: VfsProbe): Machine {
    Machine(Next(TrackConfig(su), m.track, TrackStep(su, m, p)), VmaNext(m.vma, SiteStep(su, m, p)))
  }

  function MachineRun(su: Setup, tr: seq<VfsProbe>, n: nat): Machine
    requires n <= |tr|
  {
    if n == 0 then Machine(State(map[], []), map[]) else MachineNext(su, MachineRun(su, tr, n - 1), tr[n - 1])
  }

  // ---------------------------------------------------------------------
  // Registers
  // ---------------------------------------------------------------------

  /** The error numbers that a mmap can return are no landings, and are what the
      event shows. */
  lemma ErrorsAreNoLandings(id: Thread, e: bv64)
    requires 1 <= e <= 4095
    ensures Landed(id, 0 - e) == None && MmapResult(0 - e) == 0 - Low32(e)
  {}

  /** Every user address is one, but for zero, and the event shows 0. */
  lemma AddressesLand(id: Thread, addr: bv64)
    requires addr < 0x8000_0000_0000_0000
    ensures Landed(id, addr) == if addr == 0 then None else Some(SiteOf(id, addr))
    ensures MmapResult(addr) == 0
  {}

  /** A site is a process and a number of 4096-byte pages. */
  lemma SiteIsPage(id: Thread, addr: bv64)
    ensures SiteOf(id, addr) == Site(id.pid, addr / 4096)
  {
    ShiftIsDivision(addr);
  }

  lemma ShiftIsDivision(a: bv64)
    ensures a >> 12 == a / 4096
  {}

  /** The low half of a register, as a number. */
  lemma Low32IsRemainder(x: bv64)
    ensures Low32(x) as bv64 == x % 0x1_0000_0000
  {}

  // ---------------------------------------------------------------------
  // The tracker's part of a run
  // ---------------------------------------------------------------------

  /** The tracker steps that a run of probes amounts to. */
  ghost function TrackTrace(su: Setup, tr: seq<VfsProbe>): (steps: seq<Step<OpKey, Op, Exiting>>)
    ensures |steps| == |tr|
  {
    seq(|tr|, i requires 0 <= i < |tr| => TrackStep(su, MachineRun(su, tr, i), tr[i]))
  }

  lemma TrackTraceAt(su: Setup, tr: seq<VfsProbe>, i: nat)
    requires i < |tr|
    ensures TrackTrace(su, tr)[i] == TrackStep(su, MachineRun(su, tr, i), tr[i])
  {}

  lemma MmapExitParts(su: Setup, m: Machine, id: Thread, landed: Option<Site>, ret: bv32, who: Caller, ring: bool, now: u64)
    ensures var next, k := MachineNext(su, m, MmapExit(id, landed, ret, who, ring, now)), KeyOf(su, id, IO_MMAP);
            && next.track == Next(TrackConfig(su), m.track, Finish(k, Exiting(id.pid, ret, who), ring, EndTime(su, who, now)))
            && next.vma == if k in m.track.pending && landed.Some?
                           then Update(m.vma, MAP_ENTRIES, Any, KeyAt(landed.value), m.track.pending[k].data.dev) else m.vma
  {}

  lemma MunmapEnterParts(su: Setup, m: Machine, id: Thread, site: Site, args: string, now: u64)
    ensures var next, dev := MachineNext(su, m, MunmapEnter(id, site, args, now)), DevAt(m.vma, site);
            && next.track == Next(TrackConfig(su), m.track,
                                  Start(KeyOf(su, id, IO_MUNMAP), Op(IO_MUNMAP, dev, "", args), PassMountFilter(su, dev), Stamp(su, now)))
            && next.vma == Delete(m.vma, KeyAt(site))
  {}

  lemma MachineNextParts(su: Setup, m: Machine, p: VfsProbe)
    ensures MachineNext(su, m, p).track == Next(TrackConfig(su), m.track, TrackStep(su, m, p))
    ensures MachineNext(su, m, p).vma == VmaNext(m.vma, SiteStep(su, m, p))
  {}

  ghost predicate Tracks(su: Setup, tr: seq<VfsProbe>, n: nat)
    requires n <= |tr|
  {
    MachineRun(su, tr, n).track == Run(TrackConfig(su), TrackTrace(su, tr), n)
  }

  lemma TracksBase(su: Setup, tr: seq<VfsProbe>)
    ensures Tracks(su, tr, 0)
  {}

  lemma TracksStep(su: Setup, tr: seq<VfsProbe>, n: nat)
    requires n < |tr| && Tracks(su, tr, n)
    ensures Tracks(su, tr, n + 1)
  {
    TrackTraceAt(su, tr, n);
    MachineNextParts(su, MachineRun(su, tr, n), tr[n]);
  }

  /** Every result about tracker runs is one about the probes of both tools. */
  lemma {:induction false} MachineTracks(su: Setup, tr: seq<VfsProbe>, n: nat)
    requires n <= |tr|
    ensures Tracks(su, tr, n)
  {
    TracksBase(su, tr);
    for i := 0 to n
      invariant Tracks(su, tr, i)
    {
      TracksStep(su, tr, i);
    }
  }

  // ---------------------------------------------------------------------
  // Mount filter
  // ---------------------------------------------------------------------

  /** The filter in numbers: a device is 2^20 times its major number plus its minor
      number, and passes exactly when it is the one configured, besides device zero
      in iosnoop. */
  lemma MountFilterMeans(su: Setup, dev: u32)
    ensures PassMountFilter(su, dev) <==>
              || !su.filter.enabled
              || (su.tool == Iosnoop && dev == 0)
              || (su.filter.devMinor < 0x10_0000 && dev == su.filter.devMajor * 0x10_0000 + su.filter.devMinor)
  {
    assert dev == dev / 0x10_0000 * 0x10_0000 + dev % 0x10_0000;
  }

  /** For every device number by its parts. */
  lemma MountFilterByParts(su: Setup, major: u32, minor: u32)
    requires major < 0x1000 && minor < 0x10_0000 && su.filter.enabled
    ensures PassMountFilter(su, major * 0x10_0000 + minor) <==>
              (major == su.filter.devMajor && minor == su.filter.devMinor) || (su.tool == Iosnoop && major == 0 && minor == 0)
  {
    MountFilterMeans(su, major * 0x10_0000 + minor);
  }

  ghost predicate RecordsPass(su: Setup, pending: map<OpKey, Rec<Op>>) {
    forall k :: k in pending ==> PassMountFilter(su, pending[k].data.dev)
  }

  ghost predicate SitesPass<L>(su: Setup, vma: map<L, u32>) {
    forall a :: a in vma ==> PassMountFilter(su, vma[a])
  }

  lemma RecordsKeepPassing(su: Setup, c: Config, s: State<OpKey, Op, Exiting>, step: Step<OpKey, Op, Exiting>)
    requires RecordsPass(su, s.pending)
    requires step.Start? && step.pass ==> PassMountFilter(su, step.data.dev)
    ensures RecordsPass(su, Next(c, s, step).pending)
  {}

  lemma SitesKeepPassing<L>(su: Setup, vma: map<L, u32>, l: L, step: Step<Site, u32, ()>)
    requires SitesPass(su, vma)
    requires step.Start? && step.pass ==> PassMountFilter(su, step.data)
    ensures SitesPass(su, FileNext(vma, l, step))
  {}

  ghost predicate DevicesPass(su: Setup, tr: seq<VfsProbe>, n: nat)
    requires n <= |tr|
  {
    RecordsPass(su, MachineRun(su, tr, n).track.pending) && SitesPass(su, MachineRun(su, tr, n).vma)
  }

  lemma DevicesKeepPassing(su: Setup, tr: seq<VfsProbe>, n: nat)
    requires n < |tr| && DevicesPass(su, tr, n)
    ensures DevicesPass(su, tr, n + 1)
  {
    var m, p := MachineRun(su, tr, n), tr[n];
    MachineNextParts(su, m, p);
    RecordsKeepPassing(su, TrackConfig(su), m.track, TrackStep(su, m, p));
    SitesKeepPassing(su, m.vma, KeyAt(SiteStep(su, m, p).key), SiteStep(su, m, p));
  }

  /** Every device ever stored, under a call or under a site, passes the filter. */
  lemma StoredDevicesPass(su: Setup, tr: seq<VfsProbe>, n: nat)
    requires n <= |tr|
    ensures RecordsPass(su, MachineRun(su, tr, n).track.pending)
    ensures SitesPass(su, MachineRun(su, tr, n).vma)
  {
    for i := 0 to n
      invariant DevicesPass(su, tr, i)
    {
      DevicesKeepPassing(su, tr, i);
    }
  }

  /** Hence iosnoop's filter lets every munmap through, while ioslower, filtering
      for a real device, lets one through exactly when its start address hits
      the index. */
  lemma MunmapPassesFilter(su: Setup, tr: seq<VfsProbe>, n: nat)
    requires n < |tr| && tr[n].MunmapEnter?
    ensures var m, s := MachineRun(su, tr, n), tr[n].site;
            && (su.tool == Iosnoop ==> PassMountFilter(su, DevAt(m.vma, s)))
            && (su.tool == Ioslower && su.filter.enabled && (su.filter.devMajor != 0 || su.filter.devMinor != 0) ==>
                  (PassMountFilter(su, DevAt(m.vma, s)) <==> KeyAt(s) in m.vma))
  {
    StoredDevicesPass(su, tr, n);
  }

  // ---------------------------------------------------------------------
  // The two tools' promises, on runs of their probes
  // ---------------------------------------------------------------------

  /** iosnoop, on threads whose calls nest and that never have one operation open
      twice: an exit adds exactly the event of the call it closes, with that
      call's own name and arguments and its own return value, if the entry was
      stored and the ring has room; entries add nothing. */
  lemma SnoopExitReportsOwnCall(su: Setup, tr: seq<VfsProbe>, j: nat)
    requires su.tool == Iosnoop && j < |tr| && Nested(TrackTrace(su, tr))
    ensures ReportsOwnCall(TrackConfig(su), TrackTrace(su, tr), j,
                           MachineRun(su, tr, j).track.out, MachineRun(su, tr, j + 1).track.out)
  {
    MachineTracks(su, tr, j);
    MachineTracks(su, tr, j + 1);
    ExitReportsOwnCall(TrackConfig(su), TrackTrace(su, tr), j);
  }

  /** iosnoop, on threads whose exits close their innermost open call, but where
      an operation may be open several times: an exit reports its own call
      exactly when the ring has no room, or the call was stored and its operation
      not entered again inside it, or was not stored and met no stray record. */
  lemma SnoopExitReportsOwnIff(su: Setup, tr: seq<VfsProbe>, i: nat, j: nat)
    requires su.tool == Iosnoop && Bracketed(TrackTrace(su, tr)) && ExitOf(TrackTrace(su, tr), i, j)
    ensures ReportsOwnCall(TrackConfig(su), TrackTrace(su, tr), j,
                           MachineRun(su, tr, j).track.out, MachineRun(su, tr, j + 1).track.out) <==>
              !TrackTrace(su, tr)[j].ring || Spared(TrackConfig(su), TrackTrace(su, tr), i, j)
  {
    MachineTracks(su, tr, j);
    MachineTracks(su, tr, j + 1);
    ExitReportsOwnIff(TrackConfig(su), TrackTrace(su, tr), i, j);
  }

  ghost predicate SnoopReportsOwnAt(su: Setup, tr: seq<VfsProbe>, j: nat)
    requires j < |tr|
  {
    ReportsOwnCall(TrackConfig(su), TrackTrace(su, tr), j,
                   MachineRun(su, tr, j).track.out, MachineRun(su, tr, j + 1).track.out)
  }

  /** Every step of the machine's run reports its own call and nothing else. */
  ghost predicate SnoopReportsOwn(su: Setup, tr: seq<VfsProbe>) {
    forall j :: 0 <= j < |tr| ==> SnoopReportsOwnAt(su, tr, j)
  }

  lemma StepReportsLikeTracker(su: Setup, tr: seq<VfsProbe>, j: nat)
    requires j < |tr|
    ensures var c, st := TrackConfig(su), TrackTrace(su, tr);
            SnoopReportsOwnAt(su, tr, j) <==> OwnAt(c, st, j)
  {
    MachineTracks(su, tr, j);
    MachineTracks(su, tr, j + 1);
  }

  lemma SnoopReportsLikeTracker(su: Setup, tr: seq<VfsProbe>)
    ensures SnoopReportsOwn(su, tr) <==> AllReportOwn(TrackConfig(su), TrackTrace(su, tr))
  {
    if SnoopReportsOwn(su, tr) {
      forall j | 0 <= j < |tr|
        ensures OwnAt(TrackConfig(su), TrackTrace(su, tr), j)
      {
        StepReportsLikeTracker(su, tr, j);
        assert SnoopReportsOwnAt(su, tr, j);
      }
    }
    if AllReportOwn(TrackConfig(su), TrackTrace(su, tr)) {
      forall j | 0 <= j < |tr|
        ensures SnoopReportsOwnAt(su, tr, j)
      {
        StepReportsLikeTracker(su, tr, j);
        assert OwnAt(TrackConfig(su), TrackTrace(su, tr), j);
      }
    }
  }

  /** The run as a whole: it reports every call at its own exit if no stored call
      has its operation entered again inside it, and once all calls have exited
      into a ring with room, only if. */
  lemma SnoopRunReportsOwnIff(su: Setup, tr: seq<VfsProbe>)
    requires su.tool == Iosnoop && Bracketed(TrackTrace(su, tr))
    ensures NoStoredCallReused(TrackConfig(su), TrackTrace(su, tr)) ==> SnoopReportsOwn(su, tr)
    ensures Finished(TrackTrace(su, tr)) ==>
              (SnoopReportsOwn(su, tr) <==> NoStoredCallReused(TrackConfig(su), TrackTrace(su, tr)))
  {
    SnoopReportsLikeTracker(su, tr);
    RunReportsOwnIffNoReuse(TrackConfig(su), TrackTrace(su, tr));
  }

  /** In kprobe mode some exits fire two programs. When the run nests once exits
      that repeat an earlier one are dropped, iosnoop's output is that of the run
      without them, in which every exit reports its own call. */
  lemma SnoopToleratesRepeats(su: Setup, tr: seq<VfsProbe>, mark: seq<bool>)
    requires su.tool == Iosnoop && |mark| == |tr|
    requires forall j :: 0 <= j < |tr| && mark[j] ==> Repeated(TrackTrace(su, tr), j)
    requires Nested(Kept(TrackTrace(su, tr), mark, |tr|))
    ensures var c, kept := TrackConfig(su), Kept(TrackTrace(su, tr), mark, |tr|);
            && MachineRun(su, tr, |tr|).track == Run(c, kept, |kept|)
            && AllReportOwn(c, kept)
  {
    var c, kept := TrackConfig(su), Kept(TrackTrace(su, tr), mark, |tr|);
    MachineTracks(su, tr, |tr|);
    RepeatsAreHarmless(c, TrackTrace(su, tr), mark, |tr|);
    NestedRunReportsOwn(c, kept);
  }

  /** ioslower, on any run over any number of threads: a thread whose calls form
      a forest and were all stored leaves no record behind and reports exactly
      its innermost calls that reach the threshold, each from its own start. */
  lemma SlowThreadReportsItsLeaves(su: Setup, tr: seq<VfsProbe>, n: nat, id: Thread, f: Forest<Op, Exiting>)
    requires su.tool == Ioslower && n <= |tr| && AllFiled(f)
    requires View(TrackConfig(su), TrackTrace(su, tr), n, OpKey(id, 0)) == Probes(f)
    ensures OutOf(TrackConfig(su), TrackTrace(su, tr), n, OpKey(id, 0)) == OwnReports(TrackConfig(su), Leaves(f))
    ensures OpKey(id, 0) !in MachineRun(su, tr, n).track.pending
  {
    MachineTracks(su, tr, n);
    ThreadReportsItsLeaves(TrackConfig(su), TrackTrace(su, tr), n, OpKey(id, 0), f);
  }
}

/** What the VFS probes of both tools promise, in terms of the probes themselves:
    which call is reported, with which fields, and which device a munmap gets. */
module ProbeRuns {
  import opened Options
  import opened BpfMap
  import opened Tracker
  import opened CallStack
  import opened VfsProbes
  import opened VmaIndex

  // ---------------------------------------------------------------------
  // One call
  // ---------------------------------------------------------------------

  function Kind(p: VfsProbe): nat {
    match p
    case Enter(_, op, _) => op.kind
    case EnterNull(_, kind, _) => kind
    case Exit(_, kind, _, _, _, _) => kind
    case MmapExit(_, _, _, _, _, _) => 45
    case MunmapEnter(_, _, _, _) => 47
  }

  predicate Opens(p: VfsProbe) { p.Enter? || p.MunmapEnter? }

  predicate Closes(p: VfsProbe) { p.Exit? || p.MmapExit? }

  /** The two probes use the same record: the same thread's and, in iosnoop, the
      same operation's. */
  predicate SameRecord(tool: Tool, p: VfsProbe, q: VfsProbe) {
    p.id == q.id && (tool == Iosnoop ==> Kind(p) == Kind(q))
  }

  ghost predicate Unused(tool: Tool, tr: seq<VfsProbe>, lo: nat, hi: nat, p: VfsProbe)
    requires hi <= |tr|
  {
    forall m :: lo <= m < hi ==> !SameRecord(tool, tr[m], p)
  }

  /** Between entry i and exit j no other probe uses their record. */
  ghost predicate OneCall(tool: Tool, tr: seq<VfsProbe>, i: nat, j: nat) {
    && i < j < |tr| && Opens(tr[i]) && Closes(tr[j]) && SameRecord(tool, tr[i], tr[j])
    && Unused(tool, tr, i + 1, j, tr[i])
  }

  /** What entry i is about; a munmap asks the index for its device. */
  ghost function Called(su: Setup, tr: seq<VfsProbe>, i: nat): Op
    requires i < |tr| && Opens(tr[i])
  {
    if tr[i].Enter? then tr[i].op else Op(47, DevAt(MachineRun(su, tr, i).vma, tr[i].site), "", tr[i].args)
  }

  /** The entry's device is on the mount, and the map has room. */
  ghost predicate Filed(su: Setup, tr: seq<VfsProbe>, i: nat)
    requires i < |tr| && Opens(tr[i])
  {
    var pending, dev := MachineRun(su, tr, i).track.pending, Called(su, tr, i).dev;
    && (|| !su.filter.enabled
        || (su.tool == Iosnoop && dev == 0)
        || (su.filter.devMinor < 0x10_0000 && dev == su.filter.devMajor * 0x10_0000 + su.filter.devMinor))
    && (|pending| < 4096 || OpKey(tr[i].id, if su.tool == Iosnoop then Kind(tr[i]) else 0) in pending)
  }

  lemma FiledRecord(su: Setup, tr: seq<VfsProbe>, i: nat)
    requires i < |tr| && Opens(tr[i])
    ensures var k, p, q := KeyOf(su, tr[i].id, Kind(tr[i])), MachineRun(su, tr, i).track.pending, MachineRun(su, tr, i + 1).track.pending;
            && (Filed(su, tr, i) ==> k in q && q[k] == Rec(Called(su, tr, i), if su.tool == Iosnoop then 0 else tr[i].now))
            && (!Filed(su, tr, i) ==> q == p)
            && MachineRun(su, tr, i + 1).track.out == MachineRun(su, tr, i).track.out
  {
    MachineNextParts(su, MachineRun(su, tr, i), tr[i]);
    MountFilterMeans(su, Called(su, tr, i).dev);
  }

  lemma OtherRecordKept(su: Setup, tr: seq<VfsProbe>, m: nat, p: VfsProbe)
    requires m < |tr| && !SameRecord(su.tool, tr[m], p)
    ensures var k, a, b := KeyOf(su, p.id, Kind(p)), MachineRun(su, tr, m).track.pending, MachineRun(su, tr, m + 1).track.pending;
            (k in a <==> k in b) && (k in a ==> b[k] == a[k])
  {
    MachineNextParts(su, MachineRun(su, tr, m), tr[m]);
  }

  ghost predicate RecordKept(su: Setup, tr: seq<VfsProbe>, lo: nat, hi: nat, p: VfsProbe)
    requires lo <= hi <= |tr|
  {
    var k, a, b := KeyOf(su, p.id, Kind(p)), MachineRun(su, tr, lo).track.pending, MachineRun(su, tr, hi).track.pending;
    (k in a <==> k in b) && (k in a ==> b[k] == a[k])
  }

  lemma RecordKeptStep(su: Setup, tr: seq<VfsProbe>, lo: nat, n: nat, p: VfsProbe)
    requires lo <= n < |tr| && RecordKept(su, tr, lo, n, p) && !SameRecord(su.tool, tr[n], p)
    ensures RecordKept(su, tr, lo, n + 1, p)
  {
    OtherRecordKept(su, tr, n, p);
  }

  lemma KeptWhileUnused(su: Setup, tr: seq<VfsProbe>, lo: nat, hi: nat, p: VfsProbe)
    requires lo <= hi <= |tr| && Unused(su.tool, tr, lo, hi, p)
    ensures RecordKept(su, tr, lo, hi, p)
  {
    for i := lo to hi
      invariant RecordKept(su, tr, lo, i, p)
    {
      assert !SameRecord(su.tool, tr[i], p);
      RecordKeptStep(su, tr, lo, i, p);
    }
  }

  /** What exit j adds, by the record it meets. */
  lemma ExitAddsRecord(su: Setup, tr: seq<VfsProbe>, j: nat)
    requires j < |tr| && Closes(tr[j])
    ensures var k, s := KeyOf(su, tr[j].id, Kind(tr[j])), MachineRun(su, tr, j).track;
            MachineRun(su, tr, j + 1).track.out == s.out +
              if k in s.pending
              then Report(TrackConfig(su), s.pending[k], Exiting(tr[j].id.pid, tr[j].ret, tr[j].who), tr[j].ring,
                          if su.tool == Iosnoop then tr[j].who.ts else tr[j].now)
              else []
  {
    MachineNextParts(su, MachineRun(su, tr, j), tr[j]);
  }

  lemma RecordAtExit(su: Setup, tr: seq<VfsProbe>, i: nat, j: nat)
    requires OneCall(su.tool, tr, i, j)
    ensures var k, p, q := KeyOf(su, tr[j].id, Kind(tr[j])), MachineRun(su, tr, i).track.pending, MachineRun(su, tr, j).track.pending;
            if Filed(su, tr, i)
            then k in q && q[k] == Rec(Called(su, tr, i), if su.tool == Iosnoop then 0 else tr[i].now)
            else (k in q <==> k in p)
  {
    FiledRecord(su, tr, i);
    KeptWhileUnused(su, tr, i + 1, j, tr[i]);
  }

  /** iosnoop: an exit reports a call whose entry was filed exactly when the ring has
      room, with the call's operation, name and arguments, the exit's own return
      value, process and task, and the time at which the event is filled. */
  lemma SnoopReportsCall(su: Setup, tr: seq<VfsProbe>, i: nat, j: nat)
    requires su.tool == Iosnoop && OneCall(su.tool, tr, i, j) && Filed(su, tr, i)
    ensures MachineRun(su, tr, j + 1).track.out == MachineRun(su, tr, j).track.out +
              if tr[j].ring
              then [Event(Called(su, tr, i), Exiting(tr[j].id.pid, tr[j].ret, tr[j].who), tr[j].who.ts, tr[j].who.ts)]
              else []
  {
    RecordAtExit(su, tr, i, j);
    ExitAddsRecord(su, tr, j);
  }

  /** ioslower: an exit reports a call whose entry was filed exactly when the ring
      has room and the time between the two probes reaches the threshold, with
      exactly that latency. */
  lemma SlowReportsCall(su: Setup, tr: seq<VfsProbe>, i: nat, j: nat)
    requires su.tool == Ioslower && OneCall(su.tool, tr, i, j) && Filed(su, tr, i) && tr[i].now <= tr[j].now
    ensures MachineRun(su, tr, j + 1).track.out == MachineRun(su, tr, j).track.out +
              if tr[j].ring && tr[j].now - tr[i].now >= 1000 * su.thresholdUs
              then [Event(Called(su, tr, i), Exiting(tr[j].id.pid, tr[j].ret, tr[j].who), tr[j].now - tr[i].now, tr[j].now)]
              else []
  {
    RecordAtExit(su, tr, i, j);
    ExitAddsRecord(su, tr, j);
    SlowReport(su, Rec(Called(su, tr, i), tr[i].now), Exiting(tr[j].id.pid, tr[j].ret, tr[j].who), tr[j].ring, tr[j].now);
  }

  lemma SlowReport(su: Setup, r: Rec<Op>, info: Exiting, ring: bool, now: u64)
    requires su.tool == Ioslower && r.ts <= now
    ensures Report(TrackConfig(su), r, info, ring, now) ==
              if ring && now - r.ts >= 1000 * su.thresholdUs then [Event(r.data, info, now - r.ts, now)] else []
  {}

  /** A call whose entry was not filed, and that found no record at its entry, is
      not reported; and entries report nothing. */
  lemma UnfiledCallIsSilent(su: Setup, tr: seq<VfsProbe>, i: nat, j: nat)
    requires OneCall(su.tool, tr, i, j) && !Filed(su, tr, i)
    requires OpKey(tr[i].id, if su.tool == Iosnoop then Kind(tr[i]) else 0) !in MachineRun(su, tr, i).track.pending
    ensures MachineRun(su, tr, j + 1).track.out == MachineRun(su, tr, j).track.out
  {
    RecordAtExit(su, tr, i, j);
    ExitAddsRecord(su, tr, j);
  }

  lemma EntriesReportNothing(su: Setup, tr: seq<VfsProbe>, m: nat)
    requires m < |tr| && !Closes(tr[m])
    ensures MachineRun(su, tr, m + 1).track.out == MachineRun(su, tr, m).track.out
  {
    MachineNextParts(su, MachineRun(su, tr, m), tr[m]);
  }

  // ---------------------------------------------------------------------
  // From map to unmap
  // ---------------------------------------------------------------------

  /** The device of the file that a call maps is the one its
      munmap gets, as long as no other probe uses the call's record in between and no
      mmap or munmap its key. */
  lemma MunmapGetsMappedFile(su: Setup, tr: seq<VfsProbe>, e: nat, m: nat, n: nat)
    requires OneCall(su.tool, tr, e, m) && tr[e].Enter? && tr[m].MmapExit? && Filed(su, tr, e)
    requires n < |tr| && tr[n].MunmapEnter? && LatestMap(su, tr, m, n, KeyAt(tr[n].site))
    ensures Called(su, tr, n).dev == tr[e].op.dev
  {
    RecordAtExit(su, tr, e, m);
    MunmapGetsLatest(su, tr, n);
  }
}

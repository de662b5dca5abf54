/** iosnoop's user-space list of the paths behind open descriptors, and the
    event handler that fills it and reads it. */
module FdPaths {
  import opened Options
  import opened BpfMap
  import opened Decimal
  import Formatter
  import opened Tracker
  import opened TrackerRuns

  const IO_OPEN: nat := 1
  const IO_OPENAT: nat := 2
  const IO_CLOSE: nat := 5
  const INT_MAX: int := 0x7FFF_FFFF
  const PATH_ROOM: nat := 255

  datatype FdKey = FdKey(pid: u32, fd: int)

  datatype IoEvent = IoEvent(pid: u32, kind: nat, ret: int, fname: string, args: string)

  /** The 256-byte path field keeps 255 characters. */
  function Clip(path: string): string {
    if |path| <= PATH_ROOM then path else path[..PATH_ROOM]
  }

  /** read, write, close, fstat, fchmod, fchown, ftruncate and the positioned and
      vectored forms of read and write. */
  predicate FdBased(kind: nat) {
    kind in {3, 4, 5, 8, 20, 22, 24, 31, 32, 33, 34, 35, 36}
  }

  // ---------------------------------------------------------------------
  // The descriptor in an argument text
  // ---------------------------------------------------------------------

  function ParseFdFromArgs(args: string): (fd: int)
    ensures -1 <= fd <= INT_MAX
  {
    if !("fd=" <= args) then -1
    else match Strtol(args[3..])
      case NoNumber => -1
      case Number(v, _) => if v < 0 || v > INT_MAX then -1 else v
  }

  /** Every descriptor number is read back, whatever follows it, as long as that
      does not start with a digit; larger numbers are refused. */
  lemma FdTextReadsBack(n: nat, tail: string)
    requires tail == [] || !IsDigit(tail[0])
    ensures ParseFdFromArgs("fd=" + DecText(n) + tail) == if n <= 0x7FFF_FFFF then n else -1
  {
    StrtolText(n, tail);
    assert ("fd=" + DecText(n) + tail)[3..] == DecText(n) + tail;
  }

  // ---------------------------------------------------------------------
  // The handler on a plain map
  // ---------------------------------------------------------------------

  function SetPath(t: map<FdKey, string>, k: FdKey, path: string, alloc: bool): map<FdKey, string> {
    if path == "" || k.fd < 0 then t
    else if k in t || alloc then t[k := Clip(path)]
    else t
  }

  predicate Opens(e: IoEvent) { (e.kind == IO_OPEN || e.kind == IO_OPENAT) && e.ret >= 0 }

  function FdKeyOf(e: IoEvent): FdKey { FdKey(e.pid, ParseFdFromArgs(e.args)) }

  function Shown(t: map<FdKey, string>, e: IoEvent): string {
    var k := FdKeyOf(e);
    if k.fd >= 0 && FdBased(e.kind) && k in t then t[k] else e.fname
  }

  function TableNext(t: map<FdKey, string>, e: IoEvent, alloc: bool): map<FdKey, string> {
    var t1 := if Opens(e) then SetPath(t, FdKey(e.pid, e.ret), e.fname, alloc) else t;
    if e.kind == IO_CLOSE && ParseFdFromArgs(e.args) >= 0 then Delete(t1, FdKeyOf(e)) else t1
  }

  /** Each event comes with whether an allocation would succeed then. */
  datatype Handled = Handled(e: IoEvent, alloc: bool)

  function TableRun(h: seq<Handled>, n: nat): map<FdKey, string>
    requires n <= |h|
  {
    if n == 0 then map[] else TableNext(TableRun(h, n - 1), h[n - 1].e, h[n - 1].alloc)
  }

  /** The table as a tracker: a recorded open files its path, a close takes it
      out; the latest open replaces an earlier one. */
  function FdStep(t: map<FdKey, string>, e: IoEvent, alloc: bool): Step<FdKey, string, ()> {
    var target := FdKey(e.pid, e.ret);
    if Opens(e) then Start(target, Clip(e.fname), e.fname != "" && (target in t || alloc), 0)
    else if e.kind == IO_CLOSE && ParseFdFromArgs(e.args) >= 0 then Finish(FdKeyOf(e), (), false, 0)
    else Start(target, "", false, 0)
  }

  ghost function FdTrace(h: seq<Handled>): (steps: seq<Step<FdKey, string, ()>>)
    ensures |steps| == |h|
  {
    seq(|h|, i requires 0 <= i < |h| => FdStep(TableRun(h, i), h[i].e, h[i].alloc))
  }

  /** The list itself has no capacity: one entry an event is always enough. */
  ghost function FdConfig(h: seq<Handled>): Config { Config(Any, |h| + 1, 0) }

  ghost predicate SameTable(pending: map<FdKey, Rec<string>>, t: map<FdKey, string>) {
    && t.Keys == pending.Keys
    && forall k :: k in t ==> t[k] == pending[k].data
  }

  lemma OpenKeepsSame(c: Config, s: State<FdKey, string, ()>, t: map<FdKey, string>, e: IoEvent, alloc: bool)
    requires SameTable(s.pending, t) && c.flag == Any && |s.pending| < c.cap && Opens(e)
    ensures SameTable(Next(c, s, FdStep(t, e, alloc)).pending, SetPath(t, FdKey(e.pid, e.ret), e.fname, alloc))
  {
    var p, k := s.pending, FdKey(e.pid, e.ret);
    assert k in t <==> k in p;
    assert SameTable(p[k := Rec(Clip(e.fname), 0)], t[k := Clip(e.fname)]);
  }

  lemma SameTableStep(c: Config, s: State<FdKey, string, ()>, t: map<FdKey, string>, e: IoEvent, alloc: bool)
    requires SameTable(s.pending, t) && c.flag == Any && |s.pending| < c.cap
    ensures SameTable(Next(c, s, FdStep(t, e, alloc)).pending, TableNext(t, e, alloc))
    ensures |Next(c, s, FdStep(t, e, alloc)).pending| <= |s.pending| + 1
  {
    if Opens(e) { OpenKeepsSame(c, s, t, e, alloc); }
  }

  lemma FdTraceAt(h: seq<Handled>, i: nat)
    requires i < |h|
    ensures FdTrace(h)[i] == FdStep(TableRun(h, i), h[i].e, h[i].alloc)
  {}

  ghost predicate TableTracks(h: seq<Handled>, n: nat)
    requires n <= |h|
  {
    var p := Run(FdConfig(h), FdTrace(h), n).pending;
    SameTable(p, TableRun(h, n)) && |p| <= n
  }

  lemma TableTracksRun(h: seq<Handled>, n: nat)
    requires n <= |h|
    ensures TableTracks(h, n)
  {
    for i := 0 to n
      invariant TableTracks(h, i)
    {
      FdTraceAt(h, i);
      SameTableStep(FdConfig(h), Run(FdConfig(h), FdTrace(h), i), TableRun(h, i), h[i].e, h[i].alloc);
    }
  }

  /** After any events, the path shown for a descriptor-based event is that of
      the latest recorded, non-empty open of its process and descriptor not
      followed by a close, else the event's own name. */
  lemma ShownIsLatestOpen(h: seq<Handled>, n: nat, e: IoEvent)
    requires n <= |h| && ParseFdFromArgs(e.args) >= 0 && FdBased(e.kind)
    ensures forall i :: Source(FdConfig(h), FdTrace(h), i, n, FdKeyOf(e)) ==>
              Shown(TableRun(h, n), e) == FdTrace(h)[i].data == Clip(h[i].e.fname) && Opens(h[i].e)
    ensures (!exists i :: Source(FdConfig(h), FdTrace(h), i, n, FdKeyOf(e))) ==> Shown(TableRun(h, n), e) == e.fname
  {
    TableTracksRun(h, n);
    PendingIsSource(FdConfig(h), FdTrace(h), n, FdKeyOf(e));
    forall i | Source(FdConfig(h), FdTrace(h), i, n, FdKeyOf(e))
      ensures Opens(h[i].e) && FdTrace(h)[i].data == Clip(h[i].e.fname)
    {
      FdTraceAt(h, i);
    }
  }

  // ---------------------------------------------------------------------
  // From open to close
  // ---------------------------------------------------------------------

  /** An event that opens or closes this descriptor. */
  predicate Renews(e: IoEvent, pid: u32, fd: nat) {
    && e.pid == pid
    && ((e.kind in {1, 2} && e.ret == fd) || (e.kind == 5 && ParseFdFromArgs(e.args) == fd))
  }

  ghost predicate NotRenewed(h: seq<Handled>, lo: nat, hi: nat, pid: u32, fd: nat) {
    hi <= |h| && forall m :: lo <= m < hi ==> !Renews(h[m].e, pid, fd)
  }

  lemma OtherDescriptorKept(t: map<FdKey, string>, e: IoEvent, alloc: bool, pid: u32, fd: nat)
    requires !Renews(e, pid, fd)
    ensures var k, t' := FdKey(pid, fd), TableNext(t, e, alloc);
            (k in t' <==> k in t) && (k in t ==> t'[k] == t[k])
  {}

  ghost predicate SameEntry(h: seq<Handled>, lo: nat, hi: nat, k: FdKey)
    requires lo <= hi <= |h|
  {
    var a, b := TableRun(h, lo), TableRun(h, hi);
    (k in b <==> k in a) && (k in a ==> b[k] == a[k])
  }

  lemma EntryKept(h: seq<Handled>, lo: nat, hi: nat, pid: u32, fd: nat)
    requires lo <= hi && NotRenewed(h, lo, hi, pid, fd)
    ensures SameEntry(h, lo, hi, FdKey(pid, fd))
  {
    for i := lo to hi
      invariant SameEntry(h, lo, i, FdKey(pid, fd))
    {
      OtherDescriptorKept(TableRun(h, i), h[i].e, h[i].alloc, pid, fd);
    }
  }

  /** An event on this descriptor, of one of the kinds whose path is looked up. */
  predicate Uses(e: IoEvent, pid: u32, fd: nat) {
    e.pid == pid && e.args == "fd=" + DecText(fd) && e.kind in {3, 4, 5, 8, 20, 22, 24, 31, 32, 33, 34, 35, 36}
  }

  lemma UseKey(e: IoEvent, pid: u32, fd: nat)
    requires Uses(e, pid, fd) && fd <= INT_MAX
    ensures FdKeyOf(e) == FdKey(pid, fd) && FdBased(e.kind)
  {
    FdTextReadsBack(fd, []);
    assert "fd=" + DecText(fd) + [] == "fd=" + DecText(fd);
  }

  /** A successful open with a name and memory for it, then an event on its
      descriptor with no other open or close of it in between: the event is shown
      with the first 255 characters of the open's path. */
  lemma OpenIsShown(h: seq<Handled>, i: nat, n: nat, e: IoEvent)
    requires i < n <= |h| && h[i].e.kind in {1, 2} && 0 <= h[i].e.ret <= INT_MAX && h[i].e.fname != "" && h[i].alloc
    requires NotRenewed(h, i + 1, n, h[i].e.pid, h[i].e.ret) && Uses(e, h[i].e.pid, h[i].e.ret)
    ensures Shown(TableRun(h, n), e) == if |h[i].e.fname| <= 255 then h[i].e.fname else h[i].e.fname[..255]
  {
    UseKey(e, h[i].e.pid, h[i].e.ret);
    EntryKept(h, i + 1, n, h[i].e.pid, h[i].e.ret);
    assert TableRun(h, i + 1) == TableNext(TableRun(h, i), h[i].e, true);
  }

  /** A close, then an event on the same descriptor with no open of it in between:
      the event is shown with its own name. */
  lemma CloseForgets(h: seq<Handled>, i: nat, n: nat, fd: nat, e: IoEvent)
    requires i < n <= |h| && h[i].e.kind == 5 && h[i].e.args == "fd=" + DecText(fd) && fd <= INT_MAX
    requires NotRenewed(h, i + 1, n, h[i].e.pid, fd) && Uses(e, h[i].e.pid, fd)
    ensures Shown(TableRun(h, n), e) == e.fname
  {
    UseKey(e, h[i].e.pid, fd);
    UseKey(h[i].e, h[i].e.pid, fd);
    EntryKept(h, i + 1, n, h[i].e.pid, fd);
    assert TableRun(h, i + 1) == TableNext(TableRun(h, i), h[i].e, h[i].alloc);
  }

  // ---------------------------------------------------------------------
  // The texts that the probes write
  // ---------------------------------------------------------------------

  /** The label each enabled probe's argument text starts with. */
  const FIRST_LABELS: seq<string> :=
    ["flags=", "count=", "mode=", "target=", "mask=", "length=", "buflen=", "vlen=", "offset=", "len=", "cmd=", "old="]

  predicate FromProbe(args: string) {
    args == "" || exists i :: 0 <= i < |FIRST_LABELS| && FIRST_LABELS[i] <= args
  }

  lemma {:induction false} TextStartsWithFirst(items: seq<Formatter.Item>)
    requires items != []
    ensures Formatter.Ideal(items[0]) <= Formatter.IdealText(items)
  {
    if |items| > 1 {
      TextStartsWithFirst(items[..|items| - 1]);
    } else {
      assert Formatter.IdealText(items[..0]) == "";
    }
  }

  lemma {:induction false} CTextKeepsPrefix(s: string, t: string)
    requires t <= s && '\0' !in t
    ensures t <= Formatter.CText(s)
  {
    if t != [] {
      CTextKeepsPrefix(s[1..], t[1..]);
      assert t == [t[0]] + t[1..];
    }
  }

  /** Whatever a probe appends after its label, the text it leaves is one of these. */
  lemma FormattedFromProbe(b: Formatter.Buf, items: seq<Formatter.Item>, i: nat)
    requires |b.s| == Formatter.ARGS_SIZE && b.pos == 0 && forall k :: 0 <= k < |b.s| ==> b.s[k] == '\0'
    requires i < |FIRST_LABELS| && items != [] && items[0] == Formatter.Lit(FIRST_LABELS[i])
    ensures FromProbe(Formatter.CText(Formatter.PlaceAll(b, Formatter.ARGS_SIZE, items).s))
  {
    var r, text := Formatter.PlaceAll(b, Formatter.ARGS_SIZE, items), Formatter.IdealText(items);
    Formatter.ChainHoldsPrefix(b, Formatter.ARGS_SIZE, items);
    TextStartsWithFirst(items);
    LabelIsNoDescriptor(i);
    var first := FIRST_LABELS[i];
    assert first <= text;
    assert r.s[..|first|] == r.s[..r.pos][..|first|] == text[..|first|] == first;
    CTextKeepsPrefix(r.s, first);
  }

  lemma LabelIsNoDescriptor(i: nat)
    requires i < |FIRST_LABELS|
    ensures 1 < |FIRST_LABELS[i]| <= Formatter.LITERAL_MAX && '\0' !in FIRST_LABELS[i]
    ensures FIRST_LABELS[i][1] != 'd'
  {}

  /** None of them names a descriptor. */
  lemma ProbesNameNoDescriptor(args: string)
    requires FromProbe(args)
    ensures ParseFdFromArgs(args) == -1
  {
    if args != "" {
      var i :| 0 <= i < |FIRST_LABELS| && FIRST_LABELS[i] <= args;
      LabelIsNoDescriptor(i);
      assert args[1] == FIRST_LABELS[i][1];
    }
  }

  /** So on the probes' own events the handler always shows the event's own name,
      and an entry once recorded stays for good, though its path may change. */
  lemma ProbeEventsNeverUseTable(h: seq<Handled>, n: nat)
    requires n < |h| && FromProbe(h[n].e.args)
    ensures Shown(TableRun(h, n), h[n].e) == h[n].e.fname
    ensures forall k :: k in TableRun(h, n) ==> k in TableRun(h, n + 1)
  {
    ProbesNameNoDescriptor(h[n].e.args);
  }

  // ---------------------------------------------------------------------
  // The linked list
  // ---------------------------------------------------------------------

  class FdPathEntry {
    const pid: u32
    const fd: int
    var path: string
    var next: FdPathEntry?

    constructor (pid: u32, fd: int, path: string, next: FdPathEntry?)
      ensures this.pid == pid && this.fd == fd && this.path == path && this.next == next
    {
      this.pid, this.fd, this.path, this.next := pid, fd, path, next;
    }

    function Key(): FdKey { FdKey(pid, fd) }
  }

  ghost function At(spine: seq<FdPathEntry>, i: nat): FdPathEntry? {
    if i < |spine| then spine[i] else null
  }

  /** From head on the list is the spine; it ends, so it has no cycle. */
  ghost predicate Linked(head: FdPathEntry?, spine: seq<FdPathEntry>)
    reads spine
  {
    && head == At(spine, 0)
    && forall i {:trigger spine[i].next} :: 0 <= i < |spine| ==> spine[i].next == At(spine, i + 1)
  }

  /** No key, and so no node, occurs twice. */
  ghost predicate Distinct(spine: seq<FdPathEntry>) {
    forall i, j :: 0 <= i < j < |spine| ==> spine[i].Key() != spine[j].Key()
  }

  ghost predicate PathsAre(spine: seq<FdPathEntry>, paths: seq<string>)
    reads spine
  {
    |paths| == |spine| && forall i {:trigger spine[i].path} :: 0 <= i < |spine| ==> spine[i].path == paths[i]
  }

  /** The table that entries with these paths stand for. */
  ghost function TableOf(spine: seq<FdPathEntry>, paths: seq<string>): map<FdKey, string>
    requires |spine| == |paths|
  {
    if spine == [] then map[] else TableOf(spine[1..], paths[1..])[spine[0].Key() := paths[0]]
  }

  ghost function Without<T>(s: seq<T>, i: nat): seq<T>
    requires i < |s|
  {
    s[..i] + s[i + 1..]
  }

  lemma {:induction false} TableAt(spine: seq<FdPathEntry>, paths: seq<string>, i: nat)
    requires i < |spine| == |paths| && Distinct(spine)
    ensures spine[i].Key() in TableOf(spine, paths) && TableOf(spine, paths)[spine[i].Key()] == paths[i]
  {
    if i > 0 { TableAt(spine[1..], paths[1..], i - 1); }
  }

  lemma {:induction false} TableMisses(spine: seq<FdPathEntry>, paths: seq<string>, k: FdKey)
    requires |spine| == |paths| && forall j :: 0 <= j < |spine| ==> spine[j].Key() != k
    ensures k !in TableOf(spine, paths)
  {
    if spine != [] { TableMisses(spine[1..], paths[1..], k); }
  }

  lemma {:induction false} TableReplaced(spine: seq<FdPathEntry>, paths: seq<string>, i: nat, p: string)
    requires i < |spine| == |paths| && Distinct(spine)
    ensures TableOf(spine, paths[i := p]) == TableOf(spine, paths)[spine[i].Key() := p]
  {
    if i > 0 {
      assert paths[i := p][1..] == paths[1..][i - 1 := p];
      TableReplaced(spine[1..], paths[1..], i - 1, p);
    } else {
      assert paths[i := p][1..] == paths[1..];
    }
  }

  lemma SubtractPut<K, V>(m: map<K, V>, k0: K, v: V, k: K)
    requires k != k0
    ensures m[k0 := v] - {k} == (m - {k})[k0 := v]
  {}

  lemma DeletePut<K, V>(m: map<K, V>, k0: K, v: V, k: K)
    requires k != k0
    ensures Delete(m[k0 := v], k) == Delete(m, k)[k0 := v]
  {
    DeleteIs(m[k0 := v], k);
    DeleteIs(m, k);
    SubtractPut(m, k0, v, k);
  }

  lemma TailWithout<T>(s: seq<T>, i: nat)
    requires 0 < i < |s|
    ensures Without(s, i)[0] == s[0] && Without(s, i)[1..] == Without(s[1..], i - 1)
  {}

  lemma {:induction false} TableWithout(spine: seq<FdPathEntry>, paths: seq<string>, i: nat)
    requires i < |spine| == |paths| && Distinct(spine)
    ensures TableOf(Without(spine, i), Without(paths, i)) == Delete(TableOf(spine, paths), spine[i].Key())
  {
    if i > 0 {
      TailWithout(spine, i);
      TailWithout(paths, i);
      TableWithout(spine[1..], paths[1..], i - 1);
      DeletePut(TableOf(spine[1..], paths[1..]), spine[0].Key(), paths[0], spine[i].Key());
      var s, p := Without(spine, i), Without(paths, i);
      assert TableOf(s, p) == TableOf(s[1..], p[1..])[s[0].Key() := p[0]];
    } else {
      assert Without(spine, 0) == spine[1..] && Without(paths, 0) == paths[1..];
      TableMisses(spine[1..], paths[1..], spine[0].Key());
    }
  }

  lemma DistinctWithout(spine: seq<FdPathEntry>, i: nat)
    requires i < |spine| && Distinct(spine)
    ensures Distinct(Without(spine, i))
  {
    var r := Without(spine, i);
    assert forall j :: 0 <= j < |r| ==> r[j] == spine[if j < i then j else j + 1];
  }

  lemma WithoutAt<T>(s: seq<T>, i: nat, j: nat)
    requires i < |s| && j < |s| - 1
    ensures Without(s, i)[j] == s[if j < i then j else j + 1]
  {}

  lemma LinkedWithout(spine: seq<FdPathEntry>, i: nat, j: nat)
    requires i < |spine| && j < |spine|
    ensures At(Without(spine, i), j) == At(spine, if j < i then j else j + 1)
  {}

  class FdList {
    var fdPaths: FdPathEntry?
    ghost var spine: seq<FdPathEntry>
    ghost var paths: seq<string>

    ghost predicate Valid()
      reads this, spine
    {
      Linked(fdPaths, spine) && Distinct(spine) && PathsAre(spine, paths)
    }

    ghost function Table(): map<FdKey, string>
      requires Valid()
      reads this, spine
    {
      TableOf(spine, paths)
    }

    constructor ()
      ensures Valid() && Table() == map[] && spine == []
    {
      fdPaths, spine, paths := null, [], [];
    }

    /** The walk that lookup, set and delete have in common: the entry of a key,
        the entry before it, and its place. */
    method Walk(pid: u32, fd: int) returns (it: FdPathEntry?, prev: FdPathEntry?, ghost i: nat)
      requires Valid()
      ensures it != null ==> i < |spine| && it == spine[i] && it.Key() == FdKey(pid, fd)
                             && prev == if i == 0 then null else spine[i - 1]
      ensures it != null <==> FdKey(pid, fd) in Table()
      ensures it != null ==> Table()[FdKey(pid, fd)] == paths[i]
    {
      it, prev, i := fdPaths, null, 0;
      while it != null
        invariant i <= |spine| && it == At(spine, i) && prev == (if i == 0 then null else spine[i - 1])
        invariant forall j :: 0 <= j < i ==> spine[j].Key() != FdKey(pid, fd)
        decreases |spine| - i
      {
        if it.pid == pid && it.fd == fd {
          TableAt(spine, paths, i);
          return;
        }
        prev := it;
        it := it.next;
        i := i + 1;
      }
      TableMisses(spine, paths, FdKey(pid, fd));
    }

    method FdPathLookup(pid: u32, fd: int) returns (path: Option<string>)
      requires Valid()
      ensures path == if FdKey(pid, fd) in Table() then Some(Table()[FdKey(pid, fd)]) else None
    {
      var it, _, i := Walk(pid, fd);
      if it == null { return None; }
      return Some(it.path);
    }

    method FdPathSet(pid: u32, fd: int, path: string, alloc: bool)
      requires Valid()
      modifies this, spine
      ensures Valid() && fresh(set x | x in spine && x !in old(spine))
      ensures Table() == SetPath(old(Table()), FdKey(pid, fd), path, alloc)
    {
      if path == "" || fd < 0 { return; }
      var it, _, i := Walk(pid, fd);
      if it != null {
        TableReplaced(spine, paths, i, Clip(path));
        it.path := Clip(path);
        paths := paths[i := Clip(path)];
        return;
      }
      if !alloc { return; }
      var entry := new FdPathEntry(pid, fd, Clip(path), fdPaths);
      Pushed(entry);
    }

    /** A new entry in front. */
    method Pushed(entry: FdPathEntry)
      requires Valid() && entry.next == fdPaths && entry.Key() !in Table()
      modifies this
      ensures Valid() && spine == [entry] + old(spine)
      ensures Table() == old(Table())[entry.Key() := entry.path]
    {
      forall j | 0 <= j < |spine|
        ensures spine[j].Key() != entry.Key()
      {
        TableAt(spine, paths, j);
      }
      ghost var was := spine;
      fdPaths := entry;
      spine, paths := [entry] + was, [entry.path] + paths;
      assert spine[1..] == was && paths[1..] == old(paths);
      assert forall j {:trigger spine[j].next} :: 0 < j < |spine| ==> spine[j].next == was[j - 1].next;
    }

    method FdPathDel(pid: u32, fd: int)
      requires Valid()
      modifies this, spine
      ensures Valid() && (forall x :: x in spine ==> x in old(spine))
      ensures Table() == Delete(old(Table()), FdKey(pid, fd))
    {
      var it, prev, i := Walk(pid, fd);
      if it == null {
        DeleteAbsent(Table(), FdKey(pid, fd));
        return;
      }
      TableWithout(spine, paths, i);
      Unlink(it, prev, i);
    }

    /** Make the link that leads to an entry lead past it. */
    method Unlink(it: FdPathEntry, prev: FdPathEntry?, ghost i: nat)
      requires Valid() && i < |spine| && it == spine[i] && prev == if i == 0 then null else spine[i - 1]
      modifies this, spine`next
      ensures Valid() && spine == Without(old(spine), i) && paths == Without(old(paths), i)
    {
      ghost var was, left, leftPaths := spine, Without(spine, i), Without(paths, i);
      DistinctWithout(was, i);
      LinkedWithout(was, i, 0);
      if prev == null { fdPaths := it.next; } else { prev.next := it.next; }
      forall j: nat | j < |left|
        ensures left[j].next == At(left, j + 1) && left[j].path == leftPaths[j]
      {
        WithoutAt(was, i, j);
        WithoutAt(paths, i, j);
        LinkedWithout(was, i, j + 1);
      }
      spine, paths := left, leftPaths;
    }

    /** `freed` lists the entries in the order they are released. */
    method FdPathFreeAll() returns (ghost freed: seq<FdPathEntry>)
      requires Valid()
      modifies this
      ensures Valid() && Table() == map[] && fdPaths == null
      ensures freed == old(spine) && Distinct(freed)
    {
      freed := [];
      var it := fdPaths;
      while it != null
        invariant |freed| <= |spine| && freed == spine[..|freed|] && it == At(spine, |freed|)
        decreases |spine| - |freed|
      {
        var next := it.next;
        freed := freed + [it];
        it := next;
      }
      fdPaths := null;
      spine, paths := [], [];
    }

    /** What the handler prints as the path, and what it records. */
    method HandleEvent(e: IoEvent, alloc: bool) returns (pathDisp: string)
      requires Valid()
      modifies this, spine
      ensures Valid() && fresh(set x | x in spine && x !in old(spine))
      ensures pathDisp == Shown(old(Table()), e)
      ensures Table() == TableNext(old(Table()), e, alloc)
    {
      pathDisp := e.fname;
      if (e.kind == IO_OPEN || e.kind == IO_OPENAT) && e.ret >= 0 {
        FdPathSet(e.pid, e.ret, e.fname, alloc);
      }
      var fd := ParseFdFromArgs(e.args);
      if fd >= 0 && FdBased(e.kind) {
        var mapped := FdPathLookup(e.pid, fd);
        if mapped.Some? { pathDisp := mapped.value; }
      }
      if e.kind == IO_CLOSE && fd >= 0 { FdPathDel(e.pid, fd); }
    }
  }
}

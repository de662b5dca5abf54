/** The index from mapped addresses to devices: what its packed key keeps apart,
    and whose device a munmap sees. */
module VmaIndex {
  import opened Options
  import opened BpfMap
  import opened Tracker
  import opened TrackerRuns
  import opened CallStack
  import opened CallReuse
  import opened VfsProbes

  // ---------------------------------------------------------------------
  // The packed key
  // ---------------------------------------------------------------------

  lemma EqualKeysEqualParts(p: Pid, a: bv64, q: Pid, b: bv64)
    requires Pack(p, a) == Pack(q, b)
    ensures a & 0xFFFF_FFFF == b & 0xFFFF_FFFF && p | (a >> 32) == q | (b >> 32)
  {}

  lemma EqualPartsEqualKeys(p: Pid, a: bv64, q: Pid, b: bv64)
    requires a & 0xFFFF_FFFF == b & 0xFFFF_FFFF && p | (a >> 32) == q | (b >> 32)
    ensures Pack(p, a) == Pack(q, b)
  {}

  /** Two sites share a packed key exactly when their low 32 page bits agree and
      so do process number and high page bits joined together. */
  lemma PackCollides(p: Pid, a: bv64, q: Pid, b: bv64)
    ensures Pack(p, a) == Pack(q, b) <==>
              a & 0xFFFF_FFFF == b & 0xFFFF_FFFF && p | (a >> 32) == q | (b >> 32)
  {
    if Pack(p, a) == Pack(q, b) {
      EqualKeysEqualParts(p, a, q, b);
    } else if a & 0xFFFF_FFFF == b & 0xFFFF_FFFF && p | (a >> 32) == q | (b >> 32) {
      EqualPartsEqualKeys(p, a, q, b);
    }
  }

  /** Below 2^44 the packed key tells all sites apart. */
  lemma PackIsInjective(p: Pid, a: bv64, q: Pid, b: bv64)
    requires a <= 0xFFFF_FFFF && b <= 0xFFFF_FFFF && Pack(p, a) == Pack(q, b)
    ensures p == q && a == b
  {}

  /** From 2^44 on every mapping has a twin below it under the same key: the high
      bits of its page are lost among those of the process number. */
  lemma HighSiteHasTwin(p: Pid, page: bv64) returns (q: Pid)
    requires 0xFFFF_FFFF < page < 0x10_0000_0000_0000
    ensures KeyAt(Site(q, page & 0xFFFF_FFFF)) == KeyAt(Site(p, page)) && page & 0xFFFF_FFFF != page
  {
    TwinBits(p, page);
    q := p | (page >> 32);
  }

  lemma TwinBits(p: Pid, page: bv64)
    requires 0xFFFF_FFFF < page < 0x10_0000_0000_0000
    ensures p | (page >> 32) <= 0xFFFF_FFFF
    ensures Pack(p | (page >> 32), page & 0xFFFF_FFFF) == Pack(p, page)
    ensures page & 0xFFFF_FFFF != page
  {}

  // ---------------------------------------------------------------------
  // The index as a history of keys
  // ---------------------------------------------------------------------

  ghost function SiteTrace(su: Setup, tr: seq<VfsProbe>): (steps: seq<Step<Site, u32, ()>>)
    ensures |steps| == |tr|
  {
    seq(|tr|, i requires 0 <= i < |tr| => SiteStep(su, MachineRun(su, tr, i), tr[i]))
  }

  lemma SiteTraceAt(su: Setup, tr: seq<VfsProbe>, i: nat)
    requires i < |tr|
    ensures SiteTrace(su, tr)[i] == SiteStep(su, MachineRun(su, tr, i), tr[i])
  {}

  const SITE_CONFIG: Config := Config(Any, MAP_ENTRIES, 0)

  /** Every address mapped or unmapped is below 2^44. */
  ghost predicate LowAddresses(tr: seq<VfsProbe>) {
    forall i :: 0 <= i < |tr| ==>
      && (tr[i].MmapExit? && tr[i].landed.Some? ==> tr[i].landed.value.page <= 0xFFFF_FFFF)
      && (tr[i].MunmapEnter? ==> tr[i].site.page <= 0xFFFF_FFFF)
  }

  lemma LowPageIsLowAddress(id: Thread, addr: bv64)
    ensures SiteOf(id, addr).page <= 0xFFFF_FFFF <==> addr < 0x1000_0000_0000
  {}

  /** The same steps under packed keys. */
  ghost function KeyTrace(st: seq<Step<Site, u32, ()>>): (kt: seq<Step<VmaKey, u32, ()>>)
    ensures |kt| == |st|
    ensures forall i :: 0 <= i < |st| ==> kt[i] == UnderKey(KeyAt(st[i].key), st[i])
  {
    seq(|st|, i requires 0 <= i < |st| => UnderKey(KeyAt(st[i].key), st[i]))
  }

  ghost function UnderKey<K, L, D, R>(l: L, step: Step<K, D, R>): (r: Step<L, D, R>)
    ensures SameButKey(step, r) && r.key == l
  {
    match step
    case Start(_, data, pass, now) => Start(l, data, pass, now)
    case Finish(_, info, ring, now) => Finish(l, info, ring, now)
  }

  ghost predicate HoldsData<K, V>(pending: map<K, Rec<V>>, m: map<K, V>) {
    && m.Keys == pending.Keys
    && forall k :: k in m ==> m[k] == pending[k].data
  }

  lemma FileNextTracks<L>(s: State<L, u32, ()>, m: map<L, u32>, l: L, site: Step<Site, u32, ()>)
    requires HoldsData(s.pending, m)
    ensures HoldsData(Next(SITE_CONFIG, s, UnderKey(l, site)).pending, FileNext(m, l, site))
  {
    assert |m| == |m.Keys| == |s.pending|;
  }

  ghost function IndexRun(st: seq<Step<Site, u32, ()>>, n: nat): map<VmaKey, u32>
    requires n <= |st|
  {
    if n == 0 then map[] else VmaNext(IndexRun(st, n - 1), st[n - 1])
  }

  ghost predicate Indexes(su: Setup, tr: seq<VfsProbe>, n: nat)
    requires n <= |tr|
  {
    MachineRun(su, tr, n).vma == IndexRun(SiteTrace(su, tr), n)
  }

  lemma IndexesStep(su: Setup, tr: seq<VfsProbe>, n: nat)
    requires n < |tr| && Indexes(su, tr, n)
    ensures Indexes(su, tr, n + 1)
  {
    SiteTraceAt(su, tr, n);
    MachineNextParts(su, MachineRun(su, tr, n), tr[n]);
  }

  lemma {:induction false} MachineIndexes(su: Setup, tr: seq<VfsProbe>, n: nat)
    requires n <= |tr|
    ensures Indexes(su, tr, n)
  {
    for i := 0 to n
      invariant Indexes(su, tr, i)
    {
      IndexesStep(su, tr, i);
    }
  }

  lemma IndexTracksStep(st: seq<Step<Site, u32, ()>>, n: nat)
    requires n < |st| && HoldsData(Run(SITE_CONFIG, KeyTrace(st), n).pending, IndexRun(st, n))
    ensures HoldsData(Run(SITE_CONFIG, KeyTrace(st), n + 1).pending, IndexRun(st, n + 1))
  {
    FileNextTracks(Run(SITE_CONFIG, KeyTrace(st), n), IndexRun(st, n), KeyAt(st[n].key), st[n]);
  }

  lemma IndexTracks(st: seq<Step<Site, u32, ()>>, n: nat)
    requires n <= |st|
    ensures HoldsData(Run(SITE_CONFIG, KeyTrace(st), n).pending, IndexRun(st, n))
  {
    for i := 0 to n
      invariant HoldsData(Run(SITE_CONFIG, KeyTrace(st), i).pending, IndexRun(st, i))
    {
      IndexTracksStep(st, i);
    }
  }

  /** For every run and every key, the index holds the device of the latest mmap
      stored under that key since the key's last munmap, and nothing else. */
  lemma IndexIsKeyHistory(st: seq<Step<Site, u32, ()>>, n: nat, k: VmaKey)
    requires n <= |st|
    ensures k in IndexRun(st, n) <==> exists i :: Source(SITE_CONFIG, KeyTrace(st), i, n, k)
    ensures forall i :: Source(SITE_CONFIG, KeyTrace(st), i, n, k) ==>
              k in IndexRun(st, n) && IndexRun(st, n)[k] == st[i].data
  {
    IndexTracks(st, n);
    PendingIsSource(SITE_CONFIG, KeyTrace(st), n, k);
  }

  // ---------------------------------------------------------------------
  // Whose entry a munmap meets
  // ---------------------------------------------------------------------

  /** Step i is a mmap whose device goes into the index. */
  ghost predicate Stored(st: seq<Step<Site, u32, ()>>, i: int) {
    0 <= i < |st| && Offered(SITE_CONFIG, KeyTrace(st), i, KeyAt(st[i].key))
  }

  ghost predicate Touches(st: seq<Step<Site, u32, ()>>, m: int) {
    0 <= m < |st| && (Stored(st, m) || st[m].Finish?)
  }

  /** Mmap i of site s is its latest, stored and not unmapped by n. */
  ghost predicate OwnMapping(st: seq<Step<Site, u32, ()>>, i: int, n: int, s: Site) {
    && 0 <= i < n <= |st| && st[i].key == s && Stored(st, i)
    && forall m :: i < m < n && st[m].key == s ==> !Touches(st, m)
  }

  /** Another site under the same packed key. */
  ghost predicate Twins(s: Site, t: Site) { s != t && KeyAt(s) == KeyAt(t) }

  /** A twin is mapped or unmapped after mmap i. */
  ghost predicate Disturbed(st: seq<Step<Site, u32, ()>>, i: int, n: int, s: Site) {
    exists m :: 0 <= i < m < n <= |st| && Twins(s, st[m].key) && Touches(st, m)
  }

  /** A twin is mapped and no munmap under its key has followed. */
  ghost predicate Leftover(st: seq<Step<Site, u32, ()>>, n: int, s: Site) {
    exists m :: 0 <= m < n <= |st| && Twins(s, st[m].key) && Stored(st, m)
                && !FinishBetween(KeyTrace(st), m, n, KeyAt(s))
  }

  /** The index answers for site s as if every site had its own key: with the
      mapping of s if it has one, with nothing if it has none. */
  ghost predicate AnswersFor(st: seq<Step<Site, u32, ()>>, n: nat, s: Site) {
    && (forall i :: OwnMapping(st, i, n, s) ==> Source(SITE_CONFIG, KeyTrace(st), i, n, KeyAt(s)))
    && forall i :: Source(SITE_CONFIG, KeyTrace(st), i, n, KeyAt(s)) ==> OwnMapping(st, i, n, s)
  }

  lemma OfferedIsStored(st: seq<Step<Site, u32, ()>>, i: nat, k: VmaKey)
    requires i < |st|
    ensures Offered(SITE_CONFIG, KeyTrace(st), i, k) <==> Stored(st, i) && KeyAt(st[i].key) == k
    ensures FinishOf(KeyTrace(st), i, k) <==> st[i].Finish? && KeyAt(st[i].key) == k
  {}

  /** The site's own mapping is what its key holds, exactly when no twin came
      after it. */
  lemma OwnMappingIsSourceIff(st: seq<Step<Site, u32, ()>>, i: int, n: nat, s: Site)
    requires n <= |st| && OwnMapping(st, i, n, s)
    ensures Source(SITE_CONFIG, KeyTrace(st), i, n, KeyAt(s)) <==> !Disturbed(st, i, n, s)
  {
    var k, kt := KeyAt(s), KeyTrace(st);
    OfferedIsStored(st, i, k);
    if !Disturbed(st, i, n, s) {
      forall m | i < m < n
        ensures !Offered(SITE_CONFIG, kt, m, k) && !FinishOf(kt, m, k)
      {
        OfferedIsStored(st, m, k);
        assert Twins(s, st[m].key) ==> !Touches(st, m);
      }
    } else {
      var m :| i < m < n && Twins(s, st[m].key) && Touches(st, m);
      OfferedIsStored(st, m, k);
    }
  }

  /** What a key holds is the mapping of the site that was asked for, or of a twin
      left over. */
  lemma SourceIsOwnOrTwins(st: seq<Step<Site, u32, ()>>, i: int, n: nat, s: Site)
    requires n <= |st| && Source(SITE_CONFIG, KeyTrace(st), i, n, KeyAt(s))
    ensures st[i].key == s ==> OwnMapping(st, i, n, s)
    ensures st[i].key != s ==> Twins(s, st[i].key) && Leftover(st, n, s)
  {
    var k, kt := KeyAt(s), KeyTrace(st);
    OfferedIsStored(st, i, k);
    forall m | i < m < n && st[m].key == s
      ensures !Touches(st, m)
    {
      OfferedIsStored(st, m, k);
    }
  }

  lemma LeftoverIsMet(st: seq<Step<Site, u32, ()>>, n: nat, s: Site)
    requires n <= |st| && Leftover(st, n, s)
    ensures exists i :: Source(SITE_CONFIG, KeyTrace(st), i, n, KeyAt(s))
  {
    var k, kt := KeyAt(s), KeyTrace(st);
    var m :| 0 <= m < n && Twins(s, st[m].key) && Stored(st, m) && !FinishBetween(kt, m, n, k);
    OfferedIsStored(st, m, k);
    StaysPending(SITE_CONFIG, kt, m, n, k);
    PendingIsSource(SITE_CONFIG, kt, n, k);
  }

  ghost predicate HasMapping(st: seq<Step<Site, u32, ()>>, n: int, s: Site) {
    exists i :: OwnMapping(st, i, n, s)
  }

  /** No twin came after the site's own mapping or, where it has none, is left
      over. */
  ghost predicate Undisturbed(st: seq<Step<Site, u32, ()>>, n: int, s: Site) {
    && (forall i :: OwnMapping(st, i, n, s) ==> !Disturbed(st, i, n, s))
    && (!HasMapping(st, n, s) ==> !Leftover(st, n, s))
  }

  /** In every run the index answers rightly for a site exactly when it is
      undisturbed by twins. */
  lemma AnswersIffUndisturbed(st: seq<Step<Site, u32, ()>>, n: nat, s: Site)
    requires n <= |st|
    ensures AnswersFor(st, n, s) <==> Undisturbed(st, n, s)
  {
    var k, kt := KeyAt(s), KeyTrace(st);
    forall i | OwnMapping(st, i, n, s)
      ensures Source(SITE_CONFIG, kt, i, n, k) <==> !Disturbed(st, i, n, s)
    {
      OwnMappingIsSourceIff(st, i, n, s);
    }
    if Undisturbed(st, n, s) {
      forall i | Source(SITE_CONFIG, kt, i, n, k)
        ensures OwnMapping(st, i, n, s)
      {
        SourceIsOwnOrTwins(st, i, n, s);
        if HasMapping(st, n, s) {
          var o :| OwnMapping(st, o, n, s);
          SourceIsUnique(SITE_CONFIG, kt, i, o, n, k);
        }
      }
    }
    if AnswersFor(st, n, s) && Leftover(st, n, s) {
      LeftoverIsMet(st, n, s);
      var i :| Source(SITE_CONFIG, kt, i, n, k);
      assert OwnMapping(st, i, n, s);
    }
  }

  /** In every run of either tool, wherever mappings lie, a munmap sees the device
      of the latest tracked, successful and stored mmap under its packed key since
      that key's last munmap. That is the device of its own site's mapping, or
      none where it has none, exactly when the site is undisturbed by twins. */
  lemma MunmapSeesLatestMmap(su: Setup, tr: seq<VfsProbe>, n: nat)
    requires n < |tr| && tr[n].MunmapEnter?
    ensures var s, st, vma := tr[n].site, SiteTrace(su, tr), MachineRun(su, tr, n).vma;
            && (KeyAt(s) in vma <==> exists i :: Source(SITE_CONFIG, KeyTrace(st), i, n, KeyAt(s)))
            && (forall i :: Source(SITE_CONFIG, KeyTrace(st), i, n, KeyAt(s)) ==>
                  KeyAt(s) in vma && vma[KeyAt(s)] == st[i].data)
            && (AnswersFor(st, n, s) <==> Undisturbed(st, n, s))
  {
    MachineIndexes(su, tr, n);
    IndexIsKeyHistory(SiteTrace(su, tr), n, KeyAt(tr[n].site));
    AnswersIffUndisturbed(SiteTrace(su, tr), n, tr[n].site);
  }

  // ---------------------------------------------------------------------
  // The index, over the probes
  // ---------------------------------------------------------------------

  /** Probe m is a mmap's exit that files its record's device under k. */
  ghost predicate Maps(su: Setup, tr: seq<VfsProbe>, m: nat, k: VmaKey)
    requires m < |tr|
  {
    var s := MachineRun(su, tr, m);
    && tr[m].MmapExit? && tr[m].landed.Some? && KeyAt(tr[m].landed.value) == k
    && OpKey(tr[m].id, if su.tool == Iosnoop then 45 else 0) in s.track.pending
    && (|s.vma| < 4096 || k in s.vma)
  }

  ghost predicate Unmaps(tr: seq<VfsProbe>, m: nat, k: VmaKey)
    requires m < |tr|
  {
    tr[m].MunmapEnter? && KeyAt(tr[m].site) == k
  }

  ghost function MappedDev(su: Setup, tr: seq<VfsProbe>, m: nat, k: VmaKey): u32
    requires m < |tr| && Maps(su, tr, m, k)
  {
    MachineRun(su, tr, m).track.pending[OpKey(tr[m].id, if su.tool == Iosnoop then 45 else 0)].data.dev
  }

  /** Mmap m is the latest under k before n, and k has not been unmapped since. */
  ghost predicate LatestMap(su: Setup, tr: seq<VfsProbe>, m: nat, n: nat, k: VmaKey) {
    && m < n <= |tr| && Maps(su, tr, m, k)
    && forall x :: m < x < n ==> !Maps(su, tr, x, k) && !Unmaps(tr, x, k)
  }

  lemma IndexStep(su: Setup, tr: seq<VfsProbe>, n: nat, k: VmaKey)
    requires n < |tr|
    ensures var a, b := MachineRun(su, tr, n).vma, MachineRun(su, tr, n + 1).vma;
            && (Maps(su, tr, n, k) ==> k in b && b[k] == MappedDev(su, tr, n, k))
            && (Unmaps(tr, n, k) ==> k !in b)
            && (!Maps(su, tr, n, k) && !Unmaps(tr, n, k) ==> (k in b <==> k in a) && (k in a ==> b[k] == a[k]))
  {
    MachineNextParts(su, MachineRun(su, tr, n), tr[n]);
  }

  ghost predicate HoldsLatest(su: Setup, tr: seq<VfsProbe>, n: nat, k: VmaKey)
    requires n <= |tr|
  {
    var vma := MachineRun(su, tr, n).vma;
    && (forall m: nat :: LatestMap(su, tr, m, n, k) ==> k in vma && vma[k] == MappedDev(su, tr, m, k))
    && (k in vma ==> exists m: nat :: LatestMap(su, tr, m, n, k))
  }

  lemma MapIsLatest(su: Setup, tr: seq<VfsProbe>, m: nat, n: nat, k: VmaKey)
    requires n < |tr| && Maps(su, tr, n, k)
    ensures LatestMap(su, tr, m, n + 1, k) <==> m == n
  {}

  lemma LatestStays(su: Setup, tr: seq<VfsProbe>, m: nat, n: nat, k: VmaKey)
    requires n < |tr| && !Maps(su, tr, n, k)
    ensures LatestMap(su, tr, m, n + 1, k) <==> LatestMap(su, tr, m, n, k) && !Unmaps(tr, n, k)
  {}

  /** What is latest after probe n: that probe if it maps k, else what was latest
      before it, unless it unmaps k. */
  lemma LatestStep(su: Setup, tr: seq<VfsProbe>, m: nat, n: nat, k: VmaKey)
    requires n < |tr|
    ensures LatestMap(su, tr, m, n + 1, k) <==>
              if Maps(su, tr, n, k) then m == n else LatestMap(su, tr, m, n, k) && !Unmaps(tr, n, k)
  {
    if Maps(su, tr, n, k) { MapIsLatest(su, tr, m, n, k); } else { LatestStays(su, tr, m, n, k); }
  }

  lemma LatestIsHeld(su: Setup, tr: seq<VfsProbe>, m: nat, n: nat, next: nat, k: VmaKey)
    requires n < |tr| && next == n + 1 && HoldsLatest(su, tr, n, k) && LatestMap(su, tr, m, next, k)
    ensures k in MachineRun(su, tr, next).vma && MachineRun(su, tr, next).vma[k] == MappedDev(su, tr, m, k)
  {
    LatestStep(su, tr, m, n, k);
    IndexStep(su, tr, n, k);
  }

  lemma HoldsLatestStep(su: Setup, tr: seq<VfsProbe>, n: nat, next: nat, k: VmaKey)
    requires n < |tr| && next == n + 1 && HoldsLatest(su, tr, n, k)
    ensures HoldsLatest(su, tr, next, k)
  {
    var vma := MachineRun(su, tr, next).vma;
    forall m: nat | LatestMap(su, tr, m, next, k)
      ensures k in vma && vma[k] == MappedDev(su, tr, m, k)
    {
      LatestIsHeld(su, tr, m, n, next, k);
    }
    if k in vma { var m := HasLatest(su, tr, n, k); }
  }

  lemma HasLatest(su: Setup, tr: seq<VfsProbe>, n: nat, k: VmaKey) returns (m: nat)
    requires n < |tr| && HoldsLatest(su, tr, n, k) && k in MachineRun(su, tr, n + 1).vma
    ensures LatestMap(su, tr, m, n + 1, k)
  {
    IndexStep(su, tr, n, k);
    m := n;
    if !Maps(su, tr, n, k) {
      m :| LatestMap(su, tr, m, n, k);
    }
    LatestStep(su, tr, m, n, k);
  }

  lemma IndexHoldsLatest(su: Setup, tr: seq<VfsProbe>, n: nat, k: VmaKey)
    requires n <= |tr|
    ensures HoldsLatest(su, tr, n, k)
  {
    for i := 0 to n
      invariant HoldsLatest(su, tr, i, k)
    {
      HoldsLatestStep(su, tr, i, i + 1, k);
    }
  }

  /** In every run, a munmap gets the device of the latest mmap under its packed key
      since that key's last munmap, and device zero when there is none; and it leaves
      nothing under the key. */
  lemma MunmapGetsLatest(su: Setup, tr: seq<VfsProbe>, n: nat)
    requires n < |tr| && tr[n].MunmapEnter?
    ensures var k := KeyAt(tr[n].site);
            && (forall m: nat :: LatestMap(su, tr, m, n, k) ==> DevAt(MachineRun(su, tr, n).vma, tr[n].site) == MappedDev(su, tr, m, k))
            && ((!exists m: nat :: LatestMap(su, tr, m, n, k)) ==> DevAt(MachineRun(su, tr, n).vma, tr[n].site) == 0)
            && k !in MachineRun(su, tr, n + 1).vma
  {
    IndexHoldsLatest(su, tr, n, KeyAt(tr[n].site));
    IndexStep(su, tr, n, KeyAt(tr[n].site));
  }

  /** Mmap m put site s into the index, and neither another mmap that did nor a
      munmap of s followed before n. */
  ghost predicate StillMapped(su: Setup, tr: seq<VfsProbe>, m: nat, n: nat, s: Site) {
    && m < n <= |tr| && Maps(su, tr, m, KeyAt(s)) && tr[m].landed == Some(s)
    && forall x :: m < x < n ==>
         && !(Maps(su, tr, x, KeyAt(s)) && tr[x].landed == Some(s))
         && !(tr[x].MunmapEnter? && tr[x].site == s)
  }

  lemma LowKeysAreSites(tr: seq<VfsProbe>, m: nat, s: Site)
    requires m < |tr| && LowAddresses(tr) && s.page <= 0xFFFF_FFFF
    ensures tr[m].MmapExit? && tr[m].landed.Some? && KeyAt(tr[m].landed.value) == KeyAt(s) ==> tr[m].landed == Some(s)
    ensures tr[m].MunmapEnter? && KeyAt(tr[m].site) == KeyAt(s) ==> tr[m].site == s
  {
    if tr[m].MmapExit? && tr[m].landed.Some? && KeyAt(tr[m].landed.value) == KeyAt(s) {
      PackIsInjective(tr[m].landed.value.pid, tr[m].landed.value.page, s.pid, s.page);
    }
    if tr[m].MunmapEnter? && KeyAt(tr[m].site) == KeyAt(s) {
      PackIsInjective(tr[m].site.pid, tr[m].site.page, s.pid, s.page);
    }
  }

  lemma LatestIsStillMapped(su: Setup, tr: seq<VfsProbe>, m: nat, n: nat, s: Site)
    requires n <= |tr| && LowAddresses(tr) && s.page <= 0xFFFF_FFFF
    ensures LatestMap(su, tr, m, n, KeyAt(s)) <==> StillMapped(su, tr, m, n, s)
  {
    forall x | 0 <= x < |tr|
      ensures Maps(su, tr, x, KeyAt(s)) ==> tr[x].landed == Some(s)
      ensures Unmaps(tr, x, KeyAt(s)) <==> tr[x].MunmapEnter? && tr[x].site == s
    {
      LowKeysAreSites(tr, x, s);
    }
  }

  // ---------------------------------------------------------------------
  // Below 2^44
  // ---------------------------------------------------------------------

  ghost predicate LowSites(st: seq<Step<Site, u32, ()>>) {
    forall i :: 0 <= i < |st| ==> st[i].key.page <= 0xFFFF_FFFF
  }

  lemma SitesAreLow(su: Setup, tr: seq<VfsProbe>)
    requires LowAddresses(tr)
    ensures LowSites(SiteTrace(su, tr))
  {
    forall i | 0 <= i < |tr|
      ensures SiteTrace(su, tr)[i].key.page <= 0xFFFF_FFFF
    {
      SiteTraceAt(su, tr, i);
    }
  }

  /** Below 2^44 that is always so. */
  lemma SiteNamesAgree(st: seq<Step<Site, u32, ()>>)
    requires LowSites(st)
    ensures NamesAgree(MAP_ENTRIES, st, KeyTrace(st))
  {
    var kt := KeyTrace(st);
    forall i, j | 0 <= i < |st| && 0 <= j < |st| && KeyAt(st[i].key) == KeyAt(st[j].key)
      ensures st[i].key == st[j].key
    {
      PackIsInjective(st[i].key.pid, st[i].key.page, st[j].key.pid, st[j].key.page);
    }
    forall n | 0 <= n < |st|
      ensures NamesAgreeAt(MAP_ENTRIES, st, kt, n)
    {
      FunctionNamesAgree(MAP_ENTRIES, s => KeyAt(s), st, kt, n);
    }
  }

  lemma KeyTraceSameSteps(st: seq<Step<Site, u32, ()>>)
    ensures SameButKeys(st, KeyTrace(st))
  {}

  lemma KeysKeepSites(st: seq<Step<Site, u32, ()>>, kt: seq<Step<VmaKey, u32, ()>>, n: nat)
    requires n < |st| && SameButKeys(st, kt) && NamesAgree(MAP_ENTRIES, st, kt)
    ensures var k, l, p, q := st[n].key, kt[n].key, Run(SITE_CONFIG, st, n).pending, Run(SITE_CONFIG, kt, n).pending;
            (k in p <==> l in q) && (k in p ==> q[l] == p[k])
  {
    RenamedLookup(SITE_CONFIG, SITE_CONFIG, st, kt, n);
  }

  /** While no two sites in the index share a packed key, it agrees with a map
      from sites to devices, step by step and with the same capacity. */
  lemma {:induction false} IndexIsHistory(st: seq<Step<Site, u32, ()>>, n: nat)
    requires n < |st| && NamesAgree(MAP_ENTRIES, st, KeyTrace(st))
    ensures var s, vma := st[n].key, IndexRun(st, n);
            && (KeyAt(s) in vma <==> exists i :: Source(SITE_CONFIG, st, i, n, s))
            && (forall i :: Source(SITE_CONFIG, st, i, n, s) ==> KeyAt(s) in vma && vma[KeyAt(s)] == st[i].data)
  {
    KeyTraceSameSteps(st);
    KeysKeepSites(st, KeyTrace(st), n);
    IndexTracks(st, n);
    PendingIsSource(SITE_CONFIG, st, n, st[n].key);
  }

  lemma LowSitesUndisturbed(st: seq<Step<Site, u32, ()>>, n: nat, s: Site)
    requires n <= |st| && LowSites(st) && s.page <= 0xFFFF_FFFF
    ensures Undisturbed(st, n, s)
  {
    forall m | 0 <= m < |st|
      ensures !Twins(s, st[m].key)
    {
      if KeyAt(s) == KeyAt(st[m].key) {
        PackIsInjective(s.pid, s.page, st[m].key.pid, st[m].key.page);
      }
    }
  }

  /** With mapped addresses below 2^44 there are no twins: a munmap sees the
      device of the latest stored mmap of its process at its start address not
      unmapped since, and device zero when there is none. */
  lemma LowMunmapSeesOwnMmap(su: Setup, tr: seq<VfsProbe>, n: nat)
    requires n < |tr| && LowAddresses(tr) && tr[n].MunmapEnter?
    ensures var s, dev := tr[n].site, DevAt(MachineRun(su, tr, n).vma, tr[n].site);
            && (forall m: nat :: StillMapped(su, tr, m, n, s) ==> dev == MappedDev(su, tr, m, KeyAt(s)))
            && ((!exists m: nat :: StillMapped(su, tr, m, n, s)) ==> dev == 0)
    ensures var s, st, vma := tr[n].site, SiteTrace(su, tr), MachineRun(su, tr, n).vma;
            && (KeyAt(s) in vma <==> HasMapping(st, n, s))
            && (forall i :: OwnMapping(st, i, n, s) ==> KeyAt(s) in vma && vma[KeyAt(s)] == st[i].data)
  {
    LowByProbes(su, tr, n);
    LowBySites(su, tr, n);
  }

  lemma LowByProbes(su: Setup, tr: seq<VfsProbe>, n: nat)
    requires n < |tr| && LowAddresses(tr) && tr[n].MunmapEnter?
    ensures var s, dev := tr[n].site, DevAt(MachineRun(su, tr, n).vma, tr[n].site);
            && (forall m: nat :: StillMapped(su, tr, m, n, s) ==> dev == MappedDev(su, tr, m, KeyAt(s)))
            && ((!exists m: nat :: StillMapped(su, tr, m, n, s)) ==> dev == 0)
  {
    var s := tr[n].site;
    MunmapGetsLatest(su, tr, n);
    forall m: nat
      ensures LatestMap(su, tr, m, n, KeyAt(s)) <==> StillMapped(su, tr, m, n, s)
    {
      LatestIsStillMapped(su, tr, m, n, s);
    }
  }

  lemma LowBySites(su: Setup, tr: seq<VfsProbe>, n: nat)
    requires n < |tr| && LowAddresses(tr) && tr[n].MunmapEnter?
    ensures var s, st, vma := tr[n].site, SiteTrace(su, tr), MachineRun(su, tr, n).vma;
            && (KeyAt(s) in vma <==> HasMapping(st, n, s))
            && (forall i :: OwnMapping(st, i, n, s) ==> KeyAt(s) in vma && vma[KeyAt(s)] == st[i].data)
  {
    var st := SiteTrace(su, tr);
    SitesAreLow(su, tr);
    SiteTraceAt(su, tr, n);
    LowSitesUndisturbed(st, n, tr[n].site);
    MunmapSeesLatestMmap(su, tr, n);
  }

  // ---------------------------------------------------------------------
  // Above 2^44
  // ---------------------------------------------------------------------

  /** Two related processes map a file each at the same address, then unmap. */
  ghost function SharedAddressRun(devA: u32, devB: u32, who: Caller, ret: bv64): seq<VfsProbe> {
    var a, b := Thread(1000, 1000), Thread(1001, 1001);
    [Enter(a, Op(IO_MMAP, devA, "", ""), 0), MmapExit(a, Landed(a, ret), 0, who, true, 0),
     Enter(b, Op(IO_MMAP, devB, "", ""), 0), MmapExit(b, Landed(b, ret), 0, who, true, 0),
     MunmapEnter(a, SiteOf(a, ret), "", 0), MunmapEnter(b, SiteOf(b, ret), "", 0)]
  }

  /** At a high address the second mmap takes the first one's entry, so the first
      process's munmap gets the second one's device and the second's gets none. */
  lemma RelatedProcessesCollide(tool: Tool, devA: u32, devB: u32, who: Caller, ret: bv64)
    requires ret == 0x7F12_3456_7000
    ensures
      var su, tr := Setup(tool, MountFilter(false, 0, 0), 0), SharedAddressRun(devA, devB, who, ret);
      && tr[4].site != tr[5].site
      && DevAt(MachineRun(su, tr, 4).vma, tr[4].site) == devB
      && KeyAt(tr[5].site) !in MachineRun(su, tr, 5).vma
  {
    var su, tr := Setup(tool, MountFilter(false, 0, 0), 0), SharedAddressRun(devA, devB, who, ret);
    SameHighKey(ret);
    TwoMmaps(su, tr, devA, devB);
    MachineNextParts(su, MachineRun(su, tr, 4), tr[4]);
  }

  lemma TwoMmaps(su: Setup, tr: seq<VfsProbe>, devA: u32, devB: u32)
    requires |tr| > 4 && su.filter == MountFilter(false, 0, 0)
    requires MmapsAt(tr, 0, devA) && MmapsAt(tr, 2, devB)
    requires KeyAt(tr[1].landed.value) == KeyAt(tr[3].landed.value)
    ensures Idle(su, tr, 4, map[KeyAt(tr[1].landed.value) := devB])
  {
    var k := KeyAt(tr[1].landed.value);
    var a, b := map[k := devA], map[k := devB];
    StartsIdle(su, tr);
    assert map[][k := devA] == a;
    MmapFiles(su, tr, 0, devA, map[]);
    assert a[k := devB] == b;
    MmapFiles(su, tr, 2, devB, a);
  }

  /** No call is in flight, and this is the index. */
  ghost predicate Idle(su: Setup, tr: seq<VfsProbe>, n: nat, vma: map<VmaKey, u32>)
    requires n <= |tr|
  {
    MachineRun(su, tr, n).track.pending == map[] && MachineRun(su, tr, n).vma == vma
  }

  lemma StartsIdle(su: Setup, tr: seq<VfsProbe>)
    ensures Idle(su, tr, 0, map[])
  {}

  /** A thread maps a file on dev. */
  ghost predicate MmapsAt(tr: seq<VfsProbe>, n: nat, dev: u32) {
    && n + 1 < |tr| && tr[n].Enter? && tr[n].op.kind == IO_MMAP && tr[n].op.dev == dev
    && tr[n + 1].MmapExit? && tr[n + 1].id == tr[n].id && tr[n + 1].landed.Some?
  }

  lemma SameHighKey(ret: bv64)
    requires ret == 0x7F12_3456_7000
    ensures KeyAt(SiteOf(Thread(1000, 1000), ret)) == KeyAt(SiteOf(Thread(1001, 1001), ret))
    ensures Positive(ret)
  {}

  lemma MmapFiles(su: Setup, tr: seq<VfsProbe>, n: nat, dev: u32, vma: map<VmaKey, u32>)
    requires MmapsAt(tr, n, dev) && su.filter == MountFilter(false, 0, 0)
    requires Idle(su, tr, n, vma) && (KeyAt(tr[n + 1].landed.value) in vma || |vma| < MAP_ENTRIES)
    ensures Idle(su, tr, n + 2, vma[KeyAt(tr[n + 1].landed.value) := dev])
  {
    var k := KeyOf(su, tr[n].id, IO_MMAP);
    var m1 := MachineRun(su, tr, n + 1);
    MachineNextParts(su, MachineRun(su, tr, n), tr[n]);
    assert m1.track.pending == map[k := Rec(tr[n].op, Stamp(su, tr[n].now))] && m1.vma == vma;
    MachineNextParts(su, m1, tr[n + 1]);
    assert map[k := Rec(tr[n].op, Stamp(su, tr[n].now))] - {k} == map[];
  }

  // ---------------------------------------------------------------------
  // Whose device a mmap files
  // ---------------------------------------------------------------------

  /** The device that a mmap's exit puts into the index is that of the record its
      thread holds. For iosnoop that is the record of a mmap entry of the same
      thread; for ioslower, of whatever call the thread stored last. */
  lemma IndexedDeviceHasEntry(su: Setup, tr: seq<VfsProbe>, i: nat) returns (e: nat)
    requires i < |tr| && SiteTrace(su, tr)[i].Start? && SiteTrace(su, tr)[i].pass
    ensures tr[i].MmapExit? && tr[i].landed == Some(SiteTrace(su, tr)[i].key)
    ensures Source(TrackConfig(su), TrackTrace(su, tr), e, i, KeyOf(su, tr[i].id, IO_MMAP))
    ensures SiteTrace(su, tr)[i].data == TrackTrace(su, tr)[e].data.dev && tr[e].id == tr[i].id
    ensures su.tool == Iosnoop ==> tr[e].Enter? && tr[e].op.kind == IO_MMAP && SiteTrace(su, tr)[i].data == tr[e].op.dev
  {
    var k := KeyOf(su, tr[i].id, IO_MMAP);
    SiteTraceAt(su, tr, i);
    MachineTracks(su, tr, i);
    e := PendingHasSource(TrackConfig(su), TrackTrace(su, tr), i, k);
    TrackTraceAt(su, tr, e);
  }

  /** Whose device a successful mmap's exit files, for either tool, on threads whose
      exits close their innermost open call: i is the call that exit j closes. The
      exit files its own device exactly when its entry was stored and its key not
      entered again inside it, another call's exactly when its entry was not
      stored and an earlier stored call left its record, and else none. */
  lemma MmapFilesOwnDeviceIff(su: Setup, tr: seq<VfsProbe>, i: nat, j: nat)
    requires Bracketed(TrackTrace(su, tr)) && ExitOf(TrackTrace(su, tr), i, j)
    requires tr[j].MmapExit? && tr[j].landed.Some?
    ensures var c, st, own := TrackConfig(su), TrackTrace(su, tr), SiteTrace(su, tr)[j];
            && (own.Start? && own.pass <==> if Offered(c, st, i, st[i].key) then !Reused(st, i, j) else Stray(c, st, i, j))
            && (Source(c, st, i, j, st[j].key) <==> Offered(c, st, i, st[i].key) && !Reused(st, i, j))
            && (Source(c, st, i, j, st[j].key) ==> own.Start? && own.data == st[i].data.dev)
  {
    var c, st := TrackConfig(su), TrackTrace(su, tr);
    SiteTraceAt(su, tr, j);
    TrackTraceAt(su, tr, j);
    MachineTracks(su, tr, j);
    PendingIsSource(c, st, j, st[j].key);
    SameCall(st, i, j);
    if Offered(c, st, i, st[i].key) {
      StoredCallMeetsOwn(c, st, i, j);
    } else {
      UnstoredCallMeetsStray(c, st, i, j);
    }
  }

  /** ioslower may file another call's device: a mmap without a file inside a call
      on device dev. */
  lemma SlowIndexTakesOuterDevice(id: Thread, kind: nat, dev: u32, site: Site, who: Caller)
    ensures
      var su := Setup(Ioslower, MountFilter(false, 0, 0), 0);
      var tr := [Enter(id, Op(kind, dev, "", ""), 0), EnterNull(id, IO_MMAP, 0), MmapExit(id, Some(site), 0, who, true, 0)];
      MachineRun(su, tr, 3).vma == map[KeyAt(site) := dev]
  {
    var su := Setup(Ioslower, MountFilter(false, 0, 0), 0);
    var tr := [Enter(id, Op(kind, dev, "", ""), 0), EnterNull(id, IO_MMAP, 0), MmapExit(id, Some(site), 0, who, true, 0)];
    var k := OpKey(id, 0);
    assert MachineRun(su, tr, 0) == Machine(State(map[], []), map[]);
    assert MachineRun(su, tr, 1) == Machine(State(map[k := Rec(Op(kind, dev, "", ""), 0)], []), map[]);
    assert MachineRun(su, tr, 2) == MachineRun(su, tr, 1);
  }

  // ---------------------------------------------------------------------
  // A munmap from index to event
  // ---------------------------------------------------------------------

  /** ioslower filters for a device, and not for device zero. */
  predicate FiltersDevice(su: Setup) {
    su.tool == Ioslower && su.filter.enabled && (su.filter.devMajor != 0 || su.filter.devMinor != 0)
  }

  /** The thread's record may be replaced, or the map has room. */
  ghost predicate HasRoom(su: Setup, tr: seq<VfsProbe>, i: nat)
    requires i < |tr|
  {
    var p := MachineRun(su, tr, i).track.pending;
    TrackTrace(su, tr)[i].key in p || |p| < MAP_ENTRIES
  }

  /** A stored mmap under the munmap's packed key was not unmapped since. */
  ghost predicate IndexHit(su: Setup, tr: seq<VfsProbe>, i: nat)
    requires i < |tr| && tr[i].MunmapEnter?
  {
    exists e :: Source(SITE_CONFIG, KeyTrace(SiteTrace(su, tr)), e, i, KeyAt(tr[i].site))
  }

  lemma IndexHitIff(su: Setup, tr: seq<VfsProbe>, i: nat)
    requires i < |tr| && tr[i].MunmapEnter?
    ensures var vma, k := MachineRun(su, tr, i).vma, KeyAt(tr[i].site);
            && (IndexHit(su, tr, i) <==> k in vma)
            && forall e :: Source(SITE_CONFIG, KeyTrace(SiteTrace(su, tr)), e, i, k) ==>
                 k in vma && vma[k] == SiteTrace(su, tr)[e].data
  {
    MunmapSeesLatestMmap(su, tr, i);
  }

  /** What a munmap's entry offers. */
  lemma MunmapOffers(su: Setup, tr: seq<VfsProbe>, i: nat)
    requires i < |tr| && tr[i].MunmapEnter?
    ensures var step, dev := TrackTrace(su, tr)[i], DevAt(MachineRun(su, tr, i).vma, tr[i].site);
            && step.Start? && step.data.kind == IO_MUNMAP && step.data.dev == dev
            && step.pass == PassMountFilter(su, dev)
  {
    TrackTraceAt(su, tr, i);
  }

  lemma OfferedIff(su: Setup, tr: seq<VfsProbe>, i: nat)
    requires i < |tr|
    ensures var st := TrackTrace(su, tr);
            Offered(TrackConfig(su), st, i, st[i].key) <==> st[i].Start? && st[i].pass && HasRoom(su, tr, i)
  {
    MachineTracks(su, tr, i);
  }

  /** ioslower filtering for a device stores a munmap exactly when it hits the
      index and the map has room. */
  lemma SlowMunmapStoredIff(su: Setup, tr: seq<VfsProbe>, i: nat)
    requires i < |tr| && tr[i].MunmapEnter? && FiltersDevice(su)
    ensures Offered(TrackConfig(su), TrackTrace(su, tr), i, TrackTrace(su, tr)[i].key) <==>
              IndexHit(su, tr, i) && HasRoom(su, tr, i)
  {
    MunmapPassesFilter(su, tr, i);
    IndexHitIff(su, tr, i);
    MunmapOffers(su, tr, i);
    OfferedIff(su, tr, i);
  }

  /** It then offers the device of the mmap it hit. */
  lemma MunmapOffersMmapsDevice(su: Setup, tr: seq<VfsProbe>, i: nat, e: int)
    requires i < |tr| && tr[i].MunmapEnter?
    requires Source(SITE_CONFIG, KeyTrace(SiteTrace(su, tr)), e, i, KeyAt(tr[i].site))
    ensures TrackTrace(su, tr)[i].Start? && TrackTrace(su, tr)[i].data.dev == SiteTrace(su, tr)[e].data
  {
    IndexHitIff(su, tr, i);
    MunmapOffers(su, tr, i);
  }

  lemma MachineOut(su: Setup, tr: seq<VfsProbe>, j: nat)
    requires j < |tr|
    ensures MachineRun(su, tr, j).track == Run(TrackConfig(su), TrackTrace(su, tr), j)
    ensures MachineRun(su, tr, j + 1).track == Run(TrackConfig(su), TrackTrace(su, tr), j + 1)
  {
    MachineTracks(su, tr, j);
    MachineTracks(su, tr, j + 1);
  }

  /** What the exit of a call adds to the ring: its own report if it was stored and
      no tracked call entered inside it, nothing if one was; and nothing for a call
      not stored, unless an earlier stored call left its record. */
  lemma ExitAdds(su: Setup, tr: seq<VfsProbe>, i: nat, j: nat)
    requires Bracketed(TrackTrace(su, tr)) && ExitOf(TrackTrace(su, tr), i, j)
    ensures var c, st := TrackConfig(su), TrackTrace(su, tr);
            var before, after := MachineRun(su, tr, j).track.out, MachineRun(su, tr, j + 1).track.out;
            if Offered(c, st, i, st[i].key) then
              after == before + if Reused(st, i, j) then []
                                else Report(c, Rec(st[i].data, st[i].now), st[j].info, st[j].ring, st[j].now)
            else !Stray(c, st, i, j) ==> after == before
  {
    var c, st := TrackConfig(su), TrackTrace(su, tr);
    MachineOut(su, tr, j);
    SameCall(st, i, j);
    if Offered(c, st, i, st[i].key) {
      StoredCallReportedIff(c, st, i, j);
    } else {
      UnstoredCallMeetsStray(c, st, i, j);
    }
  }

  /** From index to ring: ioslower filtering for a device reports a munmap at its
      exit, if the floor and the ring let it, exactly when it hit the index, the map
      had room and no tracked call was entered inside it. */
  lemma SlowMunmapReportedIff(su: Setup, tr: seq<VfsProbe>, i: nat, j: nat)
    requires FiltersDevice(su) && Bracketed(TrackTrace(su, tr)) && ExitOf(TrackTrace(su, tr), i, j)
    requires tr[i].MunmapEnter?
    ensures var c, st := TrackConfig(su), TrackTrace(su, tr);
            var before, after := MachineRun(su, tr, j).track.out, MachineRun(su, tr, j + 1).track.out;
            if IndexHit(su, tr, i) && HasRoom(su, tr, i) then
              after == before + if Reused(st, i, j) then []
                                else Report(c, Rec(st[i].data, st[i].now), st[j].info, st[j].ring, st[j].now)
            else !Stray(c, st, i, j) ==> after == before
  {
    SlowMunmapStoredIff(su, tr, i);
    ExitAdds(su, tr, i, j);
  }
}

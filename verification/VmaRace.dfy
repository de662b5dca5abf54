/** The munmap entry in two accesses to the mapped-address index, with probes of
    other threads of the process in between. */
module VmaRace {
  import opened BpfMap
  import opened Tracker
  import opened SplitExits
  import opened SplitOverlap
  import opened VfsProbes
  import opened VmaIndex

  /** Accesses to the index: a mmap's exit files a device, a munmap looks one up
      and then removes whatever is there. */
  type IndexAccess = Access<VmaKey, u32, ()>

  /** The device a munmap of k takes if its lookup comes at n. */
  ghost function DevSeen(tr: seq<IndexAccess>, n: nat, k: VmaKey): u32
    requires n <= |tr|
  {
    var p := AccessRun(SITE_CONFIG, tr, n).pending;
    if k in p then p[k].data else 0
  }

  lemma SameFilerSameDevice(tr: seq<IndexAccess>, l: nat, n: nat, k: VmaKey)
    requires l <= n <= |tr| && Filer(SITE_CONFIG, tr, n, k) == Filer(SITE_CONFIG, tr, l, k)
    ensures DevSeen(tr, n, k) == DevSeen(tr, l, k)
  {
    PendingIsFilers(SITE_CONFIG, tr, l, k);
    PendingIsFilers(SITE_CONFIG, tr, n, k);
  }

  /** A munmap that looks up at l and removes at j takes the entry that one whole
      step at j would take, exactly when the entry it met was neither removed nor
      filed anew in between or, where it met none, no entry filed in between is
      still there. It then has the same device. */
  lemma MunmapIsAtomicIff(tr: seq<IndexAccess>, l: nat, j: nat)
    requires l < j < |tr| && tr[l].Lookup? && tr[j] == Remove(tr[l].key, l)
    ensures var k := tr[l].key;
            && (Filer(SITE_CONFIG, tr, j, k) == Filer(SITE_CONFIG, tr, l, k) <==>
                  if Met(SITE_CONFIG, tr, l) then !DisturbedBetween(Any, tr, l, j, k) else !FiledSince(SITE_CONFIG, tr, l, j, k))
            && (Filer(SITE_CONFIG, tr, j, k) == Filer(SITE_CONFIG, tr, l, k) ==> DevSeen(tr, j, k) == DevSeen(tr, l, k))
  {
    SameAsSeenIff(SITE_CONFIG, tr, l, j);
    if Filer(SITE_CONFIG, tr, j, tr[l].key) == Filer(SITE_CONFIG, tr, l, tr[l].key) {
      SameFilerSameDevice(tr, l, j, tr[l].key);
    }
  }

  /** Where mmaps with distinct devices are concerned, having the same device is
      having the same entry. */
  ghost predicate DistinctDevices(tr: seq<IndexAccess>) {
    && (forall i :: 0 <= i < |tr| && tr[i].Entry? ==> tr[i].data != 0)
    && forall i, j :: 0 <= i < j < |tr| && tr[i].Entry? && tr[j].Entry? ==> tr[i].data != tr[j].data
  }

  lemma DeviceIsAtomicIff(tr: seq<IndexAccess>, l: nat, j: nat)
    requires l < j < |tr| && tr[l].Lookup? && tr[j] == Remove(tr[l].key, l) && DistinctDevices(tr)
    ensures var k := tr[l].key;
            DevSeen(tr, j, k) == DevSeen(tr, l, k) <==>
              if Met(SITE_CONFIG, tr, l) then !DisturbedBetween(Any, tr, l, j, k) else !FiledSince(SITE_CONFIG, tr, l, j, k)
  {
    MunmapIsAtomicIff(tr, l, j);
    PendingIsFilers(SITE_CONFIG, tr, l, tr[l].key);
    PendingIsFilers(SITE_CONFIG, tr, j, tr[l].key);
  }

  /** A thread that maps the address again between the two accesses: the munmap has
      the old device and takes the new entry away, so the next munmap finds none. */
  lemma RemapDuringMunmap(k: VmaKey, devA: u32, devB: u32)
    ensures
      var tr: seq<IndexAccess> :=
        [Entry(k, devA, true, 0), Lookup(k, (), false, 1), Entry(k, devB, true, 2), Remove(k, 1)];
      DevSeen(tr, 1, k) == devA && DevSeen(tr, 3, k) == devB && DevSeen(tr, 4, k) == 0
  {
    var c := SITE_CONFIG;
    var tr: seq<IndexAccess> :=
      [Entry(k, devA, true, 0), Lookup(k, (), false, 1), Entry(k, devB, true, 2), Remove(k, 1)];
    assert AccessRun(c, tr, 0) == State(map[], []);
    assert AccessRun(c, tr, 1).pending == map[k := Rec(devA, 0)];
    assert AccessRun(c, tr, 2).pending == map[k := Rec(devA, 0)];
    assert AccessRun(c, tr, 3).pending == map[k := Rec(devB, 2)];
    assert k !in AccessRun(c, tr, 4).pending;
  }
}

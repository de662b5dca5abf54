/** Exit probes in two accesses: an exit reads its record at one moment and removes
    it at a later one, and probes of other threads run in between. When that is as
    good as completing at once. */
module SplitExits {
  import opened Options
  import opened BpfMap
  import opened Tracker
  import opened TrackerRuns

  /** An entry is one access. An exit is a lookup, which copies the record and
      settles the event, and if it met a record a removal, which names the lookup
      it belongs to. */
  datatype Access<K, D, R> =
    | Entry(key: K, data: D, pass: bool, now: u64)
    | Lookup(key: K, info: R, ring: bool, now: u64)
    | Remove(key: K, of: nat)

  function AccessNext<K(==), D, R>(c: Config, s: State<K, D, R>, a: Access<K, D, R>): State<K, D, R> {
    match a
    case Entry(k, data, pass, now) => Next(c, s, Start(k, data, pass, now))
    case Lookup(k, info, ring, now) =>
      if k in s.pending then s.(out := s.out + Report(c, s.pending[k], info, ring, now)) else s
    case Remove(k, _) => s.(pending := Delete(s.pending, k))
  }

  function AccessRun<K(==), D, R>(c: Config, tr: seq<Access<K, D, R>>, n: nat): State<K, D, R>
    requires n <= |tr|
  {
    if n == 0 then State(map[], []) else AccessNext(c, AccessRun(c, tr, n - 1), tr[n - 1])
  }

  /** Each removal follows the lookup of its exit. */
  ghost predicate RemovalsPaired<K, D, R>(tr: seq<Access<K, D, R>>) {
    forall j :: 0 <= j < |tr| ==> RemovalPairedAt(tr, j)
  }

  ghost predicate RemovalPairedAt<K, D, R>(tr: seq<Access<K, D, R>>, j: nat)
    requires j < |tr|
  {
    tr[j].Remove? ==> tr[j].of < j && tr[tr[j].of].Lookup? && tr[tr[j].of].key == tr[j].key
  }

  /** The exit of key k that has met its record and not removed it yet. */
  ghost function Underway<K, D, R>(c: Config, tr: seq<Access<K, D, R>>, n: nat, k: K): (r: Option<nat>)
    requires n <= |tr|
    ensures r.Some? ==> r.value < n && tr[r.value].Lookup? && tr[r.value].key == k
  {
    if n == 0 then None
    else if tr[n - 1].key != k then Underway(c, tr, n - 1, k)
    else match tr[n - 1]
      case Lookup(_, _, _, _) => if k in AccessRun(c, tr, n - 1).pending then Some(n - 1) else Underway(c, tr, n - 1, k)
      case Remove(_, _) => None
      case Entry(_, _, _, _) => Underway(c, tr, n - 1, k)
  }

  /** Exits of one key do not overlap: while one is under way no other meets the
      record, a removal ends the exit under way and, where a start would
      overwrite the record, no start of the key passes the filter. */
  ghost predicate Exclusive<K, D, R>(c: Config, tr: seq<Access<K, D, R>>) {
    forall j :: 0 <= j < |tr| ==> ExclusiveAt(c, tr, j)
  }

  ghost predicate ExclusiveAt<K, D, R>(c: Config, tr: seq<Access<K, D, R>>, j: nat)
    requires j < |tr|
  {
    var under := Underway(c, tr, j, tr[j].key);
    match tr[j]
    case Entry(_, _, pass, _) => c.flag == Any && pass ==> under == None
    case Lookup(_, _, _, _) => under == None
    case Remove(_, of) => under == Some(of)
  }

  /** The run with each exit complete at its removal, and those that met nothing
      left out. */
  function Merged<K, D, R>(tr: seq<Access<K, D, R>>, n: nat): (r: seq<Step<K, D, R>>)
    requires n <= |tr| && RemovalsPaired(tr)
  {
    if n == 0 then []
    else
      var before := Merged(tr, n - 1);
      match tr[n - 1]
      case Entry(k, data, pass, now) => before + [Start(k, data, pass, now)]
      case Lookup(_, _, _, _) => before
      case Remove(k, of) =>
        assert RemovalPairedAt(tr, n - 1);
        before + [Finish(k, tr[of].info, tr[of].ring, tr[of].now)]
  }

  ghost function MergedState<K, D, R>(c: Config, tr: seq<Access<K, D, R>>, n: nat): State<K, D, R>
    requires n <= |tr| && RemovalsPaired(tr)
  {
    Run(c, Merged(tr, n), |Merged(tr, n)|)
  }

  lemma MergedStep<K, D, R>(c: Config, tr: seq<Access<K, D, R>>, n: nat)
    requires n < |tr| && RemovalsPaired(tr)
    ensures tr[n].Lookup? ==> Merged(tr, n + 1) == Merged(tr, n)
    ensures !tr[n].Lookup? ==>
              && |Merged(tr, n + 1)| == |Merged(tr, n)| + 1
              && Merged(tr, n) <= Merged(tr, n + 1)
              && MergedState(c, tr, n + 1) == Next(c, MergedState(c, tr, n), Merged(tr, n + 1)[|Merged(tr, n)|])
  {
    var a, b := Merged(tr, n), Merged(tr, n + 1);
    if !tr[n].Lookup? { RunPrefix(c, a, b, |a|); }
  }

  ghost predicate AgreePending<K, D, R>(c: Config, tr: seq<Access<K, D, R>>, n: nat)
    requires n <= |tr| && RemovalsPaired(tr)
  {
    AccessRun(c, tr, n).pending == MergedState(c, tr, n).pending
  }

  lemma StepKeepsPending<K, D, R>(c: Config, s: State<K, D, R>, t: State<K, D, R>, a: Access<K, D, R>, step: Step<K, D, R>)
    requires s.pending == t.pending && step.key == a.key
    requires match a
             case Entry(k, data, pass, now) => step == Start(k, data, pass, now)
             case Lookup(_, _, _, _) => false
             case Remove(_, _) => step.Finish?
    ensures AccessNext(c, s, a).pending == Next(c, t, step).pending
  {
    if a.Remove? && a.key !in s.pending { DeleteAbsent(s.pending, a.key); }
  }

  lemma PendingKeepsAgreeing<K, D, R>(c: Config, tr: seq<Access<K, D, R>>, n: nat)
    requires n < |tr| && RemovalsPaired(tr) && AgreePending(c, tr, n)
    ensures AgreePending(c, tr, n + 1)
  {
    MergedStep(c, tr, n);
    if !tr[n].Lookup? {
      StepKeepsPending(c, AccessRun(c, tr, n), MergedState(c, tr, n), tr[n], Merged(tr, n + 1)[|Merged(tr, n)|]);
    }
  }

  /** Whatever overlaps, the map goes through the same states. */
  lemma SamePending<K, D, R>(c: Config, tr: seq<Access<K, D, R>>, n: nat)
    requires n <= |tr| && RemovalsPaired(tr)
    ensures AccessRun(c, tr, n).pending == MergedState(c, tr, n).pending
  {
    for i := 0 to n
      invariant AgreePending(c, tr, i)
    {
      PendingKeepsAgreeing(c, tr, i);
    }
  }

  // ---------------------------------------------------------------------
  // Events of one key
  // ---------------------------------------------------------------------

  /** The events that exits of key k have settled. */
  ghost function SettledBy<K, D, R>(c: Config, tr: seq<Access<K, D, R>>, n: nat, k: K): seq<Event<D, R>>
    requires n <= |tr|
  {
    if n == 0 then []
    else SettledBy(c, tr, n - 1, k) + if tr[n - 1].key == k then Settles(c, tr, n - 1) else []
  }

  /** What access j adds to the output. */
  ghost function Settles<K, D, R>(c: Config, tr: seq<Access<K, D, R>>, j: nat): (r: seq<Event<D, R>>)
    requires j < |tr|
    ensures AccessRun(c, tr, j + 1).out == AccessRun(c, tr, j).out + r
  {
    var p := AccessRun(c, tr, j).pending;
    if tr[j].Lookup? && tr[j].key in p then Report(c, p[tr[j].key], tr[j].info, tr[j].ring, tr[j].now) else []
  }

  /** What the exit under way, if any, has settled ahead of its removal. */
  ghost function Ahead<K, D, R>(c: Config, tr: seq<Access<K, D, R>>, n: nat, k: K): seq<Event<D, R>>
    requires n <= |tr|
  {
    var p := AccessRun(c, tr, n).pending;
    match Underway(c, tr, n, k)
    case None => []
    case Some(i) => if k in p then Report(c, p[k], tr[i].info, tr[i].ring, tr[i].now) else []
  }

  ghost predicate InStep<K, D, R>(c: Config, tr: seq<Access<K, D, R>>, n: nat, k: K)
    requires n <= |tr| && RemovalsPaired(tr)
  {
    && SettledBy(c, tr, n, k) == OutOf(c, Merged(tr, n), |Merged(tr, n)|, k) + Ahead(c, tr, n, k)
    && (Underway(c, tr, n, k).Some? ==> k in AccessRun(c, tr, n).pending)
  }

  lemma {:induction false} OutOfPrefix<K, D, R>(c: Config, a: seq<Step<K, D, R>>, b: seq<Step<K, D, R>>, n: nat, k: K)
    requires n <= |a| && a <= b
    ensures OutOf(c, a, n, k) == OutOf(c, b, n, k)
  {
    if n > 0 {
      OutOfPrefix(c, a, b, n - 1, k);
      RunPrefix(c, a, b, n - 1);
    }
  }

  /** What the merged run's own completion at a removal reports. */
  lemma MergedOut<K, D, R>(c: Config, tr: seq<Access<K, D, R>>, n: nat, k: K)
    requires n < |tr| && RemovalsPaired(tr)
    ensures var p := AccessRun(c, tr, n).pending;
            OutOf(c, Merged(tr, n + 1), |Merged(tr, n + 1)|, k) ==
            OutOf(c, Merged(tr, n), |Merged(tr, n)|, k) +
              if tr[n].Remove? && tr[n].key == k && k in p
              then (assert RemovalPairedAt(tr, n); Report(c, p[k], tr[tr[n].of].info, tr[tr[n].of].ring, tr[tr[n].of].now)) else []
  {
    var a, b := Merged(tr, n), Merged(tr, n + 1);
    MergedStep(c, tr, n);
    SamePending(c, tr, n);
    if !tr[n].Lookup? {
      OutOfPrefix(c, a, b, |a|, k);
      RunPrefix(c, a, b, |a|);
    }
  }

  lemma StaysInStep<K, D, R>(c: Config, tr: seq<Access<K, D, R>>, n: nat, k: K)
    requires n < |tr| && RemovalsPaired(tr) && ExclusiveAt(c, tr, n) && InStep(c, tr, n, k)
    ensures InStep(c, tr, n + 1, k)
  {
    MergedOut(c, tr, n, k);
  }

  lemma AlwaysInStep<K, D, R>(c: Config, tr: seq<Access<K, D, R>>, n: nat, k: K)
    requires n <= |tr| && RemovalsPaired(tr) && Exclusive(c, tr)
    ensures InStep(c, tr, n, k)
  {
    for i := 0 to n
      invariant InStep(c, tr, i, k)
    {
      assert ExclusiveAt(c, tr, i);
      StaysInStep(c, tr, i, k);
    }
  }

  /** Exits in two accesses, interleaved with anything, report for each key what
      they would report if each were complete at its removal, as long as exits of
      one key do not overlap; between accesses an exit is at most ahead. A start
      that BPF_NOEXIST turns away while the exit is under way is no overlap. */
  lemma SplitExitsReportAlike<K, D, R>(c: Config, tr: seq<Access<K, D, R>>, n: nat, k: K)
    requires n <= |tr| && RemovalsPaired(tr) && Exclusive(c, tr)
    ensures AccessRun(c, tr, n).pending == MergedState(c, tr, n).pending
    ensures Underway(c, tr, n, k) == None ==> SettledBy(c, tr, n, k) == OutOf(c, Merged(tr, n), |Merged(tr, n)|, k)
    ensures OutOf(c, Merged(tr, n), |Merged(tr, n)|, k) <= SettledBy(c, tr, n, k)
  {
    SamePending(c, tr, n);
    AlwaysInStep(c, tr, n, k);
  }

  /** Overlapping exits of one key both report the one call. */
  lemma OverlapReportsTwice(flag: Flag, data: int, info: int)
    ensures
      var tr: seq<Access<int, int, int>> :=
        [Entry(0, data, true, 0), Lookup(0, info, true, 5), Lookup(0, info, true, 6), Remove(0, 1), Remove(0, 2)];
      RemovalsPaired(tr) && AccessRun(Config(flag, 2, 0), tr, 5).out == [Event(data, info, 5, 5), Event(data, info, 6, 6)]
  {
    var c := Config(flag, 2, 0);
    var tr: seq<Access<int, int, int>> :=
      [Entry(0, data, true, 0), Lookup(0, info, true, 5), Lookup(0, info, true, 6), Remove(0, 1), Remove(0, 2)];
    assert AccessRun(c, tr, 0) == State(map[], []);
    assert AccessRun(c, tr, 1) == State(map[0 := Rec(data, 0)], []);
    assert AccessRun(c, tr, 2) == State(map[0 := Rec(data, 0)], [Event(data, info, 5, 5)]);
    assert AccessRun(c, tr, 3).out == [Event(data, info, 5, 5), Event(data, info, 6, 6)];
    assert AccessRun(c, tr, 4).out == AccessRun(c, tr, 3).out;
  }

  /** Under BPF_ANY a restart during an exit is lost with the record it replaced. */
  lemma RestartDuringExitIsLost(first: int, second: int, info: int)
    ensures
      var tr: seq<Access<int, int, int>> :=
        [Entry(0, first, true, 0), Lookup(0, info, true, 5), Entry(0, second, true, 6), Remove(0, 1)];
      RemovalsPaired(tr) && AccessRun(Config(Any, 2, 0), tr, 4) == State(map[], [Event(first, info, 5, 5)])
  {
    var c := Config(Any, 2, 0);
    var tr: seq<Access<int, int, int>> :=
      [Entry(0, first, true, 0), Lookup(0, info, true, 5), Entry(0, second, true, 6), Remove(0, 1)];
    assert AccessRun(c, tr, 0) == State(map[], []);
    assert AccessRun(c, tr, 1) == State(map[0 := Rec(first, 0)], []);
    assert AccessRun(c, tr, 2) == State(map[0 := Rec(first, 0)], [Event(first, info, 5, 5)]);
    assert AccessRun(c, tr, 3) == State(map[0 := Rec(second, 6)], [Event(first, info, 5, 5)]);
    assert map[0 := Rec(second, 6)] - {0} == map[];
  }
}

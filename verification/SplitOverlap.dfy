/** Exits in two accesses: exactly when one settles something else than a
    completion at its removal would report. */
module SplitOverlap {
  import opened Options
  import opened BpfMap
  import opened Tracker
  import opened TrackerRuns
  import opened SplitExits

  // ---------------------------------------------------------------------
  // Whose record is filed
  // ---------------------------------------------------------------------

  /** The entry whose record is filed for k. */
  ghost function Filer<K, D, R>(c: Config, tr: seq<Access<K, D, R>>, n: nat, k: K): (r: Option<nat>)
    requires n <= |tr|
    ensures r.Some? ==> r.value < n && tr[r.value].Entry? && tr[r.value].key == k
  {
    if n == 0 then None
    else FilerNext(c, AccessRun(c, tr, n - 1).pending, Filer(c, tr, n - 1, k), tr[n - 1], n - 1, k)
  }

  /** The filer of k after access a at n. */
  function FilerNext<K(==), D, R>(c: Config, p: map<K, Rec<D>>, f: Option<nat>, a: Access<K, D, R>, n: nat, k: K): Option<nat> {
    if a.key != k then f
    else match a
      case Entry(_, _, pass, _) => if pass && Admits(p, c.cap, c.flag, k) then Some(n) else f
      case Lookup(_, _, _, _) => f
      case Remove(_, _) => None
  }

  ghost predicate FiledBy<K, D, R>(tr: seq<Access<K, D, R>>, p: map<K, Rec<D>>, f: Option<nat>, k: K) {
    && (k in p <==> f.Some?)
    && (f.Some? ==> f.value < |tr| && tr[f.value].Entry? && p[k] == Rec(tr[f.value].data, tr[f.value].now))
  }

  lemma FiledByNext<K, D, R>(c: Config, tr: seq<Access<K, D, R>>, s: State<K, D, R>, f: Option<nat>, n: nat, k: K)
    requires n < |tr| && FiledBy(tr, s.pending, f, k)
    ensures FiledBy(tr, AccessNext(c, s, tr[n]).pending, FilerNext(c, s.pending, f, tr[n], n, k), k)
  {}

  ghost predicate FilerFiled<K, D, R>(c: Config, tr: seq<Access<K, D, R>>, n: nat, k: K)
    requires n <= |tr|
  {
    FiledBy(tr, AccessRun(c, tr, n).pending, Filer(c, tr, n, k), k)
  }

  lemma FilerStep<K, D, R>(c: Config, tr: seq<Access<K, D, R>>, n: nat, k: K)
    requires n < |tr| && FilerFiled(c, tr, n, k)
    ensures FilerFiled(c, tr, n + 1, k)
  {
    FiledByNext(c, tr, AccessRun(c, tr, n), Filer(c, tr, n, k), n, k);
  }

  /** The map holds a record for k exactly when it has a filer, and it is the
      filer's. */
  lemma PendingIsFilers<K, D, R>(c: Config, tr: seq<Access<K, D, R>>, n: nat, k: K)
    requires n <= |tr|
    ensures FilerFiled(c, tr, n, k)
  {
    for i := 0 to n
      invariant FilerFiled(c, tr, i, k)
    {
      FilerStep(c, tr, i, k);
    }
  }

  // ---------------------------------------------------------------------
  // When the filer changes
  // ---------------------------------------------------------------------

  /** Access m takes the record of k away or, where it may, puts another in its
      place. */
  predicate Disturbs<K(==), D, R>(flag: Flag, a: Access<K, D, R>, k: K) {
    a.key == k && (a.Remove? || (flag == Any && a.Entry? && a.pass))
  }

  ghost predicate DisturbedBetween<K, D, R>(flag: Flag, tr: seq<Access<K, D, R>>, lo: int, hi: int, k: K) {
    exists m :: lo < m < hi && 0 <= m < |tr| && Disturbs(flag, tr[m], k)
  }

  /** A lookup has met a record. */
  ghost predicate Met<K, D, R>(c: Config, tr: seq<Access<K, D, R>>, l: int) {
    0 <= l < |tr| && tr[l].Lookup? && tr[l].key in AccessRun(c, tr, l).pending
  }

  /** The filer at n is the one at l, or one that came after a disturbance. */
  ghost predicate KeptBy<K, D, R>(flag: Flag, tr: seq<Access<K, D, R>>, l: nat, n: nat, f0: Option<nat>, f: Option<nat>, k: K) {
    if DisturbedBetween(flag, tr, l, n, k) then f.None? || f.value > l else f == f0
  }

  lemma KeptByNext<K, D, R>(c: Config, tr: seq<Access<K, D, R>>, l: nat, n: nat, p: map<K, Rec<D>>,
                            f0: Option<nat>, f: Option<nat>, k: K)
    requires l < n < |tr| && f0.Some? && KeptBy(c.flag, tr, l, n, f0, f, k) && FiledBy(tr, p, f, k)
    ensures KeptBy(c.flag, tr, l, n + 1, f0, FilerNext(c, p, f, tr[n], n, k), k)
  {
    assert DisturbedBetween(c.flag, tr, l, n + 1, k) <==> DisturbedBetween(c.flag, tr, l, n, k) || Disturbs(c.flag, tr[n], k);
  }

  ghost predicate KeptOrLater<K, D, R>(c: Config, tr: seq<Access<K, D, R>>, l: nat, n: nat, f0: nat, k: K)
    requires l < n <= |tr|
  {
    KeptBy(c.flag, tr, l, n, Some(f0), Filer(c, tr, n, k), k)
  }

  lemma KeptOrLaterStep<K, D, R>(c: Config, tr: seq<Access<K, D, R>>, l: nat, n: nat, f0: nat, k: K)
    requires l < n < |tr| && KeptOrLater(c, tr, l, n, f0, k)
    ensures KeptOrLater(c, tr, l, n + 1, f0, k)
  {
    PendingIsFilers(c, tr, n, k);
    KeptByNext(c, tr, l, n, AccessRun(c, tr, n).pending, Some(f0), Filer(c, tr, n, k), k);
  }

  lemma AlwaysKeptOrLater<K, D, R>(c: Config, tr: seq<Access<K, D, R>>, l: nat, n: nat, f0: nat, k: K)
    requires l < n <= |tr| && KeptOrLater(c, tr, l, l + 1, f0, k)
    ensures KeptOrLater(c, tr, l, n, f0, k)
  {
    for i := l + 1 to n
      invariant KeptOrLater(c, tr, l, i, f0, k)
    {
      KeptOrLaterStep(c, tr, l, i, f0, k);
    }
  }

  lemma LookupKeepsFiler<K, D, R>(c: Config, tr: seq<Access<K, D, R>>, l: nat, f0: nat)
    requires l < |tr| && tr[l].Lookup? && Filer(c, tr, l, tr[l].key) == Some(f0)
    ensures KeptOrLater(c, tr, l, l + 1, f0, tr[l].key)
  {}

  /** After a lookup that met a record, the record filed is still that one exactly
      when no access has disturbed it. */
  lemma FilerKeptIff<K, D, R>(c: Config, tr: seq<Access<K, D, R>>, l: nat, n: nat)
    requires l < n <= |tr| && Met(c, tr, l)
    ensures var k := tr[l].key; Filer(c, tr, n, k) == Filer(c, tr, l, k) <==> !DisturbedBetween(c.flag, tr, l, n, k)
  {
    PendingIsFilers(c, tr, l, tr[l].key);
    var f0 := Filer(c, tr, l, tr[l].key).value;
    LookupKeepsFiler(c, tr, l, f0);
    AlwaysKeptOrLater(c, tr, l, n, f0, tr[l].key);
  }

  /** An entry whose record goes into the map. */
  ghost predicate FiledAt<K, D, R>(c: Config, tr: seq<Access<K, D, R>>, m: int) {
    && 0 <= m < |tr| && tr[m].Entry? && tr[m].pass
    && Admits(AccessRun(c, tr, m).pending, c.cap, c.flag, tr[m].key)
  }

  lemma EntryBecomesFiler<K, D, R>(c: Config, tr: seq<Access<K, D, R>>, m: nat)
    requires FiledAt(c, tr, m)
    ensures KeptOrLater(c, tr, m, m + 1, m, tr[m].key)
  {}

  ghost predicate FilerWasFiled<K, D, R>(c: Config, tr: seq<Access<K, D, R>>, n: nat, k: K)
    requires n <= |tr|
  {
    var f := Filer(c, tr, n, k);
    f.Some? ==> FiledAt(c, tr, f.value)
  }

  lemma FilerWasFiledStep<K, D, R>(c: Config, tr: seq<Access<K, D, R>>, n: nat, k: K)
    requires n < |tr| && FilerWasFiled(c, tr, n, k)
    ensures FilerWasFiled(c, tr, n + 1, k)
  {}

  lemma FilersAreFiled<K, D, R>(c: Config, tr: seq<Access<K, D, R>>, n: nat, k: K)
    requires n <= |tr|
    ensures FilerWasFiled(c, tr, n, k)
  {
    for i := 0 to n
      invariant FilerWasFiled(c, tr, i, k)
    {
      FilerWasFiledStep(c, tr, i, k);
    }
  }

  /** The record filed for k is that of entry m exactly when m was filed for k and
      not disturbed since. */
  lemma FilerIsIff<K, D, R>(c: Config, tr: seq<Access<K, D, R>>, m: nat, n: nat, k: K)
    requires m < n <= |tr|
    ensures Filer(c, tr, n, k) == Some(m) <==>
              FiledAt(c, tr, m) && tr[m].key == k && !DisturbedBetween(c.flag, tr, m, n, k)
  {
    FilersAreFiled(c, tr, n, k);
    if FiledAt(c, tr, m) && tr[m].key == k {
      EntryBecomesFiler(c, tr, m);
      AlwaysKeptOrLater(c, tr, m, n, m, k);
    }
  }

  // ---------------------------------------------------------------------
  // Restarts that are lost
  // ---------------------------------------------------------------------

  /** Removal j takes the record of entry m, and no lookup of the run meets it, so
      no event is ever settled for it. */
  ghost predicate Lost<K, D, R>(c: Config, tr: seq<Access<K, D, R>>, m: nat, j: nat)
    requires j < |tr|
  {
    && Filer(c, tr, j, tr[j].key) == Some(m)
    && forall l :: m < l < |tr| && tr[l].Lookup? && tr[l].key == tr[j].key ==> Filer(c, tr, l, tr[l].key) != Some(m)
  }

  ghost predicate LookedUpBetween<K, D, R>(tr: seq<Access<K, D, R>>, lo: int, hi: int, k: K) {
    exists l :: lo < l < hi && 0 <= l < |tr| && tr[l].Lookup? && tr[l].key == k
  }

  /** A restart filed between the two accesses of an exit is lost to the exit's
      removal exactly when nothing disturbs it before, and no other exit of the key
      looks it up before. */
  lemma RestartIsLostIff<K, D, R>(c: Config, tr: seq<Access<K, D, R>>, m: nat, j: nat)
    requires j < |tr| && tr[j].Remove? && tr[j].of < m < j && FiledAt(c, tr, m) && tr[m].key == tr[j].key
    ensures Lost(c, tr, m, j) <==>
              !DisturbedBetween(c.flag, tr, m, j, tr[j].key) && !LookedUpBetween(tr, m, j, tr[j].key)
  {
    var k := tr[j].key;
    FilerIsIff(c, tr, m, j, k);
    forall l | m < l < |tr| && tr[l].Lookup? && tr[l].key == k
      ensures !DisturbedBetween(c.flag, tr, m, j, k) ==> (Filer(c, tr, l, k) == Some(m) <==> l < j)
    {
      if !DisturbedBetween(c.flag, tr, m, j, k) { MetBefore(c, tr, m, j, l); }
    }
  }

  lemma MetBefore<K, D, R>(c: Config, tr: seq<Access<K, D, R>>, m: nat, j: nat, l: nat)
    requires m < j < |tr| && tr[j].Remove? && FiledAt(c, tr, m) && tr[m].key == tr[j].key
    requires m < l < |tr| && tr[l].Lookup? && !DisturbedBetween(c.flag, tr, m, j, tr[j].key)
    ensures Filer(c, tr, l, tr[j].key) == Some(m) <==> l < j
  {
    FilerIsIff(c, tr, m, l, tr[j].key);
    assert l > j ==> Disturbs(c.flag, tr[j], tr[j].key);
  }

  // ---------------------------------------------------------------------
  // What any later access sees
  // ---------------------------------------------------------------------

  /** An entry after l is the one filed at n. */
  ghost predicate FiledSince<K, D, R>(c: Config, tr: seq<Access<K, D, R>>, l: int, n: int, k: K) {
    exists m :: l < m < n && FiledAt(c, tr, m) && tr[m].key == k && !DisturbedBetween(c.flag, tr, m, n, k)
  }

  /** Any lookup, whether it met a record or not: what is filed later is what it
      saw exactly when the record it met was not disturbed or, where it met none,
      no entry has been filed that is still there. */
  lemma SameAsSeenIff<K, D, R>(c: Config, tr: seq<Access<K, D, R>>, l: nat, n: nat)
    requires l < n <= |tr| && tr[l].Lookup?
    ensures var k := tr[l].key;
            Filer(c, tr, n, k) == Filer(c, tr, l, k) <==>
              if Met(c, tr, l) then !DisturbedBetween(c.flag, tr, l, n, k) else !FiledSince(c, tr, l, n, k)
  {
    var k := tr[l].key;
    PendingIsFilers(c, tr, l, k);
    if Met(c, tr, l) {
      FilerKeptIff(c, tr, l, n);
    } else {
      NothingBeforeIsFiler(c, tr, l, n);
      if FiledSince(c, tr, l, n, k) {
        var m :| l < m < n && FiledAt(c, tr, m) && tr[m].key == k && !DisturbedBetween(c.flag, tr, m, n, k);
        FilerIsIff(c, tr, m, n, k);
      }
      if Filer(c, tr, n, k).Some? { FilerIsIff(c, tr, Filer(c, tr, n, k).value, n, k); }
    }
  }

  ghost predicate FilerSince<K, D, R>(c: Config, tr: seq<Access<K, D, R>>, l: nat, n: nat, k: K)
    requires n <= |tr|
  {
    Filer(c, tr, n, k).Some? ==> Filer(c, tr, n, k).value > l
  }

  lemma FilerSinceStep<K, D, R>(c: Config, tr: seq<Access<K, D, R>>, l: nat, n: nat, k: K)
    requires l < n < |tr| && FilerSince(c, tr, l, n, k)
    ensures FilerSince(c, tr, l, n + 1, k)
  {}

  lemma NothingBeforeIsFiler<K, D, R>(c: Config, tr: seq<Access<K, D, R>>, l: nat, n: nat)
    requires l < n <= |tr| && tr[l].Lookup? && Filer(c, tr, l, tr[l].key).None?
    ensures FilerSince(c, tr, l, n, tr[l].key)
  {
    for i := l + 1 to n
      invariant FilerSince(c, tr, l, i, tr[l].key)
    {
      FilerSinceStep(c, tr, l, i, tr[l].key);
    }
  }

  // ---------------------------------------------------------------------
  // What an exit settles
  // ---------------------------------------------------------------------

  /** What a completion at removal j would report. */
  ghost function CompletedAt<K, D, R>(c: Config, tr: seq<Access<K, D, R>>, j: nat): seq<Event<D, R>>
    requires j < |tr| && tr[j].Remove? && RemovalsPaired(tr)
  {
    assert RemovalPairedAt(tr, j);
    var l, p := tr[tr[j].of], AccessRun(c, tr, j).pending;
    if l.key in p then Report(c, p[l.key], l.info, l.ring, l.now) else []
  }

  /** Entries and lookups read a clock that moves on between them. */
  ghost predicate ClockMoves<K, D, R>(tr: seq<Access<K, D, R>>) {
    forall i, j :: 0 <= i < j < |tr| && !tr[i].Remove? && !tr[j].Remove? ==> tr[i].now < tr[j].now
  }

  /** The exit that removal j ends is one that met a record. */
  ghost predicate Ends<K, D, R>(c: Config, tr: seq<Access<K, D, R>>, j: int) {
    0 <= j < |tr| && tr[j].Remove? && Met(c, tr, tr[j].of)
  }

  ghost predicate SettlesAlike<K, D, R>(c: Config, tr: seq<Access<K, D, R>>, j: nat)
    requires j < |tr| && tr[j].Remove? && RemovalsPaired(tr)
  {
    assert RemovalPairedAt(tr, j);
    Settles(c, tr, tr[j].of) == CompletedAt(c, tr, j)
  }

  /** Neither the exit nor a completion at its removal has an event to report. */
  ghost predicate BothSilent<K, D, R>(c: Config, tr: seq<Access<K, D, R>>, j: nat)
    requires j < |tr| && tr[j].Remove? && RemovalsPaired(tr)
  {
    assert RemovalPairedAt(tr, j);
    Settles(c, tr, tr[j].of) == [] && CompletedAt(c, tr, j) == []
  }

  /** What must hold between an exit's two accesses. */
  ghost predicate Harmless<K, D, R>(c: Config, tr: seq<Access<K, D, R>>, j: nat)
    requires j < |tr| && tr[j].Remove? && RemovalsPaired(tr)
  {
    !DisturbedBetween(c.flag, tr, tr[j].of, j, tr[j].key) || BothSilent(c, tr, j)
  }

  /** Whatever the minimum and the ring: an exit settles what a completion at its
      removal would report if nothing disturbed its record in between, or neither
      has an event; and where the clock tells records apart, only if. */
  lemma SettlesAlikeIff<K, D, R>(c: Config, tr: seq<Access<K, D, R>>, j: nat)
    requires RemovalsPaired(tr) && Ends(c, tr, j)
    ensures Harmless(c, tr, j) ==> SettlesAlike(c, tr, j)
    ensures ClockMoves(tr) ==> (SettlesAlike(c, tr, j) <==> Harmless(c, tr, j))
  {
    assert RemovalPairedAt(tr, j);
    var l, k := tr[j].of, tr[j].key;
    FilerKeptIff(c, tr, l, j);
    PendingIsFilers(c, tr, l, k);
    PendingIsFilers(c, tr, j, k);
    var f, g := Filer(c, tr, l, k), Filer(c, tr, j, k);
    if ClockMoves(tr) && g.Some? && f != g {
      DistinctTimes(tr, f.value, g.value);
      var a, b := Settles(c, tr, l), CompletedAt(c, tr, j);
      assert a != [] ==> a[0].latency == Sub64(tr[l].now, tr[f.value].now);
      assert b != [] ==> b[0].latency == Sub64(tr[l].now, tr[g.value].now);
    }
  }

  lemma DistinctTimes<K, D, R>(tr: seq<Access<K, D, R>>, f: nat, g: nat)
    requires ClockMoves(tr) && f < |tr| && g < |tr| && f != g && !tr[f].Remove? && !tr[g].Remove?
    ensures tr[f].now != tr[g].now
  {}

  // ---------------------------------------------------------------------
  // Whole runs
  // ---------------------------------------------------------------------

  /** Only exits that met a record remove one, and all of them have. */
  ghost predicate AllEnded<K, D, R>(c: Config, tr: seq<Access<K, D, R>>) {
    && (forall j :: 0 <= j < |tr| && tr[j].Remove? ==> Ends(c, tr, j))
    && forall l :: Met(c, tr, l) ==> exists j :: RemovalOf(tr, l, j)
  }

  ghost predicate RemovalOf<K, D, R>(tr: seq<Access<K, D, R>>, l: int, j: int) {
    0 <= l < j < |tr| && tr[j].Remove? && tr[j].of == l
  }

  ghost predicate AllAlike<K, D, R>(c: Config, tr: seq<Access<K, D, R>>)
    requires RemovalsPaired(tr)
  {
    forall j :: 0 <= j < |tr| && tr[j].Remove? ==> SettlesAlike(c, tr, j)
  }

  ghost predicate NoneDisturbed<K, D, R>(flag: Flag, tr: seq<Access<K, D, R>>) {
    forall j :: 0 <= j < |tr| && tr[j].Remove? ==> !DisturbedBetween(flag, tr, tr[j].of, j, tr[j].key)
  }

  ghost predicate AllHarmless<K, D, R>(c: Config, tr: seq<Access<K, D, R>>)
    requires RemovalsPaired(tr)
  {
    forall j :: 0 <= j < |tr| && tr[j].Remove? ==> Harmless(c, tr, j)
  }

  /** The run as a whole: each exit settles what its merged completion reports
      exactly when no exit's record was disturbed between its two accesses, but for
      exits that have nothing to report either way. */
  lemma RunSettlesAlikeIff<K, D, R>(c: Config, tr: seq<Access<K, D, R>>)
    requires RemovalsPaired(tr) && AllEnded(c, tr) && ClockMoves(tr)
    ensures AllAlike(c, tr) <==> AllHarmless(c, tr)
    ensures NoneDisturbed(c.flag, tr) ==> AllAlike(c, tr)
  {
    forall j | 0 <= j < |tr| && tr[j].Remove?
      ensures SettlesAlike(c, tr, j) <==> Harmless(c, tr, j)
    {
      assert Ends(c, tr, j) && RemovalPairedAt(tr, j);
      SettlesAlikeIff(c, tr, j);
    }
  }

  ghost predicate NoRemoval<K, D, R>(tr: seq<Access<K, D, R>>, lo: int, hi: int, k: K) {
    forall m :: lo < m < hi && 0 <= m < |tr| ==> !(tr[m].Remove? && tr[m].key == k)
  }

  ghost predicate UnderwayIsMet<K, D, R>(c: Config, tr: seq<Access<K, D, R>>, n: nat, k: K)
    requires n <= |tr|
  {
    var u := Underway(c, tr, n, k);
    u.Some? ==> Met(c, tr, u.value) && NoRemoval(tr, u.value, n, k)
  }

  lemma UnderwayIsMetStep<K, D, R>(c: Config, tr: seq<Access<K, D, R>>, n: nat, k: K)
    requires n < |tr| && UnderwayIsMet(c, tr, n, k)
    ensures UnderwayIsMet(c, tr, n + 1, k)
  {}

  lemma UnderwayAlwaysMet<K, D, R>(c: Config, tr: seq<Access<K, D, R>>, n: nat, k: K)
    requires n <= |tr|
    ensures UnderwayIsMet(c, tr, n, k)
  {
    for i := 0 to n
      invariant UnderwayIsMet(c, tr, i, k)
    {
      UnderwayIsMetStep(c, tr, i, k);
    }
  }

  /** An exit under way met a record, and no removal of its key has followed. */
  lemma UnderwayFacts<K, D, R>(c: Config, tr: seq<Access<K, D, R>>, n: nat, k: K)
    requires n <= |tr| && Underway(c, tr, n, k).Some?
    ensures var l := Underway(c, tr, n, k).value; Met(c, tr, l) && NoRemoval(tr, l, n, k)
  {
    UnderwayAlwaysMet(c, tr, n, k);
  }

  /** The exit under way at n ends after n. */
  lemma EndsLater<K, D, R>(c: Config, tr: seq<Access<K, D, R>>, n: nat, k: K) returns (j: nat)
    requires n <= |tr| && RemovalsPaired(tr) && AllEnded(c, tr) && Underway(c, tr, n, k).Some?
    ensures n <= j && RemovalOf(tr, Underway(c, tr, n, k).value, j) && tr[j].key == k
  {
    var l := Underway(c, tr, n, k).value;
    UnderwayFacts(c, tr, n, k);
    j :| RemovalOf(tr, l, j);
    assert RemovalPairedAt(tr, j);
  }

  /** A start that overwrites the record of an exit under way disturbs it. */
  lemma StartDisturbs<K, D, R>(c: Config, tr: seq<Access<K, D, R>>, n: nat)
    requires n < |tr| && RemovalsPaired(tr) && AllEnded(c, tr)
    requires tr[n].Entry? && Disturbs(c.flag, tr[n], tr[n].key) && Underway(c, tr, n, tr[n].key).Some?
    ensures !NoneDisturbed(c.flag, tr)
  {
    var k := tr[n].key;
    var j := EndsLater(c, tr, n, k);
    assert DisturbedBetween(c.flag, tr, tr[j].of, j, k);
  }

  /** Of two exits of a key that have both met the record, the one that ends first
      disturbs the other. */
  lemma OverlapDisturbs<K, D, R>(c: Config, tr: seq<Access<K, D, R>>, l: nat, u: nat, n: nat, k: K)
    requires RemovalsPaired(tr) && AllEnded(c, tr) && l < n && u < n && l != u
    requires Met(c, tr, l) && tr[l].key == k && NoRemoval(tr, l, n, k)
    requires Met(c, tr, u) && tr[u].key == k && NoRemoval(tr, u, n, k)
    ensures !NoneDisturbed(c.flag, tr)
  {
    var a :| RemovalOf(tr, l, a);
    var b :| RemovalOf(tr, u, b);
    assert RemovalPairedAt(tr, a) && RemovalPairedAt(tr, b);
    assert a >= n && b >= n;
    assert a < b ==> DisturbedBetween(c.flag, tr, u, b, k);
    assert b < a ==> DisturbedBetween(c.flag, tr, l, a, k);
  }

  lemma StaysUnderway<K, D, R>(c: Config, tr: seq<Access<K, D, R>>, n: nat, k: K)
    requires n < |tr| && !(tr[n].Remove? && tr[n].key == k)
    requires Underway(c, tr, n, k).Some? || (Met(c, tr, n) && tr[n].key == k)
    ensures Underway(c, tr, n + 1, k).Some?
  {}

  ghost predicate Busy<K, D, R>(c: Config, tr: seq<Access<K, D, R>>, n: nat, k: K)
    requires n <= |tr|
  {
    Underway(c, tr, n, k).Some?
  }

  lemma StaysBusy<K, D, R>(c: Config, tr: seq<Access<K, D, R>>, l: nat, n: nat, k: K)
    requires l < n <= |tr| && Busy(c, tr, l + 1, k) && NoRemoval(tr, l, n, k)
    ensures Busy(c, tr, n, k)
  {
    for i := l + 1 to n
      invariant Busy(c, tr, i, k)
    {
      StaysUnderway(c, tr, i, k);
    }
  }

  lemma StillUnderway<K, D, R>(c: Config, tr: seq<Access<K, D, R>>, l: nat, n: nat, k: K)
    requires n <= |tr| && Met(c, tr, l) && tr[l].key == k && l < n && NoRemoval(tr, l, n, k)
    ensures Underway(c, tr, n, k).Some?
  {
    StaysUnderway(c, tr, l, k);
    StaysBusy(c, tr, l, n, k);
  }

  lemma UndisturbedIsExclusiveAt<K, D, R>(c: Config, tr: seq<Access<K, D, R>>, n: nat)
    requires RemovalsPaired(tr) && AllEnded(c, tr) && NoneDisturbed(c.flag, tr) && n < |tr|
    ensures ExclusiveAt(c, tr, n)
  {
    var k := tr[n].key;
    match tr[n] {
      case Entry(_, _, pass, _) =>
        if c.flag == Any && pass && Underway(c, tr, n, k).Some? { StartDisturbs(c, tr, n); }
      case Lookup(_, _, _, _) =>
        if Underway(c, tr, n, k).Some? {
          LookupMeets(c, tr, n);
          UnderwayFacts(c, tr, n, k);
          OverlapDisturbs(c, tr, Underway(c, tr, n, k).value, n, n + 1, k);
        }
      case Remove(_, of) =>
        assert RemovalPairedAt(tr, n) && Ends(c, tr, n);
        assert NoRemoval(tr, of, n, k);
        StillUnderway(c, tr, of, n, k);
        UnderwayFacts(c, tr, n, k);
        if Underway(c, tr, n, k).value != of { OverlapDisturbs(c, tr, of, Underway(c, tr, n, k).value, n, k); }
    }
  }

  /** A lookup while another undisturbed exit of its key is under way meets the
      record, too. */
  lemma LookupMeets<K, D, R>(c: Config, tr: seq<Access<K, D, R>>, n: nat)
    requires RemovalsPaired(tr) && AllEnded(c, tr) && NoneDisturbed(c.flag, tr) && n < |tr| && tr[n].Lookup?
    requires Underway(c, tr, n, tr[n].key).Some?
    ensures Met(c, tr, n)
  {
    var k := tr[n].key;
    var u := Underway(c, tr, n, k).value;
    var a := EndsLater(c, tr, n, k);
    UnderwayFacts(c, tr, n, k);
    FilerKeptIff(c, tr, u, n);
    PendingIsFilers(c, tr, u, k);
    PendingIsFilers(c, tr, n, k);
  }

  /** And then, whatever the minimum and the ring, every key's events are those of
      the merged run, in order. */
  lemma UndisturbedRunReportsAlike<K, D, R>(c: Config, tr: seq<Access<K, D, R>>, k: K)
    requires RemovalsPaired(tr) && AllEnded(c, tr) && NoneDisturbed(c.flag, tr)
    ensures SettledBy(c, tr, |tr|, k) == OutOf(c, Merged(tr, |tr|), |Merged(tr, |tr|)|, k)
  {
    forall n | 0 <= n < |tr|
      ensures ExclusiveAt(c, tr, n)
    {
      UndisturbedIsExclusiveAt(c, tr, n);
    }
    SplitExitsReportAlike(c, tr, |tr|, k);
    if Underway(c, tr, |tr|, k).Some? { var j := EndsLater(c, tr, |tr|, k); }
  }
}

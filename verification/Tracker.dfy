/** The start/finish tracker that all four latency and snoop tools share: an
    entry probe files a record under a key, the exit probe for the same key
    takes it out again and may report it. The tools differ in the key, in the
    overwrite flag and in the least latency they report. */
module Tracker {
  import opened BpfMap

  datatype Config = Config(flag: Flag, cap: nat, minLat: nat)

  /** One atomic probe. `pass` is the verdict of the tool's own filter, `ring`
      says whether the ring buffer had room, `info` is what the exit probe
      itself contributes to the event. */
  datatype Step<K, D, R> =
    | Start(key: K, data: D, pass: bool, now: u64)
    | Finish(key: K, info: R, ring: bool, now: u64)

  datatype Rec<D> = Rec(data: D, ts: u64)

  datatype Event<D, R> = Event(data: D, info: R, latency: u64, end: u64)

  datatype State<K, D, R> = State(pending: map<K, Rec<D>>, out: seq<Event<D, R>>)

  /** What a completion reports for the record it found. */
  function Report<D, R>(c: Config, r: Rec<D>, info: R, ring: bool, now: u64): seq<Event<D, R>> {
    var latency := Sub64(now, r.ts);
    if latency < c.minLat || !ring then [] else [Event(r.data, info, latency, now)]
  }

  function Next<K(==), D, R>(c: Config, s: State<K, D, R>, step: Step<K, D, R>): State<K, D, R> {
    match step
    case Start(k, data, pass, now) =>
      if !pass then s else s.(pending := Update(s.pending, c.cap, c.flag, k, Rec(data, now)))
    case Finish(k, info, ring, now) =>
      if k !in s.pending then s
      else State(Delete(s.pending, k), s.out + Report(c, s.pending[k], info, ring, now))
  }

  /** The state after the first n steps of a run. */
  function Run<K(==), D, R>(c: Config, tr: seq<Step<K, D, R>>, n: nat): State<K, D, R>
    requires n <= |tr|
  {
    if n == 0 then State(map[], []) else Next(c, Run(c, tr, n - 1), tr[n - 1])
  }

  ghost predicate Monotone<K, D, R>(tr: seq<Step<K, D, R>>) {
    forall i, j :: 0 <= i < j < |tr| ==> tr[i].now <= tr[j].now
  }

  // ---------------------------------------------------------------------
  // The tracker as a function of its history
  // ---------------------------------------------------------------------

  ghost predicate FinishOf<K, D, R>(tr: seq<Step<K, D, R>>, i: int, k: K) {
    0 <= i < |tr| && tr[i].Finish? && tr[i].key == k
  }

  /** Step i starts key k, passes the filter and is not turned away for want of
      room. */
  ghost predicate Offered<K, D, R>(c: Config, tr: seq<Step<K, D, R>>, i: int, k: K) {
    && 0 <= i < |tr| && tr[i].Start? && tr[i].key == k && tr[i].pass
    && (k in Run(c, tr, i).pending || |Run(c, tr, i).pending| < c.cap)
  }

  /** i is the start that a completion of k at point n answers: there is no
      completion of k in between, and among the starts offered since k's
      previous completion it is the last one (BPF_ANY) or the first one
      (BPF_NOEXIST). */
  ghost predicate Source<K, D, R>(c: Config, tr: seq<Step<K, D, R>>, i: int, n: int, k: K) {
    && 0 <= i < n <= |tr| && Offered(c, tr, i, k)
    && !FinishBetween(tr, i, n, k)
    && match c.flag
       case Any => LastOffer(c, tr, i, n, k)
       case NoExist => FirstOffer(c, tr, i, k)
  }

  ghost predicate LastOffer<K, D, R>(c: Config, tr: seq<Step<K, D, R>>, i: int, n: int, k: K) {
    forall m :: i < m < n ==> !Offered(c, tr, m, k)
  }

  ghost predicate FirstOffer<K, D, R>(c: Config, tr: seq<Step<K, D, R>>, i: int, k: K) {
    forall m :: 0 <= m < i && Offered(c, tr, m, k) ==> FinishBetween(tr, m, i, k)
  }

  ghost predicate FinishBetween<K, D, R>(tr: seq<Step<K, D, R>>, lo: int, hi: int, k: K) {
    exists f :: lo < f < hi && FinishOf(tr, f, k)
  }

  /** A record stays filed until its key completes. */
  lemma {:induction false} StaysPending<K, D, R>(c: Config, tr: seq<Step<K, D, R>>, m: nat, n: nat, k: K)
    requires m < n <= |tr| && Offered(c, tr, m, k) && !FinishBetween(tr, m, n, k)
    ensures k in Run(c, tr, n).pending
  {
    if n > m + 1 {
      assert !FinishBetween(tr, m, n - 1, k);
      StaysPending(c, tr, m, n - 1, k);
      assert !FinishOf(tr, n - 1, k);
    }
  }

  /** A start whose record goes into the map is its key's source at once. */
  lemma FiledIsSource<K, D, R>(c: Config, tr: seq<Step<K, D, R>>, i: nat, k: K)
    requires Offered(c, tr, i, k)
    requires c.flag == Any || k !in Run(c, tr, i).pending
    ensures Source(c, tr, i, i + 1, k)
  {
    forall m | 0 <= m < i && Offered(c, tr, m, k) && c.flag == NoExist
      ensures FinishBetween(tr, m, i, k)
    {
      if !FinishBetween(tr, m, i, k) { StaysPending(c, tr, m, i, k); }
    }
  }

  /** Whatever is filed was filed by a source. */
  lemma {:induction false} PendingHasSource<K, D, R>(c: Config, tr: seq<Step<K, D, R>>, n: nat, k: K)
    returns (i: nat)
    requires n <= |tr| && k in Run(c, tr, n).pending
    ensures Source(c, tr, i, n, k)
    ensures Run(c, tr, n).pending[k] == Rec(tr[i].data, tr[i].now)
  {
    i := n - 1;
    if Offered(c, tr, i, k) && (c.flag == Any || k !in Run(c, tr, i).pending) {
      FiledIsSource(c, tr, i, k);
    } else {
      i := PendingHasSource(c, tr, n - 1, k);
      assert !FinishOf(tr, n - 1, k);
      assert !FinishBetween(tr, i, n, k);
    }
  }

  /** The map holds a record for k exactly when k has a source, and it is the
      record of that source. */
  lemma PendingIsSource<K, D, R>(c: Config, tr: seq<Step<K, D, R>>, n: nat, k: K)
    requires n <= |tr|
    ensures k in Run(c, tr, n).pending <==> exists i :: Source(c, tr, i, n, k)
    ensures forall i :: Source(c, tr, i, n, k) ==>
              k in Run(c, tr, n).pending && Run(c, tr, n).pending[k] == Rec(tr[i].data, tr[i].now)
  {
    forall i | Source(c, tr, i, n, k)
      ensures k in Run(c, tr, n).pending && Run(c, tr, n).pending[k] == Rec(tr[i].data, tr[i].now)
    {
      assert !FinishBetween(tr, i, n, k);
      StaysPending(c, tr, i, n, k);
      var s := PendingHasSource(c, tr, n, k);
      SourceIsUnique(c, tr, i, s, n, k);
    }
    if k in Run(c, tr, n).pending {
      var s := PendingHasSource(c, tr, n, k);
    }
  }

  lemma SourceIsUnique<K, D, R>(c: Config, tr: seq<Step<K, D, R>>, i: int, j: int, n: int, k: K)
    requires Source(c, tr, i, n, k) && Source(c, tr, j, n, k)
    ensures i == j
  {
    assert i < j && c.flag == NoExist ==> FinishBetween(tr, i, j, k);
    assert j < i && c.flag == NoExist ==> FinishBetween(tr, j, i, k);
  }

  /** Every report, of every run: step j adds to the output exactly when it
      completes a key that has a source, the ring has room and the time since
      that source's start reaches the minimum; the event then carries the
      source's data, and its end less its latency is the source's start. */
  lemma CompletionReportsSource<K, D, R>(c: Config, tr: seq<Step<K, D, R>>, j: nat, i: int)
    requires j < |tr| && Monotone(tr)
    requires Source(c, tr, i, j, tr[j].key)
    ensures tr[j].Finish? ==>
              Run(c, tr, j + 1).out == Run(c, tr, j).out +
              (if tr[j].ring && tr[j].now - tr[i].now >= c.minLat
               then [Event(tr[i].data, tr[j].info, tr[j].now - tr[i].now, tr[j].now)] else [])
    ensures tr[j].Finish? ==> tr[j].key !in Run(c, tr, j + 1).pending
  {
    PendingIsSource(c, tr, j, tr[j].key);
  }

  lemma NothingElseReports<K, D, R>(c: Config, tr: seq<Step<K, D, R>>, j: nat)
    requires j < |tr|
    requires tr[j].Start? || !exists i :: Source(c, tr, i, j, tr[j].key)
    ensures Run(c, tr, j + 1).out == Run(c, tr, j).out
  {
    PendingIsSource(c, tr, j, tr[j].key);
  }

  /** With a clock that never goes back, no stored start lies in the future, so
      the 64-bit subtraction of a completion never wraps. */
  lemma StartsAreInThePast<K, D, R>(c: Config, tr: seq<Step<K, D, R>>, n: nat, k: K)
    requires n < |tr| && Monotone(tr) && k in Run(c, tr, n).pending
    ensures Run(c, tr, n).pending[k].ts <= tr[n].now
  {
    PendingIsSource(c, tr, n, k);
    var i :| Source(c, tr, i, n, k);
  }

  // ---------------------------------------------------------------------
  // Conservation
  // ---------------------------------------------------------------------

  datatype Outcome = Filed | Replaced | TurnedAway | Reported | Below | RingFull | Unmatched

  /** What became of step j, read off the state it met. */
  ghost function OutcomeOf<K, D, R>(c: Config, tr: seq<Step<K, D, R>>, j: nat): Outcome
    requires j < |tr|
  {
    var s := Run(c, tr, j);
    match tr[j]
    case Start(k, _, pass, _) =>
      if !pass || !Admits(s.pending, c.cap, c.flag, k) then TurnedAway
      else if k in s.pending then Replaced else Filed
    case Finish(k, _, ring, now) =>
      if k !in s.pending then Unmatched
      else if Sub64(now, s.pending[k].ts) < c.minLat then Below
      else if ring then Reported else RingFull
  }

  ghost function Count<K, D, R>(c: Config, tr: seq<Step<K, D, R>>, n: nat, o: Outcome): nat
    requires n <= |tr|
  {
    if n == 0 then 0 else Count(c, tr, n - 1, o) + if OutcomeOf(c, tr, n - 1) == o then 1 else 0
  }

  /** Starts whose record was taken into the map, told from the history alone. */
  ghost function AcceptedStarts<K, D, R>(c: Config, tr: seq<Step<K, D, R>>, n: nat): nat
    requires n <= |tr|
  {
    if n == 0 then 0
    else AcceptedStarts(c, tr, n - 1) + if Source(c, tr, n - 1, n, tr[n - 1].key) then 1 else 0
  }

  ghost predicate Balanced<K, D, R>(c: Config, tr: seq<Step<K, D, R>>, n: nat)
    requires n <= |tr|
  {
    AcceptedStarts(c, tr, n)
      == Count(c, tr, n, Reported) + Count(c, tr, n, Below) + Count(c, tr, n, RingFull)
         + Count(c, tr, n, Replaced) + |Run(c, tr, n).pending|
  }

  /** What step j does to the size of the map and to the output. */
  lemma OutcomeShows<K, D, R>(c: Config, tr: seq<Step<K, D, R>>, j: nat)
    requires j < |tr|
    ensures var s, t, o := Run(c, tr, j), Run(c, tr, j + 1), OutcomeOf(c, tr, j);
            && |t.pending| == |s.pending| + (if o == Filed then 1 else if o in {Reported, Below, RingFull} then -1 else 0)
            && |t.out| == |s.out| + if o == Reported then 1 else 0
  {
    var s := Run(c, tr, j);
    assert Run(c, tr, j + 1) == Next(c, s, tr[j]);
  }

  lemma BalancedStep<K, D, R>(c: Config, tr: seq<Step<K, D, R>>, n: nat)
    requires n < |tr| && Balanced(c, tr, n)
    ensures Balanced(c, tr, n + 1)
  {
    OutcomeShows(c, tr, n);
    AcceptedIsAdmitted(c, tr, n);
  }

  /** Accepted starts = reported + below the minimum + lost to a full ring +
      overwritten + still in flight, in every reachable state; overwriting
      needs BPF_ANY, and the map never outgrows its capacity. */
  lemma Conservation<K, D, R>(c: Config, tr: seq<Step<K, D, R>>, n: nat)
    requires n <= |tr|
    ensures AcceptedStarts(c, tr, n)
         == Count(c, tr, n, Reported) + Count(c, tr, n, Below) + Count(c, tr, n, RingFull)
            + Count(c, tr, n, Replaced) + |Run(c, tr, n).pending|
    ensures |Run(c, tr, n).out| == Count(c, tr, n, Reported)
    ensures |Run(c, tr, n).pending| <= c.cap
    ensures c.flag == NoExist ==> Count(c, tr, n, Replaced) == 0
  {
    for i := 0 to n
      invariant Balanced(c, tr, i)
    {
      BalancedStep(c, tr, i);
    }
    OutputAndRoom(c, tr, n);
  }

  ghost predicate WithinBounds<K, D, R>(c: Config, tr: seq<Step<K, D, R>>, n: nat)
    requires n <= |tr|
  {
    && |Run(c, tr, n).out| == Count(c, tr, n, Reported)
    && |Run(c, tr, n).pending| <= c.cap
    && (c.flag == NoExist ==> Count(c, tr, n, Replaced) == 0)
  }

  lemma WithinBoundsStep<K, D, R>(c: Config, tr: seq<Step<K, D, R>>, n: nat)
    requires n < |tr| && WithinBounds(c, tr, n)
    ensures WithinBounds(c, tr, n + 1)
  {
    OutcomeShows(c, tr, n);
  }

  lemma OutputAndRoom<K, D, R>(c: Config, tr: seq<Step<K, D, R>>, n: nat)
    requires n <= |tr|
    ensures WithinBounds(c, tr, n)
  {
    StartsWithinBounds(c, tr);
    for i := 0 to n
      invariant WithinBounds(c, tr, i)
    {
      WithinBoundsStep(c, tr, i);
    }
  }

  lemma StartsWithinBounds<K, D, R>(c: Config, tr: seq<Step<K, D, R>>)
    ensures WithinBounds(c, tr, 0)
  {}

  lemma AcceptedIsAdmitted<K, D, R>(c: Config, tr: seq<Step<K, D, R>>, j: nat)
    requires j < |tr|
    ensures Source(c, tr, j, j + 1, tr[j].key) <==> OutcomeOf(c, tr, j) in {Filed, Replaced}
  {
    var k := tr[j].key;
    if Source(c, tr, j, j + 1, k) && c.flag == NoExist && k in Run(c, tr, j).pending {
      var s := PendingHasSource(c, tr, j, k);
    }
    if OutcomeOf(c, tr, j) in {Filed, Replaced} { FiledIsSource(c, tr, j, k); }
  }

  ghost predicate Completed<K, D, R>(c: Config, tr: seq<Step<K, D, R>>, i: int, n: int, k: K) {
    exists j :: i < j < n && FinishOf(tr, j, k) && Source(c, tr, i, j, k)
  }

  ghost predicate Overwritten<K, D, R>(c: Config, tr: seq<Step<K, D, R>>, i: int, n: int, k: K) {
    exists m :: i < m < n && Offered(c, tr, m, k) && Source(c, tr, i, m, k) && c.flag == Any
  }

  /** Each accepted start has exactly one fate: it is in flight, or one
      completion has answered it, or a later start of its key replaced it. */
  lemma {:induction false} OneFate<K, D, R>(c: Config, tr: seq<Step<K, D, R>>, i: nat, n: nat, k: K)
    requires i < n <= |tr| && Source(c, tr, i, i + 1, k)
    ensures Source(c, tr, i, n, k) || Completed(c, tr, i, n, k) || Overwritten(c, tr, i, n, k)
    ensures Completed(c, tr, i, n, k) ==> !Source(c, tr, i, n, k) && !Overwritten(c, tr, i, n, k)
    ensures Overwritten(c, tr, i, n, k) ==> !Source(c, tr, i, n, k)
    ensures forall j, j' :: i < j < j' && FinishOf(tr, j, k) ==> !Source(c, tr, i, j', k)
  {
    assert forall j, j' :: i < j < j' && FinishOf(tr, j, k) ==> FinishBetween(tr, i, j', k);
    if n > i + 1 { OneFate(c, tr, i, n - 1, k); }
  }
}

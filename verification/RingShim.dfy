/** Bulk draining of the event ring into a caller's buffer. */
module RingShim {
  import opened EventCodec

  type Record = seq<byte>

  /** What one poll makes of the records offered to its callback: the ones it
      hands over, the one it drops, and how many the ring has consumed. */
  datatype PollResult = PollResult(batch: seq<Record>, lost: seq<Record>, consumed: nat)

  function Offer(offered: seq<Record>, room: int): (r: PollResult)
    ensures r.consumed <= |offered|
    decreases |offered|
  {
    if offered == [] then PollResult([], [], 0)
    else if |offered[0]| < EVENT_SIZE then
      var rest := Offer(offered[1..], room);
      rest.(consumed := rest.consumed + 1)
    else if room <= 0 then PollResult([], [offered[0][..EVENT_SIZE]], 1)
    else
      var rest := Offer(offered[1..], room - 1);
      PollResult([offered[0][..EVENT_SIZE]] + rest.batch, rest.lost, rest.consumed + 1)
  }

  /** The records large enough to hold an event, cut to its size. */
  function FullSize(records: seq<Record>): (r: seq<Record>)
    ensures forall i :: 0 <= i < |r| ==> |r[i]| == EVENT_SIZE
  {
    if records == [] then []
    else (if |records[0]| < EVENT_SIZE then [] else [records[0][..EVENT_SIZE]]) + FullSize(records[1..])
  }

  lemma {:induction false} FullSizeAppend(a: seq<Record>, b: seq<Record>)
    ensures FullSize(a + b) == FullSize(a) + FullSize(b)
  {
    if a == [] {
      assert a + b == b;
    } else {
      assert (a + b)[1..] == a[1..] + b;
      FullSizeAppend(a[1..], b);
    }
  }

  /** One poll accounts for all it consumes: the full-size records are the batch
      in order, then at most one lost record, and one is lost only when the
      batch is as large as the capacity. */
  lemma {:induction false} PollAccounts(offered: seq<Record>, room: int)
    ensures var r := Offer(offered, room);
            && FullSize(offered[..r.consumed]) == r.batch + r.lost
            && |r.lost| <= 1
            && |r.batch| <= (if room > 0 then room else 0)
            && (r.lost != [] ==> |r.batch| == if room > 0 then room else 0)
            && (r.lost == [] ==> r.consumed == |offered|)
    decreases |offered|
  {
    if offered != [] {
      var r := Offer(offered, room);
      assert offered[..r.consumed][1..] == offered[1..][..r.consumed - 1];
      if |offered[0]| < EVENT_SIZE {
        PollAccounts(offered[1..], room);
      } else if room > 0 {
        PollAccounts(offered[1..], room - 1);
      } else {
        assert offered[..1][1..] == [];
      }
    }
  }

  // ---------------------------------------------------------------------
  // Runs of producers and polls
  // ---------------------------------------------------------------------

  /** Producers add records between polls and while a poll is under way. */
  datatype Action = Produce(rec: Record) | Poll(capacity: int, arriving: seq<Record>)

  datatype Polled = Polled(capacity: int, batch: seq<Record>, lost: seq<Record>)

  datatype Ring = Ring(produced: seq<Record>, taken: seq<Record>, queue: seq<Record>, polls: seq<Polled>)

  function RingNext(s: Ring, a: Action): Ring {
    match a
    case Produce(rec) => s.(produced := s.produced + [rec], queue := s.queue + [rec])
    case Poll(capacity, arriving) =>
      var offered := s.queue + arriving;
      var r := Offer(offered, capacity);
      Ring(s.produced + arriving, s.taken + offered[..r.consumed], offered[r.consumed..],
           s.polls + [Polled(capacity, r.batch, r.lost)])
  }

  function RingRun(actions: seq<Action>): Ring {
    if actions == [] then Ring([], [], [], [])
    else RingNext(RingRun(actions[..|actions| - 1]), actions[|actions| - 1])
  }

  /** Everything that producers add in a run, in order. */
  function Arrivals(actions: seq<Action>): seq<Record> {
    if actions == [] then []
    else
      Arrivals(actions[..|actions| - 1]) +
        match actions[|actions| - 1]
        case Produce(rec) => [rec]
        case Poll(_, arriving) => arriving
  }

  function Capacities(actions: seq<Action>): seq<int> {
    if actions == [] then []
    else
      Capacities(actions[..|actions| - 1]) +
        if actions[|actions| - 1].Poll? then [actions[|actions| - 1].capacity] else []
  }

  /** The run takes in all of it, and has one outcome for each of its polls. */
  lemma {:induction false} RunTakesAll(actions: seq<Action>)
    ensures RingRun(actions).produced == Arrivals(actions)
    ensures |RingRun(actions).polls| == |Capacities(actions)|
    ensures forall p :: 0 <= p < |Capacities(actions)| ==> RingRun(actions).polls[p].capacity == Capacities(actions)[p]
  {
    if actions != [] { RunTakesAll(actions[..|actions| - 1]); }
  }

  /** Each batch followed by what its poll lost. */
  function Merge(polls: seq<Polled>): seq<Record> {
    if polls == [] then []
    else
      var last := polls[|polls| - 1];
      Merge(polls[..|polls| - 1]) + last.batch + last.lost
  }

  ghost predicate Accounted(s: Ring) {
    && s.produced == s.taken + s.queue
    && FullSize(s.taken) == Merge(s.polls)
    && forall p :: 0 <= p < |s.polls| ==>
         && |s.polls[p].lost| <= 1
         && (s.polls[p].lost != [] && s.polls[p].capacity > 0 ==> |s.polls[p].batch| == s.polls[p].capacity)
  }

  /** Over any run, what was produced is what was consumed plus what is queued,
      in order; the batches put together are the consumed full-size records in
      order but for at most one per poll, dropped only by a poll that returned
      exactly its capacity. */
  lemma {:induction false} DrainingLosesAtMostOnePerPoll(actions: seq<Action>)
    ensures Accounted(RingRun(actions))
  {
    if actions != [] {
      DrainingLosesAtMostOnePerPoll(actions[..|actions| - 1]);
      AccountedStep(RingRun(actions[..|actions| - 1]), actions[|actions| - 1]);
    }
  }

  lemma TakenStep(s: Ring, offered: seq<Record>, p: Polled, consumed: nat)
    requires Accounted(s) && consumed <= |offered| && FullSize(offered[..consumed]) == p.batch + p.lost
    ensures FullSize(s.taken + offered[..consumed]) == Merge(s.polls + [p])
  {
    FullSizeAppend(s.taken, offered[..consumed]);
    assert (s.polls + [p])[..|s.polls|] == s.polls;
    assert Merge(s.polls) + p.batch + p.lost == Merge(s.polls) + (p.batch + p.lost);
  }

  lemma Regroup<T>(a: seq<T>, b: seq<T>, c: seq<T>, n: nat)
    requires n <= |b + c|
    ensures (a + (b + c)[..n]) + (b + c)[n..] == (a + b) + c
  {
    assert (b + c)[..n] + (b + c)[n..] == b + c;
  }

  lemma ProduceKeeps(s: Ring, rec: Record)
    requires Accounted(s)
    ensures Accounted(RingNext(s, Produce(rec)))
  {
    assert s.taken + (s.queue + [rec]) == (s.taken + s.queue) + [rec];
  }

  lemma PollKeeps(s: Ring, capacity: int, arriving: seq<Record>)
    requires Accounted(s)
    ensures Accounted(RingNext(s, Poll(capacity, arriving)))
  {
    var offered := s.queue + arriving;
    var r := Offer(offered, capacity);
    PollAccounts(offered, capacity);
    TakenStep(s, offered, Polled(capacity, r.batch, r.lost), r.consumed);
    Regroup(s.taken, s.queue, arriving, r.consumed);
  }

  lemma AccountedStep(s: Ring, a: Action)
    requires Accounted(s)
    ensures Accounted(RingNext(s, a))
  {
    match a
    case Produce(rec) => ProduceKeeps(s, rec);
    case Poll(capacity, arriving) => PollKeeps(s, capacity, arriving);
  }

  lemma {:induction false} AllFullSize(records: seq<Record>)
    requires forall j :: 0 <= j < |records| ==> |records[j]| == EVENT_SIZE
    ensures FullSize(records) == records
  {
    if records != [] {
      AllFullSize(records[1..]);
      assert records[0][..EVENT_SIZE] == records[0];
      assert records == [records[0]] + records[1..];
    }
  }

  /** From probe to consumer: when every record is an encoded event, decoding the
      batches and the lost records in turn recovers the events in the order they
      were produced. */
  lemma ConsumerSeesEventsInOrder(actions: seq<Action>, stale: seq<Record>, events: seq<AodEvent>, j: nat)
    requires var s := RingRun(actions);
             && |events| == |stale| == |s.produced|
             && forall i :: 0 <= i < |events| ==>
                  |stale[i]| == EVENT_SIZE && WellFormed(events[i]) && s.produced[i] == Encode(stale[i], events[i])
    requires j < |Merge(RingRun(actions).polls)|
    ensures var seen := Merge(RingRun(actions).polls);
            j < |events| && |seen[j]| == EVENT_SIZE && Recovers(Decode(seen[j]), events[j])
  {
    var s := RingRun(actions);
    DrainingLosesAtMostOnePerPoll(actions);
    assert s.taken == s.produced[..|s.taken|];
    AllFullSize(s.taken);
    assert s.taken[j] == s.produced[j];
    ConsumerRecoversEvent(stale[j], events[j]);
  }

  // ---------------------------------------------------------------------
  // The shim itself
  // ---------------------------------------------------------------------

  function Concat(records: seq<Record>): seq<byte> {
    if records == [] then [] else Concat(records[..|records| - 1]) + records[|records| - 1]
  }

  const EINTR: int := 4

  class RbContext {
    var extBuf: array<byte>
    var extCapacity: int
    var count: nat

    constructor ()
      ensures fresh(extBuf) && count == 0
    {
      extBuf := new byte[0];
      extCapacity, count := 0, 0;
    }

    /** The caller's buffer holds as many events as it says. */
    ghost predicate Fits()
      reads this
    {
      extCapacity * EVENT_SIZE <= extBuf.Length && (count <= extCapacity || count == 0)
    }

    method CopyEvent(data: Record) returns (r: int)
      requires Fits()
      modifies this`count, extBuf
      ensures Fits() && extBuf == old(extBuf) && extCapacity == old(extCapacity)
      ensures r == if |data| >= EVENT_SIZE && old(count) >= extCapacity then -1 else 0
      ensures count == old(count) + if |data| >= EVENT_SIZE && old(count) < extCapacity then 1 else 0
      ensures count > old(count) ==> extBuf[old(count) * EVENT_SIZE..count * EVENT_SIZE] == data[..EVENT_SIZE]
      ensures forall i :: 0 <= i < extBuf.Length && !(old(count) * EVENT_SIZE <= i < count * EVENT_SIZE) ==>
                extBuf[i] == old(extBuf[i])
    {
      if |data| < EVENT_SIZE { return 0; }
      if count >= extCapacity { return -1; }
      var base := count * EVENT_SIZE;
      forall i | 0 <= i < EVENT_SIZE {
        extBuf[base + i] := data[i];
      }
      count := count + 1;
      return 0;
    }

    /** The ring's own loop over the records it offers in this poll, oldest
        first: it stops when the callback fails, and that record too is consumed. */
    method Drain(offered: seq<Record>) returns (err: int, consumed: nat)
      requires Fits() && count == 0
      modifies this`count, extBuf
      ensures extBuf == old(extBuf) && extCapacity == old(extCapacity)
      ensures var r := Offer(offered, extCapacity);
              && consumed == r.consumed && count == |r.batch| && err == (if r.lost == [] then 0 else -1)
              && Holds(extBuf, old(extBuf[..]), r.batch)
    {
      consumed := 0;
      err := 0;
      ghost var done: seq<Record> := [];
      ghost var was := extBuf[..];
      while consumed < |offered| && err == 0
        invariant Fits() && extBuf == old(extBuf) && extCapacity == old(extCapacity)
        invariant count == |done| && Holds(extBuf, was, done)
        invariant Drained(offered, extCapacity, done, consumed, err)
        decreases |offered| - consumed
      {
        ghost var before := extBuf[..];
        var data := offered[consumed];
        DrainedStep(offered, extCapacity, done, consumed);
        err := CopyEvent(data);
        consumed := consumed + 1;
        if count > |done| {
          HoldsMore(extBuf, was, before, done, data[..EVENT_SIZE]);
          done := done + [data[..EVENT_SIZE]];
        } else {
          assert extBuf[..] == before;
        }
      }
      DrainedAll(offered, extCapacity, done, consumed, err);
    }

    /** `wait` is what waiting on the ring returned. Bytes past the events
        returned keep their values. */
    method PollInto(buf: array<byte>, capacity: int, wait: int, offered: seq<Record>) returns (ret: int, consumed: nat)
      requires capacity * EVENT_SIZE <= buf.Length
      modifies this, buf
      ensures var r := if wait < 0 then PollResult([], [], 0) else Offer(offered, capacity);
              && consumed == r.consumed
              && ret == (if r.batch != [] then |r.batch|
                         else if r.lost != [] then -1
                         else if wait < 0 && wait != -EINTR then wait else 0)
              && Holds(buf, old(buf[..]), r.batch)
    {
      extBuf, extCapacity, count := buf, capacity, 0;
      consumed := 0;
      var err := wait;
      if wait >= 0 { err, consumed := Drain(offered); }
      if count > 0 { return count, consumed; }
      if err < 0 && err != -EINTR { return err, consumed; }
      return 0, consumed;
    }
  }

  /** The buffer starts with the batch, and is untouched after it. */
  ghost predicate Holds(buf: array<byte>, was: seq<byte>, batch: seq<Record>)
    reads buf
  {
    && |was| == buf.Length && |batch| * EVENT_SIZE <= buf.Length
    && buf[..|batch| * EVENT_SIZE] == Concat(batch)
    && buf[|batch| * EVENT_SIZE..] == was[|batch| * EVENT_SIZE..]
  }

  lemma HoldsMore(buf: array<byte>, was: seq<byte>, before: seq<byte>, batch: seq<Record>, rec: Record)
    requires |was| == |before| == buf.Length && |rec| == EVENT_SIZE
    requires (|batch| + 1) * EVENT_SIZE <= buf.Length
    requires before[..|batch| * EVENT_SIZE] == Concat(batch)
    requires before[|batch| * EVENT_SIZE..] == was[|batch| * EVENT_SIZE..]
    requires buf[|batch| * EVENT_SIZE..(|batch| + 1) * EVENT_SIZE] == rec
    requires forall i :: 0 <= i < buf.Length && !(|batch| * EVENT_SIZE <= i < (|batch| + 1) * EVENT_SIZE) ==> buf[i] == before[i]
    ensures Holds(buf, was, batch + [rec])
  {
    var lo, hi := |batch| * EVENT_SIZE, (|batch| + 1) * EVENT_SIZE;
    assert (batch + [rec])[..|batch|] == batch;
    assert buf[..lo] == before[..lo];
    assert buf[..hi] == buf[..lo] + buf[lo..hi];
    forall i | hi <= i < buf.Length
      ensures buf[i] == was[i]
    {
      assert before[i] == before[lo..][i - lo] == was[lo..][i - lo];
    }
  }

  /** After i records the callback has handed over `done`: either the poll goes
      on with the rest, or it has just failed and is over. */
  ghost predicate Drained(offered: seq<Record>, capacity: int, done: seq<Record>, i: nat, err: int) {
    var whole := Offer(offered, capacity);
    && i <= |offered|
    && if err == 0 then
         var rest := Offer(offered[i..], capacity - |done|);
         whole == PollResult(done + rest.batch, rest.lost, i + rest.consumed)
       else
         err == -1 && whole.batch == done && whole.lost != [] && whole.consumed == i
  }

  lemma DrainedStep(offered: seq<Record>, capacity: int, done: seq<Record>, i: nat)
    requires i < |offered| && Drained(offered, capacity, done, i, 0)
    ensures |offered[i]| < EVENT_SIZE ==> Drained(offered, capacity, done, i + 1, 0)
    ensures |offered[i]| >= EVENT_SIZE && |done| >= capacity ==> Drained(offered, capacity, done, i + 1, -1)
    ensures |offered[i]| >= EVENT_SIZE && |done| < capacity ==>
              Drained(offered, capacity, done + [offered[i][..EVENT_SIZE]], i + 1, 0)
  {
    assert offered[i..][0] == offered[i] && offered[i..][1..] == offered[i + 1..];
    assert done + [] == done;
    var cut: seq<Record> := if |offered[i]| < EVENT_SIZE then [] else [offered[i][..EVENT_SIZE]];
    assert forall rest: seq<Record> :: (done + cut) + rest == done + (cut + rest);
  }

  lemma DrainedAll(offered: seq<Record>, capacity: int, done: seq<Record>, i: nat, err: int)
    requires Drained(offered, capacity, done, i, err) && (i == |offered| || err != 0)
    ensures var r := Offer(offered, capacity);
            r.batch == done && r.consumed == i && err == if r.lost == [] then 0 else -1
  {
    assert done + [] == done;
  }
}

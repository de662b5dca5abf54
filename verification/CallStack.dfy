/** iosnoop files a record per (thread, operation): on properly nested calls its
    map behaves like one call stack per thread. */
module CallStack {
  import opened BpfMap
  import opened Tracker

  /** The two halves of the 64-bit thread identity. */
  datatype Thread = Thread(pid: Pid, tid: Pid)

  type Pid = x: bv64 | x <= 0xFFFF_FFFF

  datatype OpKey = OpKey(id: Thread, kind: nat)

  type Probe<D, R> = Step<OpKey, D, R>

  /** The calls open on thread id after n steps, outermost first, each named by
      the position of its entry probe. */
  ghost function Stack<D, R>(tr: seq<Probe<D, R>>, n: nat, id: Thread): (st: seq<nat>)
    requires n <= |tr|
    ensures forall x :: 0 <= x < |st| ==> st[x] < n && tr[st[x]].Start? && tr[st[x]].key.id == id
  {
    if n == 0 then []
    else
      var st := Stack(tr, n - 1, id);
      if tr[n - 1].key.id != id then st
      else if tr[n - 1].Start? then st + [n - 1]
      else if st == [] then st else st[..|st| - 1]
  }

  /** Step j respects the nesting of its thread: an entry opens an operation not
      open yet, an exit closes the innermost open call. */
  ghost predicate NestedAt<D, R>(tr: seq<Probe<D, R>>, j: nat)
    requires j < |tr|
  {
    var st := Stack(tr, j, tr[j].key.id);
    match tr[j]
    case Start(k, _, _, _) => forall x :: 0 <= x < |st| ==> tr[st[x]].key != k
    case Finish(k, _, _, _) => st != [] && tr[st[|st| - 1]].key == k
  }

  ghost predicate Nested<D, R>(tr: seq<Probe<D, R>>) {
    forall j :: 0 <= j < |tr| ==> NestedAt(tr, j)
  }

  /** The call opened at i has a record exactly when its entry was stored, and
      it is its own record. */
  ghost predicate Mirrored<D, R>(c: Config, tr: seq<Probe<D, R>>, n: nat, i: nat)
    requires i < n <= |tr| && tr[i].Start?
  {
    var p, k := Run(c, tr, n).pending, tr[i].key;
    && (k in p <==> Offered(c, tr, i, k))
    && (k in p ==> p[k] == Rec(tr[i].data, tr[i].now))
  }

  lemma {:induction false} OpenKeysDistinct<D, R>(tr: seq<Probe<D, R>>, n: nat, id: Thread, x: nat, y: nat)
    requires n <= |tr| && Nested(tr) && x < y < |Stack(tr, n, id)|
    ensures tr[Stack(tr, n, id)[x]].key != tr[Stack(tr, n, id)[y]].key
  {
    var st, st' := Stack(tr, n - 1, id), Stack(tr, n, id);
    assert NestedAt(tr, n - 1);
    if y < |st| {
      assert st'[x] == st[x] && st'[y] == st[y];
      OpenKeysDistinct(tr, n - 1, id, x, y);
    } else {
      assert st'[y] == n - 1 && st'[x] == st[x];
    }
  }

  lemma NewCallMirrored<D, R>(c: Config, tr: seq<Probe<D, R>>, i: nat)
    requires i < |tr| && tr[i].Start? && c.flag == Any && Nested(tr)
    ensures Mirrored(c, tr, i + 1, i)
  {
    assert NestedAt(tr, i);
    if tr[i].key in Run(c, tr, i).pending {
      var y := RecordIsOnStack(c, tr, i, tr[i].key);
    }
  }

  /** A step leaves the calls that stay open alone. */
  lemma OpenCallUntouched<D, R>(tr: seq<Probe<D, R>>, n: nat, id: Thread, x: nat)
    requires 0 < n <= |tr| && Nested(tr) && x < |Stack(tr, n, id)| && Stack(tr, n, id)[x] != n - 1
    ensures x < |Stack(tr, n - 1, id)| && Stack(tr, n - 1, id)[x] == Stack(tr, n, id)[x]
    ensures tr[n - 1].key != tr[Stack(tr, n, id)[x]].key
  {
    var st := Stack(tr, n - 1, id);
    assert x < |st| && st[x] == Stack(tr, n, id)[x];
    if tr[n - 1].key.id == id {
      assert NestedAt(tr, n - 1);
      if tr[n - 1].Finish? { OpenKeysDistinct(tr, n - 1, id, x, |st| - 1); }
    }
  }

  lemma OtherKeyUntouched<D, R>(c: Config, tr: seq<Probe<D, R>>, n: nat, k: OpKey)
    requires 0 < n <= |tr| && tr[n - 1].key != k
    ensures k in Run(c, tr, n).pending <==> k in Run(c, tr, n - 1).pending
    ensures k in Run(c, tr, n).pending ==> Run(c, tr, n).pending[k] == Run(c, tr, n - 1).pending[k]
  {}

  lemma {:induction false} OpenCallsMirrored<D, R>(c: Config, tr: seq<Probe<D, R>>, n: nat, id: Thread, x: nat)
    requires n <= |tr| && c.flag == Any && Nested(tr) && x < |Stack(tr, n, id)|
    ensures Mirrored(c, tr, n, Stack(tr, n, id)[x])
  {
    var i := Stack(tr, n, id)[x];
    if i == n - 1 {
      NewCallMirrored(c, tr, i);
    } else {
      OpenCallUntouched(tr, n, id, x);
      OpenCallsMirrored(c, tr, n - 1, id, x);
      OtherKeyUntouched(c, tr, n, tr[i].key);
    }
  }

  /** Each record belongs to an open call. */
  lemma {:induction false} RecordIsOnStack<D, R>(c: Config, tr: seq<Probe<D, R>>, n: nat, k: OpKey) returns (x: nat)
    requires n <= |tr| && c.flag == Any && Nested(tr) && k in Run(c, tr, n).pending
    ensures x < |Stack(tr, n, k.id)| && tr[Stack(tr, n, k.id)[x]].key == k
  {
    var st, st' := Stack(tr, n - 1, k.id), Stack(tr, n, k.id);
    if tr[n - 1].Start? && tr[n - 1].key == k {
      x := |st|;
    } else {
      x := RecordIsOnStack(c, tr, n - 1, k);
      assert NestedAt(tr, n - 1);
      assert st'[x] == st[x];
    }
  }

  /** Step j takes the events from `before` to `after`: an exit adds the event of
      the call it closes, with that call's own data, if the entry was stored and
      the ring has room; an entry adds nothing. */
  ghost predicate ReportsOwnCall<D, R>(c: Config, tr: seq<Probe<D, R>>, j: nat,
      before: seq<Event<D, R>>, after: seq<Event<D, R>>)
    requires j < |tr|
  {
    if tr[j].Start? then after == before
    else
      var st := Stack(tr, j, tr[j].key.id);
      st != [] &&
      var call := st[|st| - 1];
      after == before + if Offered(c, tr, call, tr[j].key) && tr[j].ring
        then [Event(tr[call].data, tr[j].info, Sub64(tr[j].now, tr[call].now), tr[j].now)] else []
  }

  /** Exit probe j closes the call that entry probe i opened. */
  ghost predicate ExitOf<D, R>(tr: seq<Probe<D, R>>, i: nat, j: int) {
    && i < j < |tr| && tr[j].Finish?
    && var st := Stack(tr, j, tr[j].key.id); st != [] && st[|st| - 1] == i
  }

  ghost predicate ClosedBefore<D, R>(tr: seq<Probe<D, R>>, i: nat, n: nat) {
    exists j :: j < n && ExitOf(tr, i, j)
  }

  lemma {:induction false} OuterIsEarlier<D, R>(tr: seq<Probe<D, R>>, n: nat, id: Thread, x: nat, y: nat)
    requires n <= |tr| && x < y < |Stack(tr, n, id)|
    ensures Stack(tr, n, id)[x] < Stack(tr, n, id)[y]
  {
    var st, st' := Stack(tr, n - 1, id), Stack(tr, n, id);
    assert st'[x] == st[x];
    if y < |st| {
      assert st'[y] == st[y];
      OuterIsEarlier(tr, n - 1, id, x, y);
    }
  }

  /** An exit takes its call off the stack for good. */
  lemma {:induction false} ClosedStaysClosed<D, R>(tr: seq<Probe<D, R>>, i: nat, j: nat, n: nat)
    requires ExitOf(tr, i, j) && j < n <= |tr|
    ensures i !in Stack(tr, n, tr[i].key.id)
  {
    var id := tr[i].key.id;
    var st := Stack(tr, n - 1, id);
    if n == j + 1 {
      forall x | 0 <= x < |st| - 1 ensures st[x] != i {
        OuterIsEarlier(tr, j, id, x, |st| - 1);
      }
    } else {
      ClosedStaysClosed(tr, i, j, n - 1);
    }
  }

  /** Every call is either still open or closed, and never closed twice. */
  lemma {:induction false} EachCallExitsOnce<D, R>(tr: seq<Probe<D, R>>, i: nat, n: nat)
    requires i < n <= |tr| && tr[i].Start?
    ensures i in Stack(tr, n, tr[i].key.id) <==> !ClosedBefore(tr, i, n)
    ensures forall j, j' :: ExitOf(tr, i, j) && ExitOf(tr, i, j') ==> j == j'
  {
    StaysOpen(tr, i, n);
    forall j | ExitOf(tr, i, j) && j < n
      ensures i !in Stack(tr, n, tr[i].key.id)
    {
      ClosedStaysClosed(tr, i, j, n);
    }
    forall j, j' | ExitOf(tr, i, j) && ExitOf(tr, i, j')
      ensures j == j'
    {
      if j < j' { ClosedStaysClosed(tr, i, j, j'); }
      if j' < j { ClosedStaysClosed(tr, i, j', j); }
    }
  }

  lemma {:induction false} StaysOpen<D, R>(tr: seq<Probe<D, R>>, i: nat, n: nat)
    requires i < n <= |tr| && tr[i].Start?
    ensures !ClosedBefore(tr, i, n) ==> i in Stack(tr, n, tr[i].key.id)
  {
    var id := tr[i].key.id;
    var st, st' := Stack(tr, n - 1, id), Stack(tr, n, id);
    if n == i + 1 {
      assert st'[|st|] == i;
    } else if !ClosedBefore(tr, i, n) {
      assert !ExitOf(tr, i, n - 1);
      StaysOpen(tr, i, n - 1);
      var x :| 0 <= x < |st| && st[x] == i;
      assert st'[x] == i;
    }
  }

  /** Without the hypothesis that no operation is open twice on a thread the
      pairing fails: the inner call's record replaces the outer one's, and the
      outer exit reports nothing. */
  lemma SameOperationTwiceLosesOuter(id: Thread, outer: int, inner: int, info: int)
    ensures
      var k := OpKey(id, 1);
      var tr: seq<Probe<int, int>> :=
        [Start(k, outer, true, 0), Start(k, inner, true, 0), Finish(k, info, true, 7), Finish(k, info, true, 9)];
      Run(Config(Any, 4096, 0), tr, 4).out == [Event(inner, info, 7, 7)]
  {
    var k := OpKey(id, 1);
    var c := Config(Any, 4096, 0);
    var tr: seq<Probe<int, int>> :=
      [Start(k, outer, true, 0), Start(k, inner, true, 0), Finish(k, info, true, 7), Finish(k, info, true, 9)];
    assert Run(c, tr, 0) == State(map[], []);
    assert Run(c, tr, 1) == State(map[k := Rec(outer, 0)], []);
    assert Run(c, tr, 2) == State(map[k := Rec(inner, 0)], []);
    assert Run(c, tr, 3).out == [Event(inner, info, 7, 7)] && k !in Run(c, tr, 3).pending;
  }
}

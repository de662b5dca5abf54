/** Relations between whole runs of a tracker: renaming its keys, dropping
    completions that find nothing, and looking at one key at a time. */
module TrackerRuns {
  import opened Options
  import opened BpfMap
  import opened Tracker

  // ---------------------------------------------------------------------
  // Renaming keys
  // ---------------------------------------------------------------------

  /** Step by step the same run, except for the key. */
  ghost predicate SameButKeys<K, L, D, R>(tr: seq<Step<K, D, R>>, tr': seq<Step<L, D, R>>) {
    |tr'| == |tr| && forall i :: 0 <= i < |tr| ==> SameButKey(tr[i], tr'[i])
  }

  ghost predicate SameButKey<K, L, D, R>(a: Step<K, D, R>, b: Step<L, D, R>) {
    match a
    case Start(_, data, pass, now) => b == Start(b.key, data, pass, now)
    case Finish(_, info, ring, now) => b == Finish(b.key, info, ring, now)
  }

  /** Each key in flight after n steps of tr, with the key the same request has
      in tr'. */
  ghost function Pairing<K, L, D, R>(cap: nat, tr: seq<Step<K, D, R>>, tr': seq<Step<L, D, R>>, n: nat): map<K, L>
    requires n <= |tr| == |tr'|
  {
    if n == 0 then map[] else Paired(cap, Pairing(cap, tr, tr', n - 1), tr[n - 1], tr'[n - 1].key)
  }

  ghost function Paired<K, L, D, R>(cap: nat, b: map<K, L>, step: Step<K, D, R>, l: L): map<K, L> {
    match step
    case Start(k, _, pass, _) => if pass && k !in b && |b| < cap then b[k := l] else b
    case Finish(k, _, _, _) => Delete(b, k)
  }

  /** Among the requests in flight the two namings are one to one: a step meets
      a request in flight under its one name exactly when it meets the same
      request under the other. A name may be used again once it is free. */
  ghost predicate NamesAgree<K, L, D, R>(cap: nat, tr: seq<Step<K, D, R>>, tr': seq<Step<L, D, R>>) {
    |tr| == |tr'| && forall j :: 0 <= j < |tr| ==> NamesAgreeAt(cap, tr, tr', j)
  }

  ghost predicate NamesAgreeAt<K, L, D, R>(cap: nat, tr: seq<Step<K, D, R>>, tr': seq<Step<L, D, R>>, j: nat)
    requires j < |tr| == |tr'|
  {
    NameAgrees(Pairing(cap, tr, tr', j), tr[j].key, tr'[j].key)
  }

  ghost predicate NameAgrees<K, L>(b: map<K, L>, k: K, l: L) {
    if k in b then b[k] == l else l !in b.Values
  }

  /** No key is started while it is in flight. */
  ghost predicate NoRestart<K, L, D, R>(cap: nat, tr: seq<Step<K, D, R>>, tr': seq<Step<L, D, R>>)
    requires |tr| == |tr'|
  {
    forall j :: 0 <= j < |tr| ==> StartsFree(cap, tr, tr', j)
  }

  ghost predicate StartsFree<K, L, D, R>(cap: nat, tr: seq<Step<K, D, R>>, tr': seq<Step<L, D, R>>, j: nat)
    requires j < |tr| == |tr'|
  {
    tr[j].Start? && tr[j].pass ==> tr[j].key !in Pairing(cap, tr, tr', j)
  }

  ghost predicate OneToOne<K, L>(b: map<K, L>) {
    forall x, y :: x in b && y in b && b[x] == b[y] ==> x == y
  }

  /** q is p with every key replaced by its pair. */
  ghost predicate SameUnder<K, L, V>(b: map<K, L>, p: map<K, V>, q: map<L, V>) {
    && OneToOne(b) && b.Keys == p.Keys && q.Keys == b.Values
    && forall k :: k in b ==> q[b[k]] == p[k]
  }

  lemma {:induction false} OneToOneSize<K, L>(b: map<K, L>)
    requires OneToOne(b)
    ensures |b.Values| == |b.Keys| == |b|
    decreases |b|
  {
    if |b| == 0 {
      assert b.Values == {};
    } else {
      var k :| k in b;
      var r := Delete(b, k);
      OneToOneSize(r);
      assert b.Values == r.Values + {b[k]} by {
        forall l | l in b.Values ensures l in r.Values + {b[k]} {
          var x :| x in b && b[x] == l;
          assert x != k ==> x in r;
        }
      }
    }
  }

  lemma SameAfterPut<K, L, V>(b: map<K, L>, p: map<K, V>, q: map<L, V>, k: K, l: L, v: V)
    requires SameUnder(b, p, q) && NameAgrees(b, k, l)
    ensures SameUnder(b[k := l], p[k := v], q[l := v])
  {
    var b' := b[k := l];
    assert b'.Values == b.Values + {l} by {
      assert b'[k] == l;
      forall y | y in b.Values ensures y in b'.Values {
        var x :| x in b && b[x] == y;
        assert b'[x] == y;
      }
    }
  }

  lemma DeleteAbsent<K, V>(m: map<K, V>, k: K)
    requires k !in m
    ensures Delete(m, k) == m
  {}

  lemma ValuesAfterDelete<K, L>(b: map<K, L>, k: K)
    requires OneToOne(b) && k in b
    ensures Delete(b, k).Values == b.Values - {b[k]}
  {
    var b' := Delete(b, k);
    forall y | y in b.Values - {b[k]} ensures y in b'.Values {
      var x :| x in b && b[x] == y;
      assert x in b';
    }
    forall x | x in b' ensures b'[x] in b.Values - {b[k]} {
      assert b[x] == b'[x];
    }
  }

  lemma SameAfterDelete<K, L, V>(b: map<K, L>, p: map<K, V>, q: map<L, V>, k: K)
    requires SameUnder(b, p, q) && k in b
    ensures SameUnder(Delete(b, k), Delete(p, k), Delete(q, b[k]))
  {
    ValuesAfterDelete(b, k);
    assert Delete(b, k).Keys == b.Keys - {k} == Delete(p, k).Keys;
    assert Delete(q, b[k]).Keys == q.Keys - {b[k]};
  }

  /** One step keeps two renamed states in agreement. */
  lemma RenamedStep<K, L, D, R>(c: Config, c': Config, b: map<K, L>,
      s: State<K, D, R>, s': State<L, D, R>, step: Step<K, D, R>, step': Step<L, D, R>)
    requires SameButKey(step, step') && NameAgrees(b, step.key, step'.key)
    requires SameUnder(b, s.pending, s'.pending) && s.out == s'.out
    requires c'.cap == c.cap && c'.minLat == c.minLat
    requires c'.flag == c.flag || (step.Start? && step.pass ==> step.key !in b)
    ensures Next(c', s', step').out == Next(c, s, step).out
    ensures SameUnder(Paired(c.cap, b, step, step'.key), Next(c, s, step).pending, Next(c', s', step').pending)
  {
    var k, l := step.key, step'.key;
    OneToOneSize(b);
    assert |s.pending| == |s.pending.Keys| == |b| && |s'.pending| == |s'.pending.Keys| == |b|;
    match step {
      case Start(_, data, pass, now) =>
        SameAfterPut(b, s.pending, s'.pending, k, l, Rec(data, now));
        assert k in b ==> b[k := l] == b;
      case Finish(_, _, _, _) =>
        if k in b {
          SameAfterDelete(b, s.pending, s'.pending, k);
        } else {
          DeleteAbsent(b, k);
        }
    }
  }

  /** Two trackers that see the same requests under different names report the
      same events, whether or not their maps fill up. When their overwrite flags
      differ this needs that no key restarts while in flight. */
  lemma {:induction false} RenamedRunsAgree<K, L, D, R>(
      c: Config, c': Config, tr: seq<Step<K, D, R>>, tr': seq<Step<L, D, R>>, n: nat)
    requires SameButKeys(tr, tr') && NamesAgree(c.cap, tr, tr') && n <= |tr|
    requires c'.cap == c.cap && c'.minLat == c.minLat
    requires c'.flag == c.flag || NoRestart(c.cap, tr, tr')
    ensures Run(c', tr', n).out == Run(c, tr, n).out
    ensures SameUnder(Pairing(c.cap, tr, tr', n), Run(c, tr, n).pending, Run(c', tr', n).pending)
  {
    if n > 0 {
      RenamedRunsAgree(c, c', tr, tr', n - 1);
      var b, step, step' := Pairing(c.cap, tr, tr', n - 1), tr[n - 1], tr'[n - 1];
      assert SameButKey(step, step') && NamesAgreeAt(c.cap, tr, tr', n - 1);
      assert c'.flag == c.flag || StartsFree(c.cap, tr, tr', n - 1);
      RenamedStep(c, c', b, Run(c, tr, n - 1), Run(c', tr', n - 1), step, step');
    }
  }

  lemma NameInMap<K, L, V>(b: map<K, L>, p: map<K, V>, q: map<L, V>, k: K, l: L)
    requires SameUnder(b, p, q) && NameAgrees(b, k, l)
    ensures k in p <==> l in q
    ensures k in p ==> q[l] == p[k]
  {}

  /** A step meets the same record under either name. */
  lemma RenamedLookup<K, L, D, R>(
      c: Config, c': Config, tr: seq<Step<K, D, R>>, tr': seq<Step<L, D, R>>, n: nat)
    requires SameButKeys(tr, tr') && NamesAgree(c.cap, tr, tr') && n < |tr|
    requires c'.cap == c.cap && c'.minLat == c.minLat
    requires c'.flag == c.flag || NoRestart(c.cap, tr, tr')
    ensures tr[n].key in Run(c, tr, n).pending <==> tr'[n].key in Run(c', tr', n).pending
    ensures tr[n].key in Run(c, tr, n).pending ==>
              Run(c', tr', n).pending[tr'[n].key] == Run(c, tr, n).pending[tr[n].key]
  {
    RenamedRunsAgree(c, c', tr, tr', n);
    assert NamesAgreeAt(c.cap, tr, tr', n);
    NameInMap(Pairing(c.cap, tr, tr', n), Run(c, tr, n).pending, Run(c', tr', n).pending, tr[n].key, tr'[n].key);
  }

  /** Renaming by a function that is one to one on the keys of the run is a
      special case. */
  lemma {:induction false} FunctionNamesAgree<K, L, D, R>(
      cap: nat, f: K -> L, tr: seq<Step<K, D, R>>, tr': seq<Step<L, D, R>>, n: nat)
    requires n <= |tr| == |tr'|
    requires forall i :: 0 <= i < |tr| ==> tr'[i].key == f(tr[i].key)
    requires forall i, j :: 0 <= i < |tr| && 0 <= j < |tr| && f(tr[i].key) == f(tr[j].key) ==> tr[i].key == tr[j].key
    ensures forall k :: k in Pairing(cap, tr, tr', n) ==>
              Pairing(cap, tr, tr', n)[k] == f(k) && exists i :: 0 <= i < n && tr[i].key == k
    ensures n < |tr| ==> NameAgrees(Pairing(cap, tr, tr', n), tr[n].key, tr'[n].key)
  {
    if n > 0 { FunctionNamesAgree(cap, f, tr, tr', n - 1); }
  }

  /** A key that restarts in flight tells the flags apart: BPF_ANY times from
      the second start, BPF_NOEXIST from the first. */
  lemma RestartTellsFlagsApart(data: int, info: int)
    ensures
      var tr: seq<Step<int, int, int>> :=
        [Start(0, data, true, 10), Start(0, data, true, 15), Finish(0, info, true, 20)];
      && Run(Config(Any, 2, 0), tr, 3).out == [Event(data, info, 5, 20)]
      && Run(Config(NoExist, 2, 0), tr, 3).out == [Event(data, info, 10, 20)]
  {
    var tr: seq<Step<int, int, int>> :=
      [Start(0, data, true, 10), Start(0, data, true, 15), Finish(0, info, true, 20)];
    forall g: Flag
      ensures Run(Config(g, 2, 0), tr, 2) == State(map[0 := Rec(data, if g == Any then 15 else 10)], [])
    {
      var c := Config(g, 2, 0);
      assert Run(c, tr, 0) == State(map[], []);
      assert Run(c, tr, 1) == State(map[0 := Rec(data, 10)], []);
      assert Run(c, tr, 2) == Next(c, Run(c, tr, 1), tr[1]);
    }
    assert Run(Config(Any, 2, 0), tr, 3) == Next(Config(Any, 2, 0), Run(Config(Any, 2, 0), tr, 2), tr[2]);
    assert Run(Config(NoExist, 2, 0), tr, 3) == Next(Config(NoExist, 2, 0), Run(Config(NoExist, 2, 0), tr, 2), tr[2]);
  }

  /** Which keys are in flight does not depend on the flag. */
  lemma {:induction false} SameKeysInFlight<K, D, R>(c: Config, c': Config, tr: seq<Step<K, D, R>>, n: nat)
    requires n <= |tr| && c'.cap == c.cap
    ensures Run(c, tr, n).pending.Keys == Run(c', tr, n).pending.Keys
  {
    for i := 0 to n
      invariant Run(c, tr, i).pending.Keys == Run(c', tr, i).pending.Keys
    {
      SameKeysStep(c, c', Run(c, tr, i), Run(c', tr, i), tr[i]);
    }
  }

  lemma SameKeysStep<K, D, R>(c: Config, c': Config, s: State<K, D, R>, s': State<K, D, R>, step: Step<K, D, R>)
    requires c'.cap == c.cap && s.pending.Keys == s'.pending.Keys
    ensures Next(c, s, step).pending.Keys == Next(c', s', step).pending.Keys
  {
    assert |s.pending| == |s.pending.Keys| == |s'.pending|;
    var p, p' := Next(c, s, step).pending, Next(c', s', step).pending;
    assert forall k :: k in p <==> k in p';
  }

  lemma OfferedAlike<K, D, R>(c: Config, c': Config, tr: seq<Step<K, D, R>>, i: int, k: K)
    requires c'.cap == c.cap
    ensures Offered(c, tr, i, k) <==> Offered(c', tr, i, k)
  {
    if 0 <= i < |tr| {
      SameKeysInFlight(c, c', tr, i);
      assert |Run(c, tr, i).pending| == |Run(c, tr, i).pending.Keys| == |Run(c', tr, i).pending|;
    }
  }

  /** The flags agree on what a completion answers exactly when the key was not
      offered again since the first offer: BPF_ANY answers the start that
      BPF_NOEXIST answers if and only if it was the only one. */
  lemma FlagsAgreeIffNoRestart<K, D, R>(c: Config, c': Config, tr: seq<Step<K, D, R>>, i: int, n: nat, k: K)
    requires c.flag == Any && c'.flag == NoExist && c'.cap == c.cap && Source(c', tr, i, n, k)
    ensures Source(c, tr, i, n, k) <==> !exists m :: i < m < n && Offered(c', tr, m, k)
  {
    forall m
      ensures Offered(c, tr, m, k) <==> Offered(c', tr, m, k)
    {
      OfferedAlike(c, c', tr, m, k);
    }
  }

  // ---------------------------------------------------------------------
  // A minimum set while the probes run
  // ---------------------------------------------------------------------

  /** The run with the configuration c up to step `set`, and c' from there. */
  function SwitchedRun<K(==), D, R>(c: Config, c': Config, tr: seq<Step<K, D, R>>, at: nat, n: nat): State<K, D, R>
    requires n <= |tr|
  {
    if n == 0 then State(map[], []) else Next(if n <= at then c else c', SwitchedRun(c, c', tr, at, n - 1), tr[n - 1])
  }

  /** After n steps the map is that of a run under c', and the output starts as
      under c and goes on as under c'. */
  ghost predicate SwitchedAs<K, D, R>(c: Config, c': Config, tr: seq<Step<K, D, R>>, at: nat, n: nat)
    requires at <= |tr| && n <= |tr|
  {
    var s, u := SwitchedRun(c, c', tr, at, n), Run(c', tr, n);
    && s.pending == u.pending
    && if n <= at then s == Run(c, tr, n)
       else
         var before := Run(c', tr, at).out;
         before <= u.out && s.out == Run(c, tr, at).out + u.out[|before|..]
  }

  lemma MoveOver<T>(first: seq<T>, rest: seq<T>, n: nat, added: seq<T>)
    requires n <= |rest|
    ensures (first + rest[n..]) + added == first + (rest + added)[n..]
  {
    assert (rest + added)[n..] == rest[n..] + added;
  }

  lemma SwitchedAsStep<K, D, R>(c: Config, c': Config, tr: seq<Step<K, D, R>>, at: nat, n: nat)
    requires c'.flag == c.flag && c'.cap == c.cap
    requires at <= |tr| && n < |tr| && SwitchedAs(c, c', tr, at, n)
    ensures SwitchedAs(c, c', tr, at, n + 1)
  {
    if n >= at {
      var u, added := Run(c', tr, n).out, Added(c', tr, n);
      MoveOver(Run(c, tr, at).out, u, |Run(c', tr, at).out|, added);
      assert SwitchedRun(c, c', tr, at, n + 1).out == SwitchedRun(c, c', tr, at, n).out + added;
    }
  }

  lemma AlwaysSwitchedAs<K, D, R>(c: Config, c': Config, tr: seq<Step<K, D, R>>, at: nat, n: nat)
    requires c'.flag == c.flag && c'.cap == c.cap && at <= |tr| && n <= |tr|
    ensures SwitchedAs(c, c', tr, at, n)
  {
    for i := 0 to n
      invariant SwitchedAs(c, c', tr, at, i)
    {
      SwitchedAsStep(c, c', tr, at, i);
    }
  }

  /** A minimum that is set at some step of a run, as ioslower's is after its
      probes are attached: the map is the same throughout, the output up to then is
      that of a run without it, and what follows is what a run with it adds. */
  lemma MinimumSetLate<K, D, R>(c: Config, c': Config, tr: seq<Step<K, D, R>>, at: nat, n: nat)
    requires c'.flag == c.flag && c'.cap == c.cap && at <= n <= |tr|
    ensures SwitchedRun(c, c', tr, at, n).pending == Run(c', tr, n).pending
    ensures Run(c', tr, at).out <= Run(c', tr, n).out
    ensures SwitchedRun(c, c', tr, at, n).out
         == Run(c, tr, at).out + Run(c', tr, n).out[|Run(c', tr, at).out|..]
  {
    AlwaysSwitchedAs(c, c', tr, at, n);
  }

  // ---------------------------------------------------------------------
  // Repeated completions
  // ---------------------------------------------------------------------

  /** Completion j repeats an earlier completion of its key that no passing
      start has followed. */
  ghost predicate Repeated<K, D, R>(tr: seq<Step<K, D, R>>, j: int) {
    && 0 <= j < |tr| && tr[j].Finish?
    && exists i :: i < j && FinishOf(tr, i, tr[j].key) && !StartBetween(tr, i, j, tr[j].key)
  }

  ghost predicate StartBetween<K, D, R>(tr: seq<Step<K, D, R>>, lo: int, hi: int, k: K) {
    exists m :: lo < m < hi && 0 <= m < |tr| && tr[m].Start? && tr[m].pass && tr[m].key == k
  }

  lemma RepeatFindsNothing<K, D, R>(c: Config, tr: seq<Step<K, D, R>>, j: nat)
    requires Repeated(tr, j)
    ensures tr[j].key !in Run(c, tr, j).pending
  {
    var k := tr[j].key;
    var i :| i < j && FinishOf(tr, i, k) && !StartBetween(tr, i, j, k);
    forall s
      ensures !Source(c, tr, s, j, k)
    {
      assert Source(c, tr, s, j, k) && i < s ==> StartBetween(tr, i, j, k);
      assert Source(c, tr, s, j, k) && s < i ==> FinishBetween(tr, s, j, k);
    }
    PendingIsSource(c, tr, j, k);
  }

  /** The steps of the first n that are not marked. */
  function Kept<K, D, R>(tr: seq<Step<K, D, R>>, mark: seq<bool>, n: nat): (r: seq<Step<K, D, R>>)
    requires n <= |tr| == |mark|
    ensures |r| <= n
  {
    if n == 0 then [] else Kept(tr, mark, n - 1) + if mark[n - 1] then [] else [tr[n - 1]]
  }

  /** Extra exit probes are harmless: taking any number of repeated completions
      out of a run changes neither the events nor the records left behind. */
  lemma {:induction false} RepeatsAreHarmless<K, D, R>(c: Config, tr: seq<Step<K, D, R>>, mark: seq<bool>, n: nat)
    requires n <= |tr| == |mark|
    requires forall j :: 0 <= j < n && mark[j] ==> Repeated(tr, j)
    ensures Run(c, Kept(tr, mark, n), |Kept(tr, mark, n)|) == Run(c, tr, n)
  {
    if n > 0 {
      RepeatsAreHarmless(c, tr, mark, n - 1);
      var kept := Kept(tr, mark, n - 1);
      if mark[n - 1] {
        assert Kept(tr, mark, n) == kept;
        RepeatFindsNothing(c, tr, n - 1);
      } else {
        var all := kept + [tr[n - 1]];
        assert Kept(tr, mark, n) == all;
        RunPrefix(c, kept, all, |kept|);
        assert Run(c, all, |all|) == Next(c, Run(c, all, |kept|), tr[n - 1]);
      }
    }
  }

  lemma {:induction false} RunPrefix<K, D, R>(c: Config, a: seq<Step<K, D, R>>, b: seq<Step<K, D, R>>, n: nat)
    requires n <= |a| && a <= b
    ensures Run(c, a, n) == Run(c, b, n)
  {
    if n > 0 { RunPrefix(c, a, b, n - 1); }
  }

  // ---------------------------------------------------------------------
  // One key at a time
  // ---------------------------------------------------------------------

  /** What one key sees of a run: its own starts, each with the record it
      offers and whether it went into the map, and its own completions. */
  datatype Local<D, R> =
    | Opens(rec: Rec<D>, filed: bool)
    | Closes(info: R, ring: bool, now: u64)

  datatype Slot<D, R> = Slot(held: Option<Rec<D>>, out: seq<Event<D, R>>)

  function LocalNext<D, R>(c: Config, s: Slot<D, R>, step: Local<D, R>): Slot<D, R> {
    match step
    case Opens(rec, filed) => if filed then s.(held := Some(rec)) else s
    case Closes(info, ring, now) =>
      if s.held.None? then s
      else Slot(None, s.out + Report(c, s.held.value, info, ring, now))
  }

  function LocalRun<D, R>(c: Config, s: Slot<D, R>, steps: seq<Local<D, R>>): Slot<D, R>
    decreases |steps|
  {
    if steps == [] then s else LocalRun(c, LocalNext(c, s, steps[0]), steps[1..])
  }

  ghost function Held<K, D>(m: map<K, Rec<D>>, k: K): Option<Rec<D>> {
    if k in m then Some(m[k]) else None
  }

  /** The steps of key k among the first n. */
  ghost function View<K, D, R>(c: Config, tr: seq<Step<K, D, R>>, n: nat, k: K): seq<Local<D, R>>
    requires n <= |tr|
  {
    if n == 0 then []
    else
      var before := View(c, tr, n - 1, k);
      if tr[n - 1].key != k then before
      else match tr[n - 1]
        case Start(_, data, pass, now) =>
          before + [Opens(Rec(data, now), pass && Admits(Run(c, tr, n - 1).pending, c.cap, c.flag, k))]
        case Finish(_, info, ring, now) => before + [Closes(info, ring, now)]
  }

  /** The events that completions of key k add in the first n steps. */
  ghost function OutOf<K, D, R>(c: Config, tr: seq<Step<K, D, R>>, n: nat, k: K): seq<Event<D, R>>
    requires n <= |tr|
  {
    if n == 0 then []
    else if tr[n - 1].key == k then OutOf(c, tr, n - 1, k) + Added(c, tr, n - 1)
    else OutOf(c, tr, n - 1, k)
  }

  /** What step j adds to the output. */
  ghost function Added<K, D, R>(c: Config, tr: seq<Step<K, D, R>>, j: nat): (r: seq<Event<D, R>>)
    requires j < |tr|
    ensures Run(c, tr, j + 1).out == Run(c, tr, j).out + r
  {
    if tr[j].Finish? && tr[j].key in Run(c, tr, j).pending
    then Report(c, Run(c, tr, j).pending[tr[j].key], tr[j].info, tr[j].ring, tr[j].now) else []
  }

  lemma {:induction false} LocalRunAppend<D, R>(c: Config, s: Slot<D, R>, steps: seq<Local<D, R>>, rest: seq<Local<D, R>>)
    ensures LocalRun(c, s, steps + rest) == LocalRun(c, LocalRun(c, s, steps), rest)
    decreases |steps|
  {
    if steps == [] {
      assert steps + rest == rest;
    } else {
      assert (steps + rest)[1..] == steps[1..] + rest;
      LocalRunAppend(c, LocalNext(c, s, steps[0]), steps[1..], rest);
    }
  }

  /** However the keys interleave, each key's record and events are those of a
      one-slot machine fed with that key's own steps. */
  lemma {:induction false} KeysAreIndependent<K, D, R>(c: Config, tr: seq<Step<K, D, R>>, n: nat, k: K)
    requires n <= |tr|
    ensures LocalRun(c, Slot(None, []), View(c, tr, n, k))
         == Slot(Held(Run(c, tr, n).pending, k), OutOf(c, tr, n, k))
  {
    if n > 0 {
      KeysAreIndependent(c, tr, n - 1, k);
      var before, after := View(c, tr, n - 1, k), View(c, tr, n, k);
      if tr[n - 1].key == k {
        var step := after[|before|];
        LocalRunAppend(c, Slot(None, []), before, [step]);
        var s := LocalRun(c, Slot(None, []), before);
        assert LocalRun(c, s, [step]) == LocalNext(c, s, step);
      }
    }
  }
}

/** ioslower files one record per thread, whatever the operation. On the calls
    of one thread, seen as a forest, only innermost calls can be reported. */
module CallForest {
  import opened Options
  import opened BpfMap
  import opened Tracker
  import opened TrackerRuns

  /** One traced call: the record its entry probe offers, whether the map took
      it, and what its exit probe saw. */
  datatype Call<D, R> = Call(rec: Rec<D>, filed: bool, info: R, ring: bool, exit: u64)

  /** The calls of one thread in order; `inside` are the calls made by the first
      one, `after` those that follow it. */
  datatype Forest<D, R> = Nil | Calls(first: Call<D, R>, inside: Forest<D, R>, after: Forest<D, R>)

  /** The probes that a forest of properly nested calls fires. */
  function Probes<D, R>(f: Forest<D, R>): seq<Local<D, R>> {
    match f
    case Nil => []
    case Calls(c, inside, after) =>
      [Opens(c.rec, c.filed)] + Probes(inside) + [Closes(c.info, c.ring, c.exit)] + Probes(after)
  }

  /** What a forest reports, by structure: only a call with nothing inside it
      finds a record at its exit; that is its own record if it was filed, else
      the record of the nearest enclosing call still held. */
  function Reports<D, R>(c: Config, f: Forest<D, R>, held: Option<Rec<D>>): seq<Event<D, R>> {
    match f
    case Nil => []
    case Calls(call, inside, after) =>
      var now := if call.filed then Some(call.rec) else held;
      (if inside.Nil? then ReportHeld(c, now, call) else Reports(c, inside, now)) + Reports(c, after, None)
  }

  function ReportHeld<D, R>(c: Config, held: Option<Rec<D>>, call: Call<D, R>): seq<Event<D, R>> {
    if held.None? then [] else Report(c, held.value, call.info, call.ring, call.exit)
  }

  /** The innermost calls, in order of exit. */
  function Leaves<D, R>(f: Forest<D, R>): seq<Call<D, R>> {
    match f
    case Nil => []
    case Calls(call, inside, after) => (if inside.Nil? then [call] else Leaves(inside)) + Leaves(after)
  }

  /** Each call of the list that reaches the threshold, timed from its own start. */
  function OwnReports<D, R>(c: Config, calls: seq<Call<D, R>>): seq<Event<D, R>> {
    if calls == [] then []
    else ReportHeld(c, Some(calls[0].rec), calls[0]) + OwnReports(c, calls[1..])
  }

  predicate AllFiled<D, R>(f: Forest<D, R>) {
    f.Calls? ==> f.first.filed && AllFiled(f.inside) && AllFiled(f.after)
  }

  lemma LocalRunStep<D, R>(c: Config, s: Slot<D, R>, step: Local<D, R>, rest: seq<Local<D, R>>)
    ensures LocalRun(c, s, [step] + rest) == LocalRun(c, LocalNext(c, s, step), rest)
  {
    assert ([step] + rest)[1..] == rest;
  }

  ghost function AfterCall<D, R>(c: Config, s: Slot<D, R>, call: Call<D, R>,
      inside: seq<Local<D, R>>, after: seq<Local<D, R>>): Slot<D, R>
  {
    var s1 := LocalRun(c, LocalNext(c, s, Opens(call.rec, call.filed)), inside);
    LocalRun(c, LocalNext(c, s1, Closes(call.info, call.ring, call.exit)), after)
  }

  lemma ProbesOfCall<D, R>(f: Forest<D, R>)
    requires f.Calls?
    ensures Probes(f) == [Opens(f.first.rec, f.first.filed)] +
              (Probes(f.inside) + ([Closes(f.first.info, f.first.ring, f.first.exit)] + Probes(f.after)))
  {}

  lemma CallRun<D, R>(c: Config, s: Slot<D, R>, f: Forest<D, R>)
    requires f.Calls?
    ensures LocalRun(c, s, Probes(f)) == AfterCall(c, s, f.first, Probes(f.inside), Probes(f.after))
  {
    var open, close := Opens(f.first.rec, f.first.filed), Closes(f.first.info, f.first.ring, f.first.exit);
    ProbesOfCall(f);
    StepsOfCall(c, s, open, Probes(f.inside), close, Probes(f.after));
  }

  lemma StepsOfCall<D, R>(c: Config, s: Slot<D, R>, open: Local<D, R>, inside: seq<Local<D, R>>,
                          close: Local<D, R>, after: seq<Local<D, R>>)
    ensures LocalRun(c, s, [open] + (inside + ([close] + after)))
         == LocalRun(c, LocalNext(c, LocalRun(c, LocalNext(c, s, open), inside), close), after)
  {
    LocalRunStep(c, s, open, inside + ([close] + after));
    LocalRunAppend(c, LocalNext(c, s, open), inside, [close] + after);
    LocalRunStep(c, LocalRun(c, LocalNext(c, s, open), inside), close, after);
  }

  /** Running a forest through the one-slot machine gives what its structure
      says, and an empty slot. */
  lemma {:induction false} ForestRun<D, R>(c: Config, s: Slot<D, R>, f: Forest<D, R>)
    ensures LocalRun(c, s, Probes(f))
         == Slot(if f.Nil? then s.held else None, s.out + Reports(c, f, s.held))
    decreases f
  {
    if f.Calls? {
      var call := f.first;
      var now := if call.filed then Some(call.rec) else s.held;
      var own := if f.inside.Nil? then ReportHeld(c, now, call) else Reports(c, f.inside, now);
      CallRun(c, s, f);
      ForestRun(c, Slot(now, s.out), f.inside);
      ForestRun(c, Slot(None, s.out + own), f.after);
      assert (s.out + own) + Reports(c, f.after, None) == s.out + (own + Reports(c, f.after, None));
    }
  }

  lemma {:induction false} OwnReportsAppend<D, R>(c: Config, a: seq<Call<D, R>>, b: seq<Call<D, R>>)
    ensures OwnReports(c, a + b) == OwnReports(c, a) + OwnReports(c, b)
  {
    if a == [] {
      assert a + b == b;
    } else {
      assert (a + b)[1..] == a[1..] + b;
      OwnReportsAppend(c, a[1..], b);
    }
  }

  lemma {:induction false} FiledForestReportsLeaves<D, R>(c: Config, f: Forest<D, R>, held: Option<Rec<D>>)
    requires AllFiled(f)
    ensures Reports(c, f, held) == OwnReports(c, Leaves(f))
  {
    match f
    case Nil =>
    case Calls(call, inside, after) =>
      FiledForestReportsLeaves(c, inside, Some(call.rec));
      FiledForestReportsLeaves(c, after, None);
      OwnReportsAppend(c, if inside.Nil? then [call] else Leaves(inside), Leaves(after));
      assert OwnReports(c, [call]) == ReportHeld(c, Some(call.rec), call);
  }

  /** In any run over any number of threads, a thread whose steps are a forest
      of nested calls reports what the forest's structure says, and leaves no
      record behind after its outermost exit. */
  lemma ThreadReportsForest<K, D, R>(c: Config, tr: seq<Step<K, D, R>>, n: nat, id: K, f: Forest<D, R>)
    requires n <= |tr| && View(c, tr, n, id) == Probes(f)
    ensures OutOf(c, tr, n, id) == Reports(c, f, None)
    ensures id !in Run(c, tr, n).pending
  {
    KeysAreIndependent(c, tr, n, id);
    ForestRun(c, Slot(None, []), f);
  }

  /** When every entry probe stores its record, a thread reports exactly its
      innermost calls that reach the threshold, each from its own start. */
  lemma ThreadReportsItsLeaves<K, D, R>(c: Config, tr: seq<Step<K, D, R>>, n: nat, id: K, f: Forest<D, R>)
    requires n <= |tr| && View(c, tr, n, id) == Probes(f) && AllFiled(f)
    ensures OutOf(c, tr, n, id) == OwnReports(c, Leaves(f))
    ensures id !in Run(c, tr, n).pending
  {
    ThreadReportsForest(c, tr, n, id, f);
    FiledForestReportsLeaves(c, f, None);
  }

  // ---------------------------------------------------------------------
  // When an entry was not stored
  // ---------------------------------------------------------------------

  /** No exit meets the record of another call: an innermost call that was not
      stored has no stored call around it whose record is still held. */
  predicate NoStrayExit<D, R>(f: Forest<D, R>, held: bool) {
    f.Calls? ==>
      && (if f.inside.Nil? then f.first.filed || !held else NoStrayExit(f.inside, f.first.filed || held))
      && NoStrayExit(f.after, false)
  }

  /** Every event is owed to the exiting call's own record. */
  function FiledLeaves<D, R>(f: Forest<D, R>): seq<Call<D, R>> {
    match f
    case Nil => []
    case Calls(call, inside, after) =>
      (if !inside.Nil? then FiledLeaves(inside) else if call.filed then [call] else []) + FiledLeaves(after)
  }

  lemma {:induction false} OwnReportsOnly<D, R>(c: Config, f: Forest<D, R>, held: Option<Rec<D>>)
    requires NoStrayExit(f, held.Some?)
    ensures Reports(c, f, held) == OwnReports(c, FiledLeaves(f))
  {
    match f
    case Nil =>
    case Calls(call, inside, after) =>
      var now := if call.filed then Some(call.rec) else held;
      if !inside.Nil? { OwnReportsOnly(c, inside, now); }
      OwnReportsOnly(c, after, None);
      OwnReportsAppend(c, if !inside.Nil? then FiledLeaves(inside) else if call.filed then [call] else [], FiledLeaves(after));
      assert OwnReports(c, [call]) == ReportHeld(c, Some(call.rec), call);
  }

  /** No innermost call that was not stored reports another call's record. */
  predicate StraysAreSilent<D, R>(c: Config, f: Forest<D, R>, held: Option<Rec<D>>) {
    f.Calls? ==>
      && (if f.inside.Nil? then f.first.filed || ReportHeld(c, held, f.first) == []
          else StraysAreSilent(c, f.inside, if f.first.filed then Some(f.first.rec) else held))
      && StraysAreSilent(c, f.after, None)
  }

  /** The exact condition, for any threshold and ring: a forest reports what its
      stored innermost calls report, no more and in order, exactly when no stray
      exit has an event to report; otherwise it reports more. */
  lemma {:induction false} StrayExitReportsTooMuch<D, R>(c: Config, f: Forest<D, R>, held: Option<Rec<D>>)
    ensures |Reports(c, f, held)| >= |OwnReports(c, FiledLeaves(f))|
    ensures |Reports(c, f, held)| == |OwnReports(c, FiledLeaves(f))| <==> StraysAreSilent(c, f, held)
    ensures StraysAreSilent(c, f, held) ==> Reports(c, f, held) == OwnReports(c, FiledLeaves(f))
  {
    match f
    case Nil =>
    case Calls(call, inside, after) =>
      var now := if call.filed then Some(call.rec) else held;
      if !inside.Nil? { StrayExitReportsTooMuch(c, inside, now); }
      StrayExitReportsTooMuch(c, after, None);
      OwnReportsAppend(c, if !inside.Nil? then FiledLeaves(inside) else if call.filed then [call] else [], FiledLeaves(after));
      assert OwnReports(c, [call]) == ReportHeld(c, Some(call.rec), call);
  }

  /** With no threshold and a ring that always has room, a stray exit is never
      silent, and every stored innermost call is reported. */
  lemma {:induction false} StraysAreLoud<D, R>(c: Config, f: Forest<D, R>, held: Option<Rec<D>>)
    requires c.minLat == 0 && AlwaysRoom(f)
    ensures StraysAreSilent(c, f, held) <==> NoStrayExit(f, held.Some?)
    ensures |OwnReports(c, FiledLeaves(f))| == |FiledLeaves(f)|
  {
    match f
    case Nil =>
    case Calls(call, inside, after) =>
      if !inside.Nil? { StraysAreLoud(c, inside, if call.filed then Some(call.rec) else held); }
      StraysAreLoud(c, after, None);
      OwnReportsAppend(c, if !inside.Nil? then FiledLeaves(inside) else if call.filed then [call] else [], FiledLeaves(after));
      assert OwnReports(c, [call]) == ReportHeld(c, Some(call.rec), call);
  }

  /** A stray exit: a stored call around one that was not stored. The inner exit
      reports the outer call's record, timed to the inner exit. */
  lemma UnstoredInsideStored<D, R>(c: Config, outer: Call<D, R>, inner: Call<D, R>)
    requires c.minLat == 0 && outer.filed && !inner.filed && inner.ring
    ensures var f := Calls(outer, Calls(inner, Nil, Nil), Nil);
            && FiledLeaves(f) == []
            && Reports(c, f, None) ==
                 [Event(outer.rec.data, inner.info, Sub64(inner.exit, outer.rec.ts), inner.exit)]
  {
    var inside := Calls(inner, Nil, Nil);
    assert Reports(c, inside, Some(outer.rec)) == ReportHeld(c, Some(outer.rec), inner);
  }

  predicate AlwaysRoom<D, R>(f: Forest<D, R>) {
    f.Calls? ==> f.first.ring && AlwaysRoom(f.inside) && AlwaysRoom(f.after)
  }
}

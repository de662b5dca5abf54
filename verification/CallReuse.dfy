/** iosnoop where one operation may be open several times on a thread: which
    exits still report their own call. */
module CallReuse {
  import opened Tracker
  import opened BpfMap
  import opened CallStack

  /** Each exit closes the innermost open call of its thread; entries are free. */
  ghost predicate Bracketed<D, R>(tr: seq<Probe<D, R>>) {
    forall j :: 0 <= j < |tr| && tr[j].Finish? ==> BracketedAt(tr, j)
  }

  ghost predicate BracketedAt<D, R>(tr: seq<Probe<D, R>>, j: nat)
    requires j < |tr|
  {
    var st := Stack(tr, j, tr[j].key.id);
    st != [] && tr[st[|st| - 1]].key == tr[j].key
  }

  /** Between i and j the operation of call i is entered again. */
  ghost predicate Reused<D, R>(tr: seq<Probe<D, R>>, i: nat, j: nat)
    requires i < j <= |tr|
  {
    exists m :: i < m < j && EntersAgain(tr, i, m)
  }

  ghost predicate EntersAgain<D, R>(tr: seq<Probe<D, R>>, i: nat, m: nat)
    requires i < |tr| && m < |tr|
  {
    tr[m].Start? && tr[m].key == tr[i].key
  }

  lemma SameCall<D, R>(tr: seq<Probe<D, R>>, i: nat, j: nat)
    requires Bracketed(tr) && ExitOf(tr, i, j)
    ensures tr[i].Start? && tr[i].key == tr[j].key
  {
    assert BracketedAt(tr, j);
  }

  lemma OpenUntilExit<D, R>(tr: seq<Probe<D, R>>, i: nat, j: nat, f: nat)
    requires Bracketed(tr) && ExitOf(tr, i, j) && i < f <= j
    ensures tr[i].Start? && i in Stack(tr, f, tr[i].key.id)
  {
    SameCall(tr, i, j);
    EachCallExitsOnce(tr, i, f);
  }

  lemma InnermostIsLatest<D, R>(tr: seq<Probe<D, R>>, n: nat, id: Thread, x: nat)
    requires n <= |tr| && x < |Stack(tr, n, id)|
    ensures Stack(tr, n, id)[x] <= Stack(tr, n, id)[|Stack(tr, n, id)| - 1]
  {
    if x < |Stack(tr, n, id)| - 1 { OuterIsEarlier(tr, n, id, x, |Stack(tr, n, id)| - 1); }
  }

  lemma NoLaterCallOpen<D, R>(tr: seq<Probe<D, R>>, i: nat, j: nat, m: nat)
    requires ExitOf(tr, i, j) && i < m
    ensures m !in Stack(tr, j, tr[j].key.id)
  {
    var st := Stack(tr, j, tr[j].key.id);
    forall y | 0 <= y < |st|
      ensures st[y] != m
    {
      InnermostIsLatest(tr, j, tr[j].key.id, y);
    }
  }

  /** A call opened inside call i exits before it. */
  lemma InnerExitsFirst<D, R>(tr: seq<Probe<D, R>>, i: nat, j: nat, m: nat)
    requires Bracketed(tr) && ExitOf(tr, i, j) && i < m < j && EntersAgain(tr, i, m)
    ensures FinishBetween(tr, m, j, tr[j].key)
  {
    SameCall(tr, i, j);
    NoLaterCallOpen(tr, i, j, m);
    EachCallExitsOnce(tr, m, j);
    var f :| f < j && ExitOf(tr, m, f);
    SameCall(tr, m, f);
    assert FinishOf(tr, f, tr[j].key);
  }

  lemma OpenerOf<D, R>(tr: seq<Probe<D, R>>, j: nat) returns (i: nat)
    requires j < |tr| && tr[j].Finish? && Bracketed(tr)
    ensures ExitOf(tr, i, j) && tr[i].Start? && tr[i].key == tr[j].key
  {
    assert BracketedAt(tr, j);
    var st := Stack(tr, j, tr[j].key.id);
    i := st[|st| - 1];
  }

  lemma ExitsOnce<D, R>(tr: seq<Probe<D, R>>, i: nat, j: nat, j': nat)
    requires ExitOf(tr, i, j) && ExitOf(tr, i, j') && tr[i].Start?
    ensures j == j'
  {
    EachCallExitsOnce(tr, i, i + 1);
  }

  /** An exit of its operation before call i exits belongs to a call inside. */
  lemma EarlierExitIsInner<D, R>(tr: seq<Probe<D, R>>, i: nat, j: nat, f: nat)
    requires Bracketed(tr) && ExitOf(tr, i, j) && i < f < j && FinishOf(tr, f, tr[i].key)
    ensures Reused(tr, i, j)
  {
    SameCall(tr, i, j);
    var m := OpenerOf(tr, f);
    OpenUntilExit(tr, i, j, f);
    if m < i { NoLaterCallOpen(tr, m, f, i); }
    if m == i { ExitsOnce(tr, i, f, j); }
    assert EntersAgain(tr, i, m);
  }

  /** A record of the operation met at the exit of call i was not filed inside it. */
  lemma MetRecordIsNotInner<D, R>(c: Config, tr: seq<Probe<D, R>>, i: nat, j: nat, s: int)
    requires Bracketed(tr) && ExitOf(tr, i, j) && Source(c, tr, s, j, tr[j].key)
    ensures s <= i && !Reused(tr, i, j)
  {
    SameCall(tr, i, j);
    if s > i { InnerExitsFirst(tr, i, j, s); }
    if Reused(tr, i, j) {
      var m :| i < m < j && EntersAgain(tr, i, m);
      InnerExitsFirst(tr, i, j, m);
      assert FinishBetween(tr, s, j, tr[j].key);
    }
  }

  /** The record that a stored call's exit meets is its own exactly when its
      operation was not entered again in between; otherwise it meets none. */
  lemma StoredCallMeetsOwn<D, R>(c: Config, tr: seq<Probe<D, R>>, i: nat, j: nat)
    requires c.flag == Any && Bracketed(tr) && ExitOf(tr, i, j) && Offered(c, tr, i, tr[i].key)
    ensures !Reused(tr, i, j) ==> Source(c, tr, i, j, tr[j].key)
    ensures Reused(tr, i, j) ==> tr[j].key !in Run(c, tr, j).pending
  {
    SameCall(tr, i, j);
    var k := tr[j].key;
    if !Reused(tr, i, j) {
      if FinishBetween(tr, i, j, k) {
        var f :| i < f < j && FinishOf(tr, f, k);
        EarlierExitIsInner(tr, i, j, f);
      }
      forall m | i < m < j
        ensures !Offered(c, tr, m, k)
      {
        assert !EntersAgain(tr, i, m);
      }
    } else if k in Run(c, tr, j).pending {
      var s := PendingHasSource(c, tr, j, k);
      MetRecordIsNotInner(c, tr, i, j, s);
    }
  }

  /** A stored call before i has left its record for the exit of call i, unless
      its operation exits in between. */
  ghost predicate Stray<D, R>(c: Config, tr: seq<Probe<D, R>>, i: nat, j: nat)
    requires i < j < |tr|
  {
    exists s :: 0 <= s < i && Offered(c, tr, s, tr[i].key) && !FinishBetween(tr, s, j, tr[i].key)
  }

  /** What an exit's own call must be spared for the exit to report it. */
  ghost predicate Spared<D, R>(c: Config, tr: seq<Probe<D, R>>, i: nat, j: nat)
    requires i < j < |tr|
  {
    if Offered(c, tr, i, tr[i].key) then !Reused(tr, i, j) else !Stray(c, tr, i, j)
  }

  /** The exit of a call that was not stored meets a record exactly when an
      earlier stored call left one. */
  lemma UnstoredCallMeetsStray<D, R>(c: Config, tr: seq<Probe<D, R>>, i: nat, j: nat)
    requires c.flag == Any && Bracketed(tr) && ExitOf(tr, i, j) && !Offered(c, tr, i, tr[i].key)
    ensures tr[j].key in Run(c, tr, j).pending <==> Stray(c, tr, i, j)
  {
    SameCall(tr, i, j);
    var k := tr[j].key;
    if k in Run(c, tr, j).pending {
      var s := PendingHasSource(c, tr, j, k);
      MetRecordIsNotInner(c, tr, i, j, s);
    }
    if Stray(c, tr, i, j) {
      var s :| 0 <= s < i && Offered(c, tr, s, k) && !FinishBetween(tr, s, j, k);
      StaysPending(c, tr, s, j, k);
    }
  }

  /** Step j of the run reports its own call and nothing else. */
  ghost predicate OwnAt<D, R>(c: Config, tr: seq<Probe<D, R>>, j: nat)
    requires j < |tr|
  {
    ReportsOwnCall(c, tr, j, Run(c, tr, j).out, Run(c, tr, j + 1).out)
  }

  /** Every exit of every bracketed run, whether or not the ring has room: it
      reports its own call exactly when there is no room, or the call was stored
      and its operation not entered again inside it, or the call was not stored
      and no earlier call left a record. */
  lemma ExitReportsOwnIff<D, R>(c: Config, tr: seq<Probe<D, R>>, i: nat, j: nat)
    requires c.flag == Any && c.minLat == 0 && Bracketed(tr) && ExitOf(tr, i, j)
    ensures OwnAt(c, tr, j) <==>
              !tr[j].ring || Spared(c, tr, i, j)
  {
    SameCall(tr, i, j);
    if Offered(c, tr, i, tr[i].key) {
      StoredCallMeetsOwn(c, tr, i, j);
      PendingIsSource(c, tr, j, tr[j].key);
    } else {
      UnstoredCallMeetsStray(c, tr, i, j);
    }
  }

  /** Whatever the minimum and the ring, the exit of a stored call settles its own
      record, exactly when its operation was not entered again inside it;
      otherwise it reports nothing. */
  lemma StoredCallReportedIff<D, R>(c: Config, tr: seq<Probe<D, R>>, i: nat, j: nat)
    requires c.flag == Any && Bracketed(tr) && ExitOf(tr, i, j) && Offered(c, tr, i, tr[i].key)
    ensures Run(c, tr, j + 1).out == Run(c, tr, j).out +
              if Reused(tr, i, j) then []
              else Report(c, Rec(tr[i].data, tr[i].now), tr[j].info, tr[j].ring, tr[j].now)
  {
    SameCall(tr, i, j);
    StoredCallMeetsOwn(c, tr, i, j);
    PendingIsSource(c, tr, j, tr[j].key);
  }

  // ---------------------------------------------------------------------
  // Whole runs
  // ---------------------------------------------------------------------

  ghost predicate AllReportOwn<D, R>(c: Config, tr: seq<Probe<D, R>>) {
    forall j :: 0 <= j < |tr| ==> OwnAt(c, tr, j)
  }

  ghost predicate AllSpared<D, R>(c: Config, tr: seq<Probe<D, R>>) {
    forall i, j :: 0 <= i && ExitOf(tr, i, j) && tr[j].ring ==> Spared(c, tr, i, j)
  }

  /** A whole run reports each call at its own exit, and nothing else, exactly
      when each exit that finds room is spared. */
  lemma RunReportsOwnIff<D, R>(c: Config, tr: seq<Probe<D, R>>)
    requires c.flag == Any && c.minLat == 0 && Bracketed(tr)
    ensures AllReportOwn(c, tr) <==> AllSpared(c, tr)
  {
    if AllSpared(c, tr) {
      forall j | 0 <= j < |tr|
        ensures OwnAt(c, tr, j)
      {
        if tr[j].Finish? {
          var i := OpenerOf(tr, j);
          ExitReportsOwnIff(c, tr, i, j);
        }
      }
    }
    if AllReportOwn(c, tr) {
      forall i, j | 0 <= i && ExitOf(tr, i, j) && tr[j].ring
        ensures Spared(c, tr, i, j)
      {
        ExitReportsOwnIff(c, tr, i, j);
      }
    }
  }

  /** Call m enters the operation of call i while that call is open. */
  ghost predicate OpenedInside<D, R>(tr: seq<Probe<D, R>>, i: nat, m: nat)
    requires i < m < |tr|
  {
    EntersAgain(tr, i, m) && i in Stack(tr, m, tr[i].key.id)
  }

  ghost predicate NoStoredCallReused<D, R>(c: Config, tr: seq<Probe<D, R>>) {
    forall i, m :: 0 <= i < m < |tr| && OpenedInside(tr, i, m) ==> !Offered(c, tr, i, tr[i].key)
  }

  /** Every call has exited, and every exit found room. */
  ghost predicate Finished<D, R>(tr: seq<Probe<D, R>>) {
    && (forall i :: 0 <= i < |tr| && tr[i].Start? ==> ClosedBefore(tr, i, |tr|))
    && forall j :: 0 <= j < |tr| && tr[j].Finish? ==> tr[j].ring
  }

  lemma ReuseIsInside<D, R>(tr: seq<Probe<D, R>>, i: nat, j: nat) returns (m: nat)
    requires Bracketed(tr) && ExitOf(tr, i, j) && Reused(tr, i, j)
    ensures i < m < j && OpenedInside(tr, i, m)
  {
    SameCall(tr, i, j);
    m :| i < m < j && EntersAgain(tr, i, m);
    OpenUntilExit(tr, i, j, m);
  }

  lemma NoReuseSpares<D, R>(c: Config, tr: seq<Probe<D, R>>, i: nat, j: nat)
    requires Bracketed(tr) && NoStoredCallReused(c, tr) && ExitOf(tr, i, j)
    ensures Spared(c, tr, i, j)
  {
    SameCall(tr, i, j);
    var k := tr[i].key;
    if Reused(tr, i, j) {
      var m := ReuseIsInside(tr, i, j);
    }
    if !Offered(c, tr, i, k) && Stray(c, tr, i, j) {
      var s :| 0 <= s < i && Offered(c, tr, s, k) && !FinishBetween(tr, s, j, k);
      StillOpenWithout(c, tr, s, i, j);
      assert OpenedInside(tr, s, i);
    }
  }

  lemma StillOpenWithout<D, R>(c: Config, tr: seq<Probe<D, R>>, s: nat, i: nat, j: nat)
    requires Bracketed(tr) && s < i < j < |tr| && tr[s].Start? && !FinishBetween(tr, s, j, tr[s].key)
    ensures s in Stack(tr, i, tr[s].key.id)
  {
    EachCallExitsOnce(tr, s, i);
    if ClosedBefore(tr, s, i) {
      var f :| f < i && ExitOf(tr, s, f);
      assert BracketedAt(tr, f);
      assert FinishOf(tr, f, tr[s].key);
    }
  }

  /** Without reuse of a stored call's operation inside it, every bracketed run
      reports each call at its own exit. Once all calls have exited into a ring
      with room, only such runs do. */
  lemma RunReportsOwnIffNoReuse<D, R>(c: Config, tr: seq<Probe<D, R>>)
    requires c.flag == Any && c.minLat == 0 && Bracketed(tr)
    ensures NoStoredCallReused(c, tr) ==> AllReportOwn(c, tr)
    ensures Finished(tr) ==> (AllReportOwn(c, tr) <==> NoStoredCallReused(c, tr))
  {
    RunReportsOwnIff(c, tr);
    if NoStoredCallReused(c, tr) {
      forall i, j | 0 <= i && ExitOf(tr, i, j) && tr[j].ring
        ensures Spared(c, tr, i, j)
      {
        NoReuseSpares(c, tr, i, j);
      }
    }
    if Finished(tr) && AllReportOwn(c, tr) {
      forall i, m | 0 <= i < m < |tr| && OpenedInside(tr, i, m)
        ensures !Offered(c, tr, i, tr[i].key)
      {
        var j :| j < |tr| && ExitOf(tr, i, j);
        EachCallExitsOnce(tr, i, m);
        assert tr[j].Finish? && tr[j].ring;
        assert j != m && m < j;
        assert Spared(c, tr, i, j);
      }
    }
  }

  // ---------------------------------------------------------------------
  // Nested runs
  // ---------------------------------------------------------------------

  ghost predicate NoCallReused<D, R>(tr: seq<Probe<D, R>>) {
    forall i, m :: 0 <= i < m < |tr| ==> !OpenedInside(tr, i, m)
  }

  /** A run is nested exactly when it is bracketed and no operation is entered
      inside an open call of its own. */
  lemma NestedIffNoReuse<D, R>(tr: seq<Probe<D, R>>)
    ensures Nested(tr) <==> Bracketed(tr) && NoCallReused(tr)
  {
    if Nested(tr) {
      forall j | 0 <= j < |tr| && tr[j].Finish?
        ensures BracketedAt(tr, j)
      {
        assert NestedAt(tr, j);
      }
      forall i, m | 0 <= i < m < |tr|
        ensures !OpenedInside(tr, i, m)
      {
        assert NestedAt(tr, m);
      }
    }
    if Bracketed(tr) && NoCallReused(tr) {
      forall j | 0 <= j < |tr|
        ensures NestedAt(tr, j)
      {
        EntersFresh(tr, j);
      }
    }
  }

  lemma EntersFresh<D, R>(tr: seq<Probe<D, R>>, j: nat)
    requires j < |tr| && Bracketed(tr) && NoCallReused(tr)
    ensures NestedAt(tr, j)
  {
    var st := Stack(tr, j, tr[j].key.id);
    if tr[j].Finish? {
      assert BracketedAt(tr, j);
    } else {
      forall x | 0 <= x < |st|
        ensures tr[st[x]].key != tr[j].key
      {
        assert !OpenedInside(tr, st[x], j);
      }
    }
  }

  /** So a nested run reports each call at its own exit, and nothing else. */
  lemma NestedRunReportsOwn<D, R>(c: Config, tr: seq<Probe<D, R>>)
    requires c.flag == Any && c.minLat == 0 && Nested(tr)
    ensures AllReportOwn(c, tr)
  {
    NestedIffNoReuse(tr);
    RunReportsOwnIffNoReuse(c, tr);
  }

  /** In every interleaving of properly nested threads, each exit reports the
      call it closes, and nothing else is reported. */
  lemma ExitReportsOwnCall<D, R>(c: Config, tr: seq<Probe<D, R>>, j: nat)
    requires j < |tr| && c.flag == Any && c.minLat == 0 && Nested(tr)
    ensures ReportsOwnCall(c, tr, j, Run(c, tr, j).out, Run(c, tr, j + 1).out)
  {
    NestedRunReportsOwn(c, tr);
    assert OwnAt(c, tr, j);
  }
}

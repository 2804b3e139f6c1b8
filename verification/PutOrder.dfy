/**
 Creates of one key that drew the same number. They all began before any of them loaded, so real
 time does not order them; the order of their puts on the first sync store does, and it explains
 what was read. Times are positions of steps in the run.
 */
module PutOrder {
  import opened Options
  import opened Histories
  import opened Protocol
  import opened ProtocolInvariant
  import opened ProtocolSteps
  import opened CallOrders
  import opened Draws

  /** A create is decided by its put on the first sync store, a read by its fetch. */
  function TimesOf(steps: seq<Step>): Times {
    if steps == [] then NO_TIMES
    else
      var before, st := TimesOf(steps[..|steps| - 1]), steps[|steps| - 1];
      if Decides(st) then before[st.i := |steps| - 1] else before
  }

  predicate Decides(st: Step) {
    st.Fetch? || (st.PutSync? && st.n == 0 && st.ok)
  }

  /** The first sync store of a revision is listed once. */
  ghost predicate ListedOnce(place: Placement, main: int) {
    var sync := SyncNodes(place(main));
    && (forall n :: 0 < n < |sync| ==> sync[n] != sync[0])
    && (sync != [] ==> sync[0] !in AsyncNodes(place(main)))
  }

  ghost predicate AllListedOnce(place: Placement, top: int) {
    forall main :: 1 <= main <= top ==> ListedOnce(place, main)
  }

  // ---------------------------------------------------------------- what times tell

  /** Decided calls have got so far, each at its own time. */
  ghost predicate TimesOk(s: State, times: Times, now: nat) {
    && (forall i :: i in times ==> i < |s.ops| && times[i] < now && Decided(s.ops[i]))
    && (forall i, j :: i in times && j in times && times[i] == times[j] ==> i == j)
  }

  ghost predicate Decided(op: Op) {
    if op.Write? then HasRev(op) && 0 in op.done && !op.wphase.Aborted? else op.rphase.GotValue? || op.rphase.GotError?
  }

  /** Answered before another began, decided before it. */
  ghost predicate RealTimes(s: State, times: Times) {
    forall i, j :: i in times && j in times && i < |s.ops| && j < |s.ops| && Precedes(s, i, j) ==> times[i] < times[j]
  }

  /** A create of the revision, decided before `top`. */
  ghost predicate PutBefore(s: State, times: Times, main: int, top: int, w: nat) {
    w in times && w < |s.ops| && HasRev(s.ops[w]) && s.ops[w].rev == main && times[w] < top
  }

  /** The last of them, and its value. */
  ghost predicate LastPut(s: State, times: Times, main: int, top: int, value: string, w: nat) {
    && PutBefore(s, times, main, top, w) && s.ops[w].value == value
    && forall x: nat :: PutBefore(s, times, main, top, x) ==> times[x] <= times[w]
  }

  ghost predicate HasLastPut(s: State, times: Times, main: int, top: int, value: string) {
    exists w: nat :: LastPut(s, times, main, top, value, w)
  }

  /** The first sync store of a revision holds the value that was put there last. */
  ghost predicate FirstHolds(place: Placement, s: State, times: Times, now: nat) {
    forall main :: SyncNodes(place(main)) != [] && Stored(s, SyncNodes(place(main))[0], main).Some? ==>
      HasLastPut(s, times, main, now, Stored(s, SyncNodes(place(main))[0], main).value)
  }

  ghost predicate NothingUnderBlank(s: State) {
    forall main :: Stored(s, "", main).None?
  }

  /** A read got the value that was put last before its fetch. */
  ghost predicate ReadsLast(s: State, times: Times) {
    forall r: nat :: r < |s.ops| && s.ops[r].Read? && s.ops[r].rphase.GotValue? ==>
      r in times && HasLastPut(s, times, s.ops[r].found.main, times[r], s.ops[r].result)
  }

  ghost predicate Timed(place: Placement, s: State, times: Times, now: nat) {
    && TimesOk(s, times, now) && RealTimes(s, times)
    && FirstHolds(place, s, times, now) && NothingUnderBlank(s) && ReadsLast(s, times)
  }

  // ---------------------------------------------------------------- what steps keep

  /** A call as it was, apart from its answer. */
  ghost predicate SameDecision(s: State, a: Op, b: Op) {
    && a.Write? == b.Write? && a.inv == b.inv && (b.resp == a.resp || b.resp == Some(s.clock))
    && (Decided(a) ==> Decided(b)) && HasRev(a) == HasRev(b)
    && (HasRev(a) ==> a.rev == b.rev && a.value == b.value)
    && (a.Read? && a.rphase.GotValue? ==> b.rphase.GotValue? && a.found == b.found && a.result == b.result)
  }

  ghost predicate SameDecisions(s: State, s': State, times: Times) {
    |s.ops| <= |s'.ops| && forall i :: i in times && i < |s.ops| ==> SameDecision(s, s.ops[i], s'.ops[i])
  }

  /** Times are kept; one that is new is the present one. */
  ghost predicate Continues(times: Times, times': Times, now: nat) {
    && (forall i :: i in times ==> i in times' && times'[i] == times[i])
    && (forall i :: i in times' && i !in times ==> times'[i] == now)
    && (forall i, j :: i in times' && i !in times && j in times' && j !in times ==> i == j)
  }

  lemma TimesContinue(s: State, s': State, times: Times, times': Times, now: nat)
    requires TimesOk(s, times, now) && RealTimes(s, times) && SameDecisions(s, s', times)
    requires Continues(times, times', now)
    requires forall i :: 0 <= i < |s.ops| ==> s.ops[i].inv < s.clock
    requires forall i :: i in times' && i !in times ==>
               i < |s.ops| && Decided(s'.ops[i]) && s'.ops[i].resp.None? && s'.ops[i].inv == s.ops[i].inv
    ensures TimesOk(s', times', now + 1) && RealTimes(s', times')
  {
    hide HasRev, Decided;
  }

  /** What was put last stays so, if no create of the revision has been decided since. */
  lemma LastStays(s: State, s': State, times: Times, times': Times, now: nat, main: int, top: int, top': int,
                  value: string)
    requires TimesOk(s, times, now) && SameDecisions(s, s', times) && Continues(times, times', now)
    requires HasLastPut(s, times, main, top, value) && (top' == top <= now || (top == now && top' == now + 1))
    requires forall x: nat :: PutBefore(s', times', main, top', x) ==> x in times
    ensures HasLastPut(s', times', main, top', value)
  {
    hide Decided, HasRev;
    var w: nat :| LastPut(s, times, main, top, value, w);
    forall x: nat | PutBefore(s', times', main, top', x)
      ensures times'[x] <= times'[w]
    {
      assert PutBefore(s, times, main, top, x);
    }
    assert LastPut(s', times', main, top', value, w);
  }

  /** The reads so far stay explained. */
  lemma ReadStays(s: State, s': State, times: Times, times': Times, now: nat, r: nat)
    requires TimesOk(s, times, now) && SameDecisions(s, s', times) && Continues(times, times', now)
    requires ReadsLast(s, times) && r < |s.ops| && s.ops[r].Read? && s.ops[r].rphase.GotValue?
    ensures s'.ops[r].Read? && s'.ops[r].rphase.GotValue? && r in times'
    ensures HasLastPut(s', times', s'.ops[r].found.main, times'[r], s'.ops[r].result)
  {
    hide HasRev, HasLastPut;
    LastStays(s, s', times, times', now, s.ops[r].found.main, times[r], times[r], s.ops[r].result);
  }

  // ---------------------------------------------------------------- steps that decide nothing

  ghost predicate NoNewValue(s: State, s': State) {
    forall r :: 0 <= r < |s'.ops| && s'.ops[r].Read? && s'.ops[r].rphase.GotValue? ==>
      r < |s.ops| && s.ops[r].Read? && s.ops[r].rphase.GotValue?
  }

  /** First stores and the blank name are as they were. */
  ghost predicate SameFirsts(place: Placement, s: State, s': State) {
    && (forall main :: SyncNodes(place(main)) != [] ==>
          Stored(s', SyncNodes(place(main))[0], main) == Stored(s, SyncNodes(place(main))[0], main))
    && (forall main :: Stored(s', "", main) == Stored(s, "", main))
  }

  lemma QuietIsTimed(place: Placement, s: State, s': State, times: Times, now: nat)
    requires Timed(place, s, times, now) && SameDecisions(s, s', times) && NoNewValue(s, s') && SameFirsts(place, s, s')
    requires forall i :: 0 <= i < |s.ops| ==> s.ops[i].inv < s.clock
    ensures Timed(place, s', times, now + 1)
  {
    hide HasRev, Decided, Stored, SyncNodes, HasLastPut, SameDecisions;
    TimesContinue(s, s', times, times, now);
    forall main | SyncNodes(place(main)) != [] && Stored(s', SyncNodes(place(main))[0], main).Some?
      ensures HasLastPut(s', times, main, now + 1, Stored(s', SyncNodes(place(main))[0], main).value)
    {
      LastStays(s, s', times, times, now, main, now, now + 1, Stored(s', SyncNodes(place(main))[0], main).value);
    }
    forall r: nat | r < |s'.ops| && s'.ops[r].Read? && s'.ops[r].rphase.GotValue?
      ensures r in times && HasLastPut(s', times, s'.ops[r].found.main, times[r], s'.ops[r].result)
    {
      ReadStays(s, s', times, times, now, r);
    }
  }

  lemma StepSameDecisions(place: Placement, s: State, st: Step, times: Times, now: nat)
    requires Enabled(place, s, st) && TimesOk(s, times, now)
    ensures SameDecisions(s, Do(place, s, st), times)
  {
    hide Do, Enabled, TimesOk, SameDecisions;
    if st.LookUp? || st.Fetch? {
      ReadSameDecisions(place, s, st, times, now);
    } else if st.BeginRead? || st.Respond? || st.PutAsync? || st.PutSync? {
      OtherSameDecisions(place, s, st, times, now);
    } else {
      CreateSameDecisions(place, s, st, times, now);
    }
  }

  lemma ReadSameDecisions(place: Placement, s: State, st: Step, times: Times, now: nat)
    requires Enabled(place, s, st) && TimesOk(s, times, now) && (st.LookUp? || st.Fetch?)
    ensures SameDecisions(s, Do(place, s, st), times)
  {
    hide SyncNodes, AfterLookUp, AfterFetch, Stored;
    ReadsStayReads(s, s.ops[st.i]);
  }

  lemma OtherSameDecisions(place: Placement, s: State, st: Step, times: Times, now: nat)
    requires Enabled(place, s, st) && TimesOk(s, times, now)
    requires st.BeginRead? || st.Respond? || st.PutAsync? || st.PutSync?
    ensures SameDecisions(s, Do(place, s, st), times)
  {
    hide SyncNodes, AsyncNodes, Stored;
  }

  lemma CreateSameDecisions(place: Placement, s: State, st: Step, times: Times, now: nat)
    requires Enabled(place, s, st) && TimesOk(s, times, now)
    requires st.BeginWrite? || st.Increment? || st.Load? || st.Publish? || st.Abort?
    ensures SameDecisions(s, Do(place, s, st), times)
  {
    hide SyncNodes, AsyncNodes, Accepts, Apply, Latest;
  }

  lemma StepNoNewValue(place: Placement, s: State, st: Step)
    requires Enabled(place, s, st) && !st.Fetch?
    ensures NoNewValue(s, Do(place, s, st))
  {
    hide SyncNodes, AsyncNodes, Accepts, Apply, AfterLookUp, AfterFetch, Latest, Stored;
    if st.LookUp? {
      LookUpGetsNone(s, s.ops[st.i]);
    }
  }

  lemma LookUpGetsNone(s: State, op: Op)
    requires op.Read? && op.rphase.Asking?
    ensures AfterLookUp(s, op).Read? && !AfterLookUp(s, op).rphase.GotValue?
  {
  }

  /** Only puts touch stores, and each only its own revision. */
  lemma StepSameFirsts(place: Placement, s: State, st: Step)
    requires Enabled(place, s, st) && !Decides(st) && Inv(place, s) && AllListedOnce(place, s.counter)
    ensures SameFirsts(place, s, Do(place, s, st))
  {
    if st.PutSync? || st.PutAsync? {
      DrawnIsListedOnce(place, s, st.i);
      hide Inv, SyncNodes, AsyncNodes, AllListedOnce;
      if st.PutSync? {
        PutSyncSpares(place, s, st.i, st.n, st.ok);
      } else {
        StoreSpares(place, s, s, st.name, s.ops[st.i].rev, s.ops[st.i].value);
      }
    } else {
      SparesStores(place, s, st);
      hide Inv, SyncNodes, Do, Enabled;
    }
  }

  lemma DrawnIsListedOnce(place: Placement, s: State, i: nat)
    requires Inv(place, s) && AllListedOnce(place, s.counter) && i < |s.ops| && HasRev(s.ops[i])
    ensures ListedOnce(place, s.ops[i].rev)
  {
    assert OpOk(place, s, s.ops[i]);
  }

  lemma SparesStores(place: Placement, s: State, st: Step)
    requires Enabled(place, s, st) && !st.PutSync? && !st.PutAsync?
    ensures Do(place, s, st).stores == s.stores
  {
    hide SyncNodes, AsyncNodes, Accepts, Apply, AfterLookUp, AfterFetch, Latest;
  }

  lemma StoreSpares(place: Placement, s: State, s0: State, name: string, main: int, value: string)
    requires s0.stores == s.stores && name != "" && (SyncNodes(place(main)) != [] ==> name != SyncNodes(place(main))[0])
    ensures SameFirsts(place, s, Store(s0, name, main, value))
  {
    hide SyncNodes;
    var s' := Store(s0, name, main, value);
    assert forall n, m :: Stored(s', n, m) == if n == name && m == main then Some(value) else Stored(s, n, m);
    hide Stored;
  }

  lemma PutSyncSpares(place: Placement, s: State, i: nat, n: nat, ok: bool)
    requires Enabled(place, s, PutSync(i, n, ok)) && !(n == 0 && ok) && ListedOnce(place, s.ops[i].rev)
    ensures SameFirsts(place, s, Do(place, s, PutSync(i, n, ok)))
  {
    hide SyncNodes, AsyncNodes, Store;
    var op := s.ops[i];
    var name := SyncNodes(place(op.rev))[n];
    if name != "" && ok {
      StoreSpares(place, s, SetOp(s, i, op.(done := op.done + {n})), name, op.rev, op.value);
    }
  }

  lemma InvTimes(place: Placement, s: State)
    requires Inv(place, s)
    ensures forall i :: 0 <= i < |s.ops| ==> s.ops[i].inv < s.clock
  {
    forall i | 0 <= i < |s.ops|
      ensures s.ops[i].inv < s.clock
    {
      assert OpOk(place, s, s.ops[i]);
    }
  }

  lemma QuietStep(place: Placement, s: State, st: Step, times: Times, now: nat)
    requires Enabled(place, s, st) && !Decides(st) && Inv(place, s) && AllListedOnce(place, s.counter)
    requires Timed(place, s, times, now)
    ensures Timed(place, Do(place, s, st), times, now + 1)
  {
    StepSameDecisions(place, s, st, times, now);
    StepNoNewValue(place, s, st);
    StepSameFirsts(place, s, st);
    InvTimes(place, s);
    hide Do, Enabled, Inv, Timed, SameDecisions, NoNewValue, SameFirsts;
    QuietIsTimed(place, s, Do(place, s, st), times, now);
  }

  // ---------------------------------------------------------------- a put on the first store

  /** The create is decided now, and its value is what the first store of its revision holds. */
  ghost predicate PutsFirst(place: Placement, s: State, s': State, i: nat) {
    && i < |s.ops| == |s'.ops| && HasRev(s'.ops[i]) && Decided(s'.ops[i]) && s'.ops[i].resp.None?
    && s'.ops[i].inv == s.ops[i].inv
    && (forall main :: SyncNodes(place(main)) != [] && Stored(s', SyncNodes(place(main))[0], main).Some? ==>
          if main == s'.ops[i].rev then Stored(s', SyncNodes(place(main))[0], main) == Some(s'.ops[i].value)
          else Stored(s', SyncNodes(place(main))[0], main) == Stored(s, SyncNodes(place(main))[0], main))
    && (forall main :: Stored(s', "", main) == Stored(s, "", main))
  }

  lemma PutFirst(place: Placement, s: State, i: nat)
    requires Enabled(place, s, PutSync(i, 0, true)) && NothingUnderBlank(s) && s.ops[i].resp.None?
    ensures PutsFirst(place, s, Do(place, s, PutSync(i, 0, true)), i)
  {
    hide SyncNodes, AsyncNodes;
    var op := s.ops[i];
    var name, s0 := SyncNodes(place(op.rev))[0], SetOp(s, i, op.(done := op.done + {0}));
    if name != "" {
      var s' := Store(s0, name, op.rev, op.value);
      assert forall n, m :: Stored(s', n, m) == if n == name && m == op.rev then Some(op.value) else Stored(s, n, m);
      hide Stored;
    } else {
      assert forall n, m :: Stored(s0, n, m) == Stored(s, n, m);
      hide Stored;
    }
  }

  lemma PutIsTimed(place: Placement, s: State, s': State, times: Times, now: nat, i: nat)
    requires Timed(place, s, times, now) && SameDecisions(s, s', times) && NoNewValue(s, s')
    requires PutsFirst(place, s, s', i) && i !in times
    requires forall k :: 0 <= k < |s.ops| ==> s.ops[k].inv < s.clock
    ensures Timed(place, s', times[i := now], now + 1)
  {
    TimesContinue(s, s', times, times[i := now], now);
    PutKeepsFirsts(place, s, s', times, now, i);
    PutReadsLast(s, s', times, now, i);
    hide SameDecisions, FirstHolds, TimesOk, RealTimes, ReadsLast, Stored;
  }

  lemma PutKeepsFirsts(place: Placement, s: State, s': State, times: Times, now: nat, i: nat)
    requires TimesOk(s, times, now) && FirstHolds(place, s, times, now) && SameDecisions(s, s', times)
    requires PutsFirst(place, s, s', i) && i !in times
    ensures FirstHolds(place, s', times[i := now], now + 1)
  {
    var times', rev := times[i := now], s'.ops[i].rev;
    LastIsNow(s, s', times, now, i);
    hide Decided, Stored, SyncNodes, SameDecisions, HasLastPut;
    forall main | SyncNodes(place(main)) != [] && Stored(s', SyncNodes(place(main))[0], main).Some?
      ensures HasLastPut(s', times', main, now + 1, Stored(s', SyncNodes(place(main))[0], main).value)
    {
      if main != rev {
        LastStays(s, s', times, times', now, main, now, now + 1, Stored(s', SyncNodes(place(main))[0], main).value);
      }
    }
  }

  lemma LastIsNow(s: State, s': State, times: Times, now: nat, i: nat)
    requires TimesOk(s, times, now) && i < |s'.ops| && HasRev(s'.ops[i])
    ensures HasLastPut(s', times[i := now], s'.ops[i].rev, now + 1, s'.ops[i].value)
  {
    hide Decided;
    assert LastPut(s', times[i := now], s'.ops[i].rev, now + 1, s'.ops[i].value, i);
  }

  lemma PutReadsLast(s: State, s': State, times: Times, now: nat, i: nat)
    requires TimesOk(s, times, now) && SameDecisions(s, s', times) && NoNewValue(s, s') && ReadsLast(s, times)
    requires i !in times
    ensures ReadsLast(s', times[i := now])
  {
    hide HasRev, Decided, SameDecisions, HasLastPut;
    var times' := times[i := now];
    forall r: nat | r < |s'.ops| && s'.ops[r].Read? && s'.ops[r].rphase.GotValue?
      ensures r in times' && HasLastPut(s', times', s'.ops[r].found.main, times'[r], s'.ops[r].result)
    {
      ReadStays(s, s', times, times', now, r);
    }
  }

  lemma PutStep(place: Placement, s: State, i: nat, times: Times, now: nat)
    requires Enabled(place, s, PutSync(i, 0, true)) && Inv(place, s) && Timed(place, s, times, now)
    ensures Timed(place, Do(place, s, PutSync(i, 0, true)), times[i := now], now + 1)
  {
    var st := PutSync(i, 0, true);
    assert i !in times;
    StepSameDecisions(place, s, st, times, now);
    StepNoNewValue(place, s, st);
    InvTimes(place, s);
    Pending(place, s, i);
    PutFirst(place, s, i);
    hide Do, Enabled, Inv, Timed, SameDecisions, NoNewValue, PutsFirst;
    PutIsTimed(place, s, Do(place, s, st), times, now, i);
  }

  // ---------------------------------------------------------------- a fetch

  /** The read is decided now, with what the first store of its revision holds, or fails. */
  ghost predicate FetchesLast(place: Placement, s: State, s': State, i: nat) {
    && i < |s.ops| == |s'.ops| && s'.stores == s.stores && s'.ops == s.ops[i := s'.ops[i]] && s'.ops[i].Read?
    && s'.ops[i].resp.None? && s'.ops[i].inv == s.ops[i].inv && Decided(s'.ops[i])
    && (s'.ops[i].rphase.GotValue? ==>
          var sync, main := SyncNodes(place(s'.ops[i].found.main)), s'.ops[i].found.main;
          sync != [] && Stored(s, sync[0], main) == Some(s'.ops[i].result))
  }

  lemma Fetches(place: Placement, s: State, i: nat)
    requires Enabled(place, s, Fetch(i)) && Inv(place, s)
    ensures FetchesLast(place, s, Do(place, s, Fetch(i)), i)
  {
    hide Inv, SyncNodes, Stored, OpOk, AfterFetch, Decided;
    Pending(place, s, i);
    FoundIsPlaced(place, s, i);
    FetchedFrom(s, s.ops[i]);
  }

  /** A looked-up revision carries the lists of its placement. */
  lemma FoundIsPlaced(place: Placement, s: State, i: nat)
    requires Inv(place, s) && i < |s.ops| && s.ops[i].Read? && s.ops[i].rphase.LookedUp?
    ensures s.ops[i].found.nodes == place(s.ops[i].found.main)
  {
    assert OpOk(place, s, s.ops[i]);
  }

  lemma FetchedFrom(s: State, op: Op)
    requires op.Read?
    ensures var op', sync := AfterFetch(s, op), SyncNodes(op.found.nodes);
            && op'.Read? && op'.inv == op.inv && op'.resp == op.resp && op'.found == op.found && Decided(op')
            && (op'.rphase.GotValue? ==> sync != [] && Stored(s, sync[0], op.found.main) == Some(op'.result))
  {
    hide SyncNodes, Stored;
  }

  lemma FetchIsTimed(place: Placement, s: State, s': State, times: Times, now: nat, i: nat)
    requires Timed(place, s, times, now) && SameDecisions(s, s', times)
    requires FetchesLast(place, s, s', i) && i !in times
    requires forall k :: 0 <= k < |s.ops| ==> s.ops[k].inv < s.clock
    ensures Timed(place, s', times[i := now], now + 1)
  {
    TimesContinue(s, s', times, times[i := now], now);
    FetchKeepsFirsts(place, s, s', times, now, i);
    FetchReadsLast(place, s, s', times, now, i);
    assert NothingUnderBlank(s') by {
      assert forall main :: Stored(s', "", main) == Stored(s, "", main);
    }
    hide SameDecisions, FirstHolds, TimesOk, RealTimes, ReadsLast, NothingUnderBlank, FetchesLast;
  }

  lemma FetchKeepsFirsts(place: Placement, s: State, s': State, times: Times, now: nat, i: nat)
    requires TimesOk(s, times, now) && FirstHolds(place, s, times, now) && SameDecisions(s, s', times)
    requires FetchesLast(place, s, s', i) && i !in times
    ensures FirstHolds(place, s', times[i := now], now + 1)
  {
    assert forall name, main :: Stored(s', name, main) == Stored(s, name, main);
    assert !HasRev(s'.ops[i]);
    hide HasRev, Decided, Stored, SyncNodes, SameDecisions, HasLastPut, FetchesLast;
    var times' := times[i := now];
    forall main | SyncNodes(place(main)) != [] && Stored(s', SyncNodes(place(main))[0], main).Some?
      ensures HasLastPut(s', times', main, now + 1, Stored(s', SyncNodes(place(main))[0], main).value)
    {
      LastStays(s, s', times, times', now, main, now, now + 1, Stored(s', SyncNodes(place(main))[0], main).value);
    }
  }

  lemma FetchReadsLast(place: Placement, s: State, s': State, times: Times, now: nat, i: nat)
    requires TimesOk(s, times, now) && FirstHolds(place, s, times, now) && SameDecisions(s, s', times)
    requires FetchesLast(place, s, s', i) && i !in times && ReadsLast(s, times)
    ensures ReadsLast(s', times[i := now])
  {
    hide HasRev, Decided, Stored, SyncNodes, SameDecisions, HasLastPut;
    var times' := times[i := now];
    forall r: nat | r < |s'.ops| && s'.ops[r].Read? && s'.ops[r].rphase.GotValue?
      ensures r in times' && HasLastPut(s', times', s'.ops[r].found.main, times'[r], s'.ops[r].result)
    {
      if r == i {
        LastStays(s, s', times, times', now, s'.ops[r].found.main, now, now, s'.ops[r].result);
      } else {
        ReadStays(s, s', times, times', now, r);
      }
    }
  }

  lemma UndecidedRead(s: State, times: Times, now: nat, i: nat)
    requires TimesOk(s, times, now) && i < |s.ops| && s.ops[i].Read? && s.ops[i].rphase.LookedUp?
    ensures i !in times
  {
    assert !Decided(s.ops[i]);
  }

  lemma FetchStep(place: Placement, s: State, i: nat, times: Times, now: nat)
    requires Enabled(place, s, Fetch(i)) && Inv(place, s) && Timed(place, s, times, now)
    ensures Timed(place, Do(place, s, Fetch(i)), times[i := now], now + 1)
  {
    UndecidedRead(s, times, now, i);
    StepSameDecisions(place, s, Fetch(i), times, now);
    hide Do, Enabled, Inv, Timed, SameDecisions, FetchesLast;
    InvTimes(place, s);
    Fetches(place, s, i);
    FetchIsTimed(place, s, Do(place, s, Fetch(i)), times, now, i);
  }

  // ---------------------------------------------------------------- runs

  lemma {:induction false} RunIsTimed(place: Placement, steps: seq<Step>)
    requires RunOf(place, steps).Some? && AllListedOnce(place, RunOf(place, steps).value.counter)
    ensures Timed(place, RunOf(place, steps).value, TimesOf(steps), |steps|)
  {
    if steps == [] {
      StartIsTimed(place);
    } else {
      var n := |steps| - 1;
      var front, st := steps[..n], steps[n];
      PrefixRuns(place, steps, n);
      RunKeeps(place, front);
      hide Timed, Inv, Do, Enabled, Decides;
      RunIsTimed(place, front);
      StepIsTimed(place, RunOf(place, front).value, st, TimesOf(front), n);
    }
  }

  lemma StartIsTimed(place: Placement)
    ensures Timed(place, INIT, NO_TIMES, 0)
  {
    hide SyncNodes;
  }

  lemma StepIsTimed(place: Placement, s: State, st: Step, times: Times, now: nat)
    requires Enabled(place, s, st) && Inv(place, s) && AllListedOnce(place, s.counter) && Timed(place, s, times, now)
    ensures Timed(place, Do(place, s, st), if Decides(st) then times[st.i := now] else times, now + 1)
  {
    hide Do, Enabled, Inv, Timed;
    if !Decides(st) {
      QuietStep(place, s, st, times, now);
    } else if st.Fetch? {
      FetchStep(place, s, st.i, times, now);
    } else {
      assert st == PutSync(st.i, 0, true);
      PutStep(place, s, st.i, times, now);
    }
  }
}

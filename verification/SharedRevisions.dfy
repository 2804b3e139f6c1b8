/**
 Linearizability when creates of one key may share a revision: in the order of revisions, and
 within one revision of puts on its first sync store and of fetches from it, every read returns
 what the register holds. Only creates of different keys must not draw at the same time.
 */
module SharedRevisions {
  import opened Bytes
  import opened Options
  import opened Protocol
  import opened ProtocolInvariant
  import opened ProtocolSteps
  import opened CallOrders
  import opened Linearizability
  import opened Draws
  import opened PutOrder

  // ---------------------------------------------------------------- the order

  /** What is known of it: it is sorted and lists exactly the calls that take effect. */
  ghost predicate IsArranged(s: State, times: Times, key: Key, lin: seq<nat>) {
    && InOrder(s, times, lin)
    && (forall i :: i in lin <==> 0 <= i < |s.ops| && Takes(s, times, i, key))
    && (forall p :: 0 <= p < |lin| ==> Takes(s, times, lin[p], key))
  }

  lemma ArrangeArranges(s: State, times: Times, key: Key)
    ensures IsArranged(s, times, key, Arrange(s, times, key, |s.ops|))
  {
    var lin := Arrange(s, times, key, |s.ops|);
    assert forall p :: 0 <= p < |lin| ==> lin[p] in lin;
  }

  /** Without conditions a call is a create under way or published, or a read decided or missing. */
  ghost predicate IsPlain(s: State, times: Times, i: nat) {
    && i < |s.ops|
    && if s.ops[i].Write? then (s.ops[i].wphase.Drawn? || s.ops[i].wphase.Published?) && Rank(s.ops[i]) >= 1
       else if s.ops[i].rphase.GotValue? then i in times && Rank(s.ops[i]) >= 1
       else s.ops[i].rphase.Missing? && i !in times
  }

  lemma CallsArePlain(place: Placement, s: State, times: Times, now: nat, key: Key, i: nat)
    requires Inv(place, s) && Timed(place, s, times, now) && Unconditional(s, key)
    requires i < |s.ops| && Takes(s, times, i, key)
    ensures IsPlain(s, times, i)
  {
    if s.ops[i].Write? {
      NotRefused(place, s, key, i);
      CreateRankIsPositive(place, s, i);
      hide Inv, Timed, Unconditional;
    } else {
      if s.ops[i].rphase.GotValue? {
        ReadRankIsPositive(place, s, i);
      }
      assert s.ops[i].rphase.GotValue? ==> i in times;
      assert i in times ==> Decided(s.ops[i]);
      hide Inv, Timed, Unconditional;
    }
  }

  lemma NotRefused(place: Placement, s: State, key: Key, w: nat)
    requires Inv(place, s) && Unconditional(s, key) && w < |s.ops| && s.ops[w].Write? && s.ops[w].key == key
    ensures !s.ops[w].wphase.Refused?
  {
    assert OpOk(place, s, s.ops[w]);
  }

  lemma CreateRankIsPositive(place: Placement, s: State, i: nat)
    requires Inv(place, s) && i < |s.ops| && HasRev(s.ops[i]) && Writes(s.ops[i])
    ensures Rank(s.ops[i]) >= 1
  {
    assert OpOk(place, s, s.ops[i]);
  }

  lemma ReadRankIsPositive(place: Placement, s: State, i: nat)
    requires Inv(place, s) && i < |s.ops| && s.ops[i].Read? && s.ops[i].rphase.GotValue?
    ensures Rank(s.ops[i]) >= 1
  {
    assert OpOk(place, s, s.ops[i]);
  }

  /** Creates with one number are not ordered by real time, and everything else is decided in time. */
  lemma TimedRealTime(place: Placement, s: State, times: Times, now: nat, key: Key, i: nat, j: nat)
    requires Inv(place, s) && Timed(place, s, times, now) && Unconditional(s, key)
    requires i < |s.ops| && j < |s.ops| && Takes(s, times, i, key) && Takes(s, times, j, key) && Precedes(s, i, j)
    ensures Before(s, times, i, j)
  {
    CallsArePlain(place, s, times, now, key, i);
    CallsArePlain(place, s, times, now, key, j);
    BeganSooner(place, s, i, j);
    assert PairOk(s.ops[i], s.ops[j]);
    hide Inv, FirstHolds, ReadsLast, TimesOk, Unconditional, PairOk, IsPlain;
    PlainBefore(s, times, i, j);
  }

  lemma PlainBefore(s: State, times: Times, i: nat, j: nat)
    requires IsPlain(s, times, i) && IsPlain(s, times, j) && PairOk(s.ops[i], s.ops[j]) && Precedes(s, i, j) && i < j
    requires Finished(s.ops[i]) && s.ops[i].key == s.ops[j].key && (i in times && j in times ==> times[i] < times[j])
    ensures Before(s, times, i, j)
  {
  }

  lemma BeganSooner(place: Placement, s: State, i: nat, j: nat)
    requires Inv(place, s) && i < |s.ops| && j < |s.ops| && Precedes(s, i, j)
    ensures i < j && Finished(s.ops[i])
  {
    hide IndexOk, StoresOk, WriteOk, ReadOk, PairOk;
    assert OpOk(place, s, s.ops[i]) && TimeOk(s, s.ops[i]);
  }

  lemma ArrangedIsOrder(place: Placement, s: State, times: Times, now: nat, key: Key, lin: seq<nat>)
    requires Inv(place, s) && Timed(place, s, times, now) && Unconditional(s, key) && IsArranged(s, times, key, lin)
    ensures IsOrder(s, key, lin)
  {
    hide Inv, Timed, Before, Effective, Unconditional;
    forall p, q | 0 <= p < q < |lin|
      ensures lin[p] != lin[q] && !Precedes(s, lin[q], lin[p])
    {
      BeforeIsStrict(s, times, lin[p], lin[q]);
      if Precedes(s, lin[q], lin[p]) {
        TimedRealTime(place, s, times, now, key, lin[q], lin[p]);
      }
    }
  }

  // ---------------------------------------------------------------- reads

  lemma MissingIsFirst(place: Placement, s: State, times: Times, key: Key, lin: seq<nat>, p: nat)
    requires Inv(place, s) && IsArranged(s, times, key, lin) && p < |lin|
    requires s.ops[lin[p]].Read? && s.ops[lin[p]].rphase.Missing?
    ensures Register(s, lin[..p]) == None
  {
    hide Inv;
    forall q | 0 <= q < p
      ensures !Writes(s.ops[lin[q]])
    {
      assert Before(s, times, lin[q], lin[p]) && Takes(s, times, lin[q], key);
      if Writes(s.ops[lin[q]]) {
        CreateRankIsPositive(place, s, lin[q]);
      }
    }
    RegisterIsEmpty(s, lin[..p]);
  }

  /** The create that a read got its value from: of its key and revision, put last before the fetch. */
  lemma ReadsLastPut(place: Placement, s: State, times: Times, now: nat, r: nat) returns (w: nat)
    requires Inv(place, s) && Timed(place, s, times, now) && RevisionsDiffer(s, OtherKeys)
    requires r < |s.ops| && s.ops[r].Read? && s.ops[r].rphase.GotValue?
    ensures r in times && LastPut(s, times, s.ops[r].found.main, times[r], s.ops[r].result, w)
    ensures s.ops[w].key == s.ops[r].key && !s.ops[w].wphase.Aborted?
  {
    assert OpOk(place, s, s.ops[r]);
    hide Inv, OpOk, FirstHolds;
    var p :| IsPublisher(s, s.ops[r].key, s.ops[r].found.main, p);
    assert HasLastPut(s, times, s.ops[r].found.main, times[r], s.ops[r].result);
    w :| LastPut(s, times, s.ops[r].found.main, times[r], s.ops[r].result, w);
    SameRevSameKey(s, w, p);
  }

  lemma SameRevSameKey(s: State, i: int, j: int)
    requires RevisionsDiffer(s, OtherKeys) && 0 <= i < |s.ops| && 0 <= j < |s.ops|
    requires HasRev(s.ops[i]) && HasRev(s.ops[j]) && s.ops[i].rev == s.ops[j].rev
    ensures s.ops[i].key == s.ops[j].key
  {
  }

  lemma ArrangedPlace(s: State, times: Times, key: Key, lin: seq<nat>, u: nat) returns (p: nat)
    requires IsArranged(s, times, key, lin) && u < |s.ops| && Takes(s, times, u, key)
    ensures p < |lin| && lin[p] == u
  {
    assert u in lin;
    p :| 0 <= p < |lin| && lin[p] == u;
  }

  /** That create is the last one before the read. */
  lemma LastPutIsRegister(s: State, times: Times, now: nat, key: Key, lin: seq<nat>, p: nat, w: nat)
    requires TimesOk(s, times, now) && IsArranged(s, times, key, lin) && p < |lin|
    requires s.ops[lin[p]].Read? && s.ops[lin[p]].rphase.GotValue? && lin[p] in times && s.ops[lin[p]].key == key
    requires LastPut(s, times, s.ops[lin[p]].found.main, times[lin[p]], s.ops[lin[p]].result, w)
    requires s.ops[w].key == key && Writes(s.ops[w]) && !s.ops[w].wphase.Aborted?
    ensures Register(s, lin[..p]) == Some(s.ops[w])
  {
    hide Register;
    var m := ArrangedPlace(s, times, key, lin, w);
    BeforeMeansSooner(s, times, lin, m, p);
    forall q | m < q < p
      ensures !Writes(s.ops[lin[q]])
    {
      assert Before(s, times, lin[m], lin[q]) && Before(s, times, lin[q], lin[p]) && Takes(s, times, lin[q], key);
    }
    RegisterIs(s, lin[..p], m);
  }

  lemma ReadFitsLast(place: Placement, s: State, times: Times, now: nat, key: Key, lin: seq<nat>, p: nat)
    requires Inv(place, s) && Timed(place, s, times, now) && Unconditional(s, key) && RevisionsDiffer(s, OtherKeys)
    requires IsArranged(s, times, key, lin) && p < |lin| && s.ops[lin[p]].Read?
    ensures ReadFits(s.ops[lin[p]], Register(s, lin[..p]))
  {
    assert Takes(s, times, lin[p], key);
    hide Inv, Register, IsArranged, RevisionsDiffer, Unconditional;
    CallsArePlain(place, s, times, now, key, lin[p]);
    if s.ops[lin[p]].rphase.Missing? {
      MissingIsFirst(place, s, times, key, lin, p);
    } else {
      var w := ReadsLastPut(place, s, times, now, lin[p]);
      NotRefused(place, s, key, w);
      hide FirstHolds, RealTimes, ReadsLast;
      LastPutIsRegister(s, times, now, key, lin, p, w);
    }
  }

  // ---------------------------------------------------------------- the theorems

  lemma TimedLinearizes(place: Placement, s: State, times: Times, now: nat, key: Key)
    requires Inv(place, s) && Timed(place, s, times, now) && Unconditional(s, key) && RevisionsDiffer(s, OtherKeys)
    ensures IsLinearization(s, key, Arrange(s, times, key, |s.ops|))
  {
    var lin := Arrange(s, times, key, |s.ops|);
    ArrangeArranges(s, times, key);
    hide Inv, Timed, RevisionsDiffer, Arrange;
    ArrangedIsOrder(place, s, times, now, key, lin);
    forall p | 0 <= p < |lin| && s.ops[lin[p]].Read?
      ensures ReadFits(s.ops[lin[p]], Register(s, lin[..p]))
    {
      ReadFitsLast(place, s, times, now, key, lin, p);
    }
    forall p | 0 <= p < |lin| && s.ops[lin[p]].Write?
      ensures ConditionFits(s.ops[lin[p]], Register(s, lin[..p]))
    {
      assert Takes(s, times, lin[p], key);
    }
  }

  /** Draws of different keys apart are enough, whatever creates of one key do. */
  lemma KeysApartLinearize(place: Placement, steps: seq<Step>, key: Key)
    requires RunOf(place, steps).Some? && Apart(place, steps, OtherKeys)
    requires AllListedOnce(place, RunOf(place, steps).value.counter) && Unconditional(RunOf(place, steps).value, key)
    ensures Linearizable(RunOf(place, steps).value, key)
  {
    ApartIsDistinct(place, steps, OtherKeys);
    RunKeeps(place, steps);
    RunIsTimed(place, steps);
    hide *;
    var s := RunOf(place, steps).value;
    DrawnDiffer(s);
    TimedLinearizes(place, s, TimesOf(steps), |steps|, key);
    LinearizationExists(s, key, Arrange(s, TimesOf(steps), key, |s.ops|));
  }

  lemma DrawnDiffer(s: State)
    requires DrawnApart(s, OtherKeys)
    ensures RevisionsDiffer(s, OtherKeys)
  {
  }

  /** All creates of the run are of one key. */
  ghost predicate OneKey(s: State, key: Key) {
    forall i :: 0 <= i < |s.ops| && s.ops[i].Write? ==> s.ops[i].key == key
  }

  /** So a run on one key is linearizable without any assumption on the counter. */
  lemma OneKeyLinearizes(place: Placement, steps: seq<Step>, key: Key)
    requires RunOf(place, steps).Some? && OneKey(RunOf(place, steps).value, key)
    requires AllListedOnce(place, RunOf(place, steps).value.counter) && Unconditional(RunOf(place, steps).value, key)
    ensures Linearizable(RunOf(place, steps).value, key)
  {
    forall n | 0 <= n <= |steps| && RunOf(place, steps[..n]).Some?
      ensures OneDrawing(RunOf(place, steps[..n]).value, OtherKeys)
    {
      PrefixRuns(place, steps, n);
      hide RunOf;
    }
    hide OneKey, Linearizable, RunOf, AllListedOnce, Unconditional;
    KeysApartLinearize(place, steps, key);
  }
}

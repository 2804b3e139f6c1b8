/**
 Drawing revisions: the counter is incremented in one step and loaded in another. A load that
 comes before an increment gives the smaller number; if no two creates are between their two
 steps at the same time, all revisions differ and the protocol is linearizable.
 */
module Draws {
  import opened Bytes
  import opened Histories
  import opened Protocol
  import opened ProtocolInvariant
  import opened ProtocolSteps
  import opened Linearizability

  predicate Drawing(op: Op) {
    op.Write? && op.wphase.Incremented?
  }

  // ---------------------------------------------------------------- what steps do to draws

  /** A step that neither increments nor loads for this call. */
  ghost predicate SameDraw(a: Op, b: Op) {
    && HasRev(a) == HasRev(b) && Drawing(a) == Drawing(b)
    && (HasRev(a) ==> a.rev == b.rev)
    && (Drawing(a) || HasRev(a) ==> a.own == b.own)
  }

  /** Who asked for what is never changed, nor an answer. */
  ghost predicate SameRequest(a: Op, b: Op) {
    && a.key == b.key && a.inv == b.inv && a.Write? == b.Write?
    && (a.resp.Some? ==> b.resp == a.resp)
    && (a.Write? ==> a.value == b.value && a.assumed == b.assumed)
    && (a.Write? && a.wphase.Published? ==> b.wphase.Published?)
  }

  ghost predicate Drew(s: State, s': State) {
    && s.counter <= s'.counter && |s.ops| <= |s'.ops|
    && (forall i :: 0 <= i < |s.ops| ==> SameRequest(s.ops[i], s'.ops[i]))
  }

  lemma ReadsStayReads(s: State, op: Op)
    requires op.Read?
    ensures AfterLookUp(s, op) == op.(rphase := AfterLookUp(s, op).rphase, found := AfterLookUp(s, op).found)
    ensures AfterFetch(s, op) == op.(rphase := AfterFetch(s, op).rphase, result := AfterFetch(s, op).result)
  {
    hide SyncNodes, Stored;
  }

  lemma StepDrew(place: Placement, s: State, st: Step)
    requires Enabled(place, s, st)
    ensures Drew(s, Do(place, s, st))
  {
    if st.LookUp? || st.Fetch? {
      hide SyncNodes, AfterLookUp, AfterFetch;
      ReadsStayReads(s, s.ops[st.i]);
    } else {
      OtherDrew(place, s, st);
      hide Do, Enabled;
    }
  }

  lemma OtherDrew(place: Placement, s: State, st: Step)
    requires Enabled(place, s, st) && !st.LookUp? && !st.Fetch?
    ensures Drew(s, Do(place, s, st))
  {
    hide SyncNodes, AsyncNodes, Accepts, Apply, Latest;
  }

  /** The call that a step moves on, if it draws. */
  ghost predicate DrawsFor(st: Step, i: int) {
    (st.Increment? || st.Load?) && st.i == i
  }

  /** Only its own steps draw for a call, and a new call has drawn nothing. */
  ghost predicate DrawsOnlyFor(s: State, s': State, st: Step) {
    && |s.ops| <= |s'.ops|
    && (forall i :: 0 <= i < |s.ops| && !DrawsFor(st, i) ==> SameDraw(s.ops[i], s'.ops[i]))
    && (forall i :: |s.ops| <= i < |s'.ops| ==> !HasRev(s'.ops[i]) && !Drawing(s'.ops[i]))
  }

  lemma StepDraws(place: Placement, s: State, st: Step)
    requires Enabled(place, s, st)
    ensures DrawsOnlyFor(s, Do(place, s, st), st)
  {
    if st.LookUp? || st.Fetch? {
      hide SyncNodes, AfterLookUp, AfterFetch;
      ReadsStayReads(s, s.ops[st.i]);
    } else {
      OtherDraws(place, s, st);
      hide Do, Enabled;
    }
  }

  lemma OtherDraws(place: Placement, s: State, st: Step)
    requires Enabled(place, s, st) && !st.LookUp? && !st.Fetch?
    ensures DrawsOnlyFor(s, Do(place, s, st), st)
  {
    hide SyncNodes, AsyncNodes, Accepts, Apply, Latest;
  }

  // ---------------------------------------------------------------- runs

  lemma {:induction false} PrefixRuns(place: Placement, steps: seq<Step>, n: nat)
    requires RunOf(place, steps).Some? && n <= |steps|
    ensures RunOf(place, steps[..n]).Some?
    ensures Drew(RunOf(place, steps[..n]).value, RunOf(place, steps).value)
  {
    if n == |steps| {
      assert steps[..n] == steps;
    } else {
      var front := steps[..|steps| - 1];
      assert front[..n] == steps[..n];
      PrefixRuns(place, front, n);
      StepDrew(place, RunOf(place, front).value, steps[|steps| - 1]);
    }
  }

  lemma PrefixStep(place: Placement, steps: seq<Step>, n: nat)
    requires RunOf(place, steps).Some? && n < |steps|
    ensures RunOf(place, steps[..n]).Some? && RunOf(place, steps[..n + 1]).Some?
    ensures Enabled(place, RunOf(place, steps[..n]).value, steps[n])
    ensures RunOf(place, steps[..n + 1]).value == Do(place, RunOf(place, steps[..n]).value, steps[n])
  {
    hide Do, Enabled;
    PrefixRuns(place, steps, n);
    PrefixRuns(place, steps, n + 1);
    assert steps[..n + 1][..n] == steps[..n];
  }

  /** From the step after which they are known, the numbers of a call stay. */
  lemma {:induction false} NumbersStay(place: Placement, steps: seq<Step>, n: nat, i: nat)
    requires RunOf(place, steps).Some? && n <= |steps| && RunOf(place, steps[..n]).Some?
    requires i < |RunOf(place, steps[..n]).value.ops|
    ensures var s, s' := RunOf(place, steps[..n]).value, RunOf(place, steps).value;
            && |s.ops| <= |s'.ops| && s.counter <= s'.counter
            && (HasRev(s.ops[i]) ==> HasRev(s'.ops[i]) && s'.ops[i].rev == s.ops[i].rev)
            && (HasRev(s.ops[i]) || Drawing(s.ops[i]) ==>
                  (HasRev(s'.ops[i]) || Drawing(s'.ops[i])) && s'.ops[i].own == s.ops[i].own)
  {
    if n == |steps| {
      assert steps[..n] == steps;
    } else {
      var front, st := steps[..|steps| - 1], steps[|steps| - 1];
      assert front[..n] == steps[..n];
      NumbersStay(place, front, n, i);
      var s := RunOf(place, front).value;
      StepDraws(place, s, st);
      StepDrew(place, s, st);
      if DrawsFor(st, i) {
        OwnDraw(place, s, st);
      }
      hide Do, Enabled;
    }
  }

  lemma OwnDraw(place: Placement, s: State, st: Step)
    requires Enabled(place, s, st) && (st.Increment? || st.Load?)
    ensures var s', i := Do(place, s, st), st.i;
            && i < |s.ops| == |s'.ops|
            && !HasRev(s.ops[i]) && (Drawing(s.ops[i]) <==> st.Load?)
            && (st.Increment? ==> Drawing(s'.ops[i]) && s'.ops[i].own == s'.counter == s.counter + 1)
            && (st.Load? ==>
                  HasRev(s'.ops[i]) && s'.ops[i].rev == s'.counter == s.counter && s'.ops[i].own == s.ops[i].own)
  {
  }

  // ---------------------------------------------------------------- the counter in real time

  /** A draw is at least the call's own increment and at most the counter. */
  lemma DrawIsBounded(place: Placement, steps: seq<Step>, i: nat)
    requires RunOf(place, steps).Some?
    requires var s := RunOf(place, steps).value; i < |s.ops| && HasRev(s.ops[i])
    ensures var s := RunOf(place, steps).value; 1 <= s.ops[i].own <= s.ops[i].rev <= s.counter
  {
    RunKeeps(place, steps);
    assert OpOk(place, RunOf(place, steps).value, RunOf(place, steps).value.ops[i]);
  }

  /** Once loaded, a number stays and is at most the counter. */
  lemma LoadedStays(place: Placement, steps: seq<Step>, p: nat, i: nat)
    requires RunOf(place, steps).Some? && p < |steps| && steps[p] == Load(i)
    ensures var s, s' := RunOf(place, steps[..p + 1]), RunOf(place, steps).value;
            && s.Some? && i < |s.value.ops| && HasRev(s.value.ops[i])
            && i < |s'.ops| && HasRev(s'.ops[i]) && s'.ops[i].rev == s.value.ops[i].rev <= s'.counter
  {
    PrefixStep(place, steps, p);
    hide Do, Enabled, RunOf;
    OwnDraw(place, RunOf(place, steps[..p]).value, steps[p]);
    NumbersStay(place, steps, p + 1, i);
  }

  /** An increment is above the counter before it, and so is what the call loads. */
  lemma IncrementedAbove(place: Placement, steps: seq<Step>, q: nat, j: nat)
    requires RunOf(place, steps).Some? && q < |steps| && steps[q] == Increment(j)
    ensures var s, s' := RunOf(place, steps[..q]), RunOf(place, steps).value;
            s.Some? && j < |s'.ops| && (HasRev(s'.ops[j]) ==> s.value.counter < s'.ops[j].rev)
  {
    PrefixStep(place, steps, q);
    hide Do, Enabled, RunOf;
    OwnDraw(place, RunOf(place, steps[..q]).value, steps[q]);
    NumbersStay(place, steps, q + 1, j);
    if HasRev(RunOf(place, steps).value.ops[j]) {
      DrawIsBounded(place, steps, j);
    }
  }

  /** A call of the counter that has returned before another begins returned the smaller number. */
  lemma CounterInRealTime(place: Placement, steps: seq<Step>, p: nat, q: nat, i: nat, j: nat)
    requires RunOf(place, steps).Some? && p < q < |steps| && steps[p] == Load(i) && steps[q] == Increment(j)
    ensures var s := RunOf(place, steps).value;
            && i < |s.ops| && j < |s.ops| && HasRev(s.ops[i])
            && (HasRev(s.ops[j]) ==> s.ops[i].rev < s.ops[j].rev)
  {
    PrefixRuns(place, steps, q);
    hide RunOf, HasRev;
    assert steps[..q][..p + 1] == steps[..p + 1];
    LoadedStays(place, steps[..q], p, i);
    LoadedStays(place, steps, p, i);
    IncrementedAbove(place, steps, q, j);
  }

  // ---------------------------------------------------------------- draws apart

  /** Which creates are to be kept apart: any two, or any two of different keys. */
  datatype Scope = AnyTwo | OtherKeys

  predicate Rivals(scope: Scope, a: Op, b: Op) {
    scope == AnyTwo || a.key != b.key
  }

  ghost predicate OneDrawing(s: State, scope: Scope) {
    forall i, j :: 0 <= i < j < |s.ops| && Rivals(scope, s.ops[i], s.ops[j]) ==>
      !(Drawing(s.ops[i]) && Drawing(s.ops[j]))
  }

  /** At no point of the run are two of them between increment and load. */
  ghost predicate Apart(place: Placement, steps: seq<Step>, scope: Scope) {
    forall n :: 0 <= n <= |steps| && RunOf(place, steps[..n]).Some? ==>
      OneDrawing(RunOf(place, steps[..n]).value, scope)
  }

  ghost predicate RevisionsDiffer(s: State, scope: Scope) {
    forall i, j :: 0 <= i < j < |s.ops| && Rivals(scope, s.ops[i], s.ops[j]) && HasRev(s.ops[i]) && HasRev(s.ops[j]) ==>
      s.ops[i].rev != s.ops[j].rev
  }

  /** Numbers differ, and whoever is drawing will get one above those of all its rivals. */
  ghost predicate DrawnApart(s: State, scope: Scope) {
    && (forall i :: 0 <= i < |s.ops| && HasRev(s.ops[i]) ==> s.ops[i].rev <= s.counter)
    && (forall k :: 0 <= k < |s.ops| && Drawing(s.ops[k]) ==> s.ops[k].own <= s.counter)
    && (forall i, k :: 0 <= i < |s.ops| && 0 <= k < |s.ops| && HasRev(s.ops[i]) && Drawing(s.ops[k]) ==>
          (Rivals(scope, s.ops[i], s.ops[k]) ==> s.ops[i].rev < s.ops[k].own))
    && RevisionsDiffer(s, scope)
  }

  lemma QuietKeepsApart(s: State, s': State, scope: Scope)
    requires DrawnApart(s, scope) && s.counter <= s'.counter && |s.ops| <= |s'.ops|
    requires forall i :: 0 <= i < |s.ops| ==> SameDraw(s.ops[i], s'.ops[i]) && s.ops[i].key == s'.ops[i].key
    requires forall i :: |s.ops| <= i < |s'.ops| ==> !HasRev(s'.ops[i]) && !Drawing(s'.ops[i])
    ensures DrawnApart(s', scope)
  {
    hide HasRev, Drawing;
  }

  /** The one call that draws gets a number above all its rivals. */
  lemma DrawKeepsApart(s: State, s': State, c: nat, scope: Scope)
    requires DrawnApart(s, scope) && OneDrawing(s, scope) && s.counter <= s'.counter && c < |s.ops| == |s'.ops|
    requires forall i :: 0 <= i < |s.ops| ==> s.ops[i].key == s'.ops[i].key
    requires forall i :: 0 <= i < |s.ops| && i != c ==> SameDraw(s.ops[i], s'.ops[i])
    requires !HasRev(s.ops[c])
    requires if Drawing(s.ops[c]) then HasRev(s'.ops[c]) && !Drawing(s'.ops[c]) && s'.ops[c].rev == s'.counter
             else !HasRev(s'.ops[c]) && Drawing(s'.ops[c]) && s'.ops[c].own == s'.counter > s.counter
    ensures DrawnApart(s', scope)
  {
    hide HasRev, Drawing;
  }

  lemma StepKeepsApart(place: Placement, s: State, st: Step, scope: Scope)
    requires Enabled(place, s, st) && DrawnApart(s, scope) && OneDrawing(s, scope)
    ensures DrawnApart(Do(place, s, st), scope)
  {
    hide DrawnApart, OneDrawing;
    var s' := Do(place, s, st);
    StepDraws(place, s, st);
    StepDrew(place, s, st);
    if st.Increment? || st.Load? {
      OwnDraw(place, s, st);
      hide Do, Enabled;
      DrawKeepsApart(s, s', st.i, scope);
    } else {
      hide Do, Enabled;
      QuietKeepsApart(s, s', scope);
    }
  }

  lemma ApartPrefix(place: Placement, steps: seq<Step>, n: nat, scope: Scope)
    requires Apart(place, steps, scope) && n <= |steps|
    ensures Apart(place, steps[..n], scope)
  {
    forall m | 0 <= m <= n && RunOf(place, steps[..n][..m]).Some?
      ensures OneDrawing(RunOf(place, steps[..n][..m]).value, scope)
    {
      assert steps[..n][..m] == steps[..m];
    }
  }

  lemma {:induction false} ApartIsDistinct(place: Placement, steps: seq<Step>, scope: Scope)
    requires RunOf(place, steps).Some? && Apart(place, steps, scope)
    ensures DrawnApart(RunOf(place, steps).value, scope)
  {
    if steps != [] {
      var n := |steps| - 1;
      ApartPrefix(place, steps, n, scope);
      hide DrawnApart, Do, Enabled;
      ApartIsDistinct(place, steps[..n], scope);
      StepKeepsApart(place, RunOf(place, steps[..n]).value, steps[n], scope);
    }
  }

  /** Linearizability without a word about the numbers that were drawn. */
  lemma ApartLinearizes(place: Placement, steps: seq<Step>, key: Key)
    requires RunOf(place, steps).Some? && Apart(place, steps, AnyTwo)
    ensures DistinctRevisions(RunOf(place, steps).value) && IsRegister(RunOf(place, steps).value, key)
    ensures UpdatesAreNext(RunOf(place, steps).value, key) ==> Linearizable(RunOf(place, steps).value, key)
  {
    ApartIsDistinct(place, steps, AnyTwo);
    hide Linearizable, IsRegister, RunOf, UpdatesAreNext;
    EveryRunIsRegister(place, steps, key);
    if UpdatesAreNext(RunOf(place, steps).value, key) {
      EveryRunIsLinearizable(place, steps, key);
    }
  }
}

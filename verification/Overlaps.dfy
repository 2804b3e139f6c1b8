/**
 Why creates of different keys must not draw at the same time: between increment and load two of
 them can load the same number, and then the value of one key is read for another. A run is safe
 to finish in every way, from each of its states, exactly when that never happens; creates of one
 key may overlap.
 */
module Overlaps {
  import opened Bytes
  import opened Options
  import opened Histories
  import opened Protocol
  import opened ProtocolInvariant
  import opened Linearizability
  import opened Draws
  import opened PutOrder
  import opened SharedRevisions
  import opened Continuations

  // ---------------------------------------------------------------- two creates that draw at once

  ghost predicate BothDrawing(s: State, i: nat, j: nat) {
    i < |s.ops| && j < |s.ops| && i != j && Drawing(s.ops[i]) && Drawing(s.ops[j])
  }

  /** Loaded one right after the other, they have the same revision. */
  lemma LoadBoth(place: Placement, steps: seq<Step>, s: State, i: nat, j: nat) returns (more: seq<Step>, s': State)
    requires Reaches(place, steps, s) && BothDrawing(s, i, j)
    ensures Reaches(place, steps + more, s') && Finishing(more)
    ensures s' == s.(ops := s.ops[i := s.ops[i].(wphase := Drawn, rev := s.counter)]
                                 [j := s.ops[j].(wphase := Drawn, rev := s.counter)])
  {
    var a, s1 := OneStep(place, steps, s, Load(i));
    var b;
    b, s' := OneStep(place, steps + a, s1, Load(j));
    more := a + b;
    Join3(place, steps, a, b, s');
  }

  /** One create on all its stores, the other on the first: the first store has the other's value. */
  lemma PutBoth(place: Placement, steps: seq<Step>, s: State, i: nat, j: nat) returns (more: seq<Step>, s': State)
    requires Reaches(place, steps, s) && i < |s.ops| && j < |s.ops| && i != j
    requires s.ops[i].Write? && s.ops[i].wphase.Drawn? && s.ops[j].Write? && s.ops[j].wphase.Drawn?
    requires s.ops[i].rev == s.ops[j].rev >= 1 && s.ops[j].done == {} && FirstStore(place, s.ops[i].rev)
    ensures Reaches(place, steps + more, s') && Finishing(more)
    ensures |s'.ops| == |s.ops| && s'.ops[i].Write? && s'.ops[j].Write?
    ensures s' == s.(stores := s'.stores, ops := s.ops[i := s.ops[i].(done := s'.ops[i].done)]
                                                     [j := s.ops[j].(done := s'.ops[j].done)])
    ensures AllDone(place, s', i)
    ensures Stored(s', SyncNodes(place(s.ops[i].rev))[0], s.ops[i].rev) == Some(s.ops[j].value)
  {
    hide SyncNodes, Reaches, Stored, Do;
    assert SyncNodes(place(s.ops[i].rev)) != [] && SyncNodes(place(s.ops[i].rev))[0] != "";
    var a, s1 := PutUpTo(place, steps, s, i, |SyncNodes(place(s.ops[i].rev))|);
    CanPut(place, s1, j, 0);
    PutOne(place, s1, j, 0);
    var b;
    b, s' := OneStep(place, steps + a, s1, PutSync(j, 0, true));
    more := a + b;
    Join3(place, steps, a, b, s');
  }

  /** Two creates that draw at once, with one number and the value of the second on its first store. */
  ghost predicate Mixed(place: Placement, s: State, s': State, i: nat, j: nat) {
    && BothDrawing(s, i, j) && s.counter >= 1
    && |s'.ops| == |s.ops| && s'.index == s.index && s'.counter == s.counter
    && (forall k :: 0 <= k < |s.ops| ==> SameRequest(s.ops[k], s'.ops[k]))
    && s'.ops[i].Write? && s'.ops[i].wphase.Drawn? && s'.ops[i].rev == s.counter && AllDone(place, s', i)
    && SyncNodes(place(s.counter)) != []
    && Stored(s', SyncNodes(place(s.counter))[0], s.counter) == Some(s.ops[j].value)
  }

  lemma MixUp(place: Placement, steps: seq<Step>, s: State, i: nat, j: nat) returns (more: seq<Step>, s': State)
    requires Reaches(place, steps, s) && FirstStore(place, s.counter) && BothDrawing(s, i, j)
    ensures Reaches(place, steps + more, s') && Finishing(more) && Mixed(place, s, s', i, j)
  {
    DrawingIsFresh(place, steps, s, i);
    DrawingIsFresh(place, steps, s, j);
    hide SyncNodes, Reaches, Stored, SameRequest;
    assert SyncNodes(place(s.counter)) != [];
    hide FirstStore, AllDone;
    var load, s1 := LoadBoth(place, steps, s, i, j);
    var put;
    put, s' := PutBoth(place, steps + load, s1, i, j);
    more := load + put;
    Join3(place, steps, load, put, s');
    MixedRequests(s, s1, s', i, j);
  }

  lemma MixedRequests(s: State, s1: State, s': State, i: nat, j: nat)
    requires BothDrawing(s, i, j)
    requires s1.ops == s.ops[i := s.ops[i].(wphase := Drawn, rev := s.counter)]
                            [j := s.ops[j].(wphase := Drawn, rev := s.counter)]
    requires |s'.ops| == |s.ops| && s'.ops[i].Write? && s'.ops[j].Write?
    requires s'.ops == s1.ops[i := s1.ops[i].(done := s'.ops[i].done)][j := s1.ops[j].(done := s'.ops[j].done)]
    ensures forall k :: 0 <= k < |s.ops| ==> SameRequest(s.ops[k], s'.ops[k])
  {
  }

  /** One create is published while the first store of its revision has the value of the other. */
  lemma PublishOne(place: Placement, steps: seq<Step>, s: State, i: nat, j: nat) returns (more: seq<Step>, s': State)
    requires Reaches(place, steps, s) && FirstStore(place, s.counter) && BothDrawing(s, i, j) && s.ops[i].assumed.None?
    ensures Reaches(place, steps + more, s') && Finishing(more) && s.counter >= 1
    ensures |s'.ops| == |s.ops| && forall k :: 0 <= k < |s.ops| ==> SameRequest(s.ops[k], s'.ops[k])
    ensures s.ops[i].key in s'.index && Latest(s', s.ops[i].key) == s.counter
    ensures SyncNodes(place(s.counter)) != [] && s'.counter <= s.counter + 1
    ensures Stored(s', SyncNodes(place(s.counter))[0], s.counter) == Some(s.ops[j].value)
  {
    hide SyncNodes, Reaches, FirstStore, AllDone;
    var mixed, s1 := MixUp(place, steps, s, i, j);
    LatestIsCounter(place, steps, s, s.ops[i].key);
    s' := PublishNow(place, steps + mixed, s1, i);
    more := mixed + [Publish(i)];
    Join3(place, steps, mixed, [Publish(i)], s');
  }

  /** And its key is read. */
  lemma Collide(place: Placement, steps: seq<Step>, s: State, i: nat, j: nat) returns (more: seq<Step>, s': State)
    requires Reaches(place, steps, s) && FirstStore(place, s.counter) && BothDrawing(s, i, j) && s.ops[i].assumed.None?
    ensures Reaches(place, steps + more, s') && Finishing(more) && s'.counter <= s.counter + 1
    ensures |s'.ops| == |s.ops| + 1 && forall k :: 0 <= k < |s.ops| ==> SameRequest(s.ops[k], s'.ops[k])
    ensures var r := s'.ops[|s.ops|];
            r.Read? && r.key == s.ops[i].key && r.rphase.GotValue? && r.resp.Some? && r.result == s.ops[j].value
  {
    hide SyncNodes, Reaches, Stored, FirstStore, SameRequest;
    var published, s1 := PublishOne(place, steps, s, i, j);
    var read;
    read, s' := ReadNow(place, steps + published, s1, s.ops[i].key);
    more := published + read;
    Join3(place, steps, published, read, s');
  }

  lemma DrawingIsFresh(place: Placement, steps: seq<Step>, s: State, i: nat)
    requires Reaches(place, steps, s) && i < |s.ops| && Drawing(s.ops[i])
    ensures s.counter >= 1 && s.ops[i].done == {} && s.ops[i].resp.None?
  {
    ReachesInv(place, steps, s);
    assert OpOk(place, s, s.ops[i]);
  }

  lemma LatestIsCounter(place: Placement, steps: seq<Step>, s: State, key: Key)
    requires Reaches(place, steps, s)
    ensures Latest(s, key) <= s.counter
  {
    ReachesInv(place, steps, s);
    hide KeyOk, IsPublished;
  }

  /** A read that returned what nobody created under its key is explained by no order. */
  lemma StrangeValue(s: State, r: nat)
    requires r < |s.ops| && s.ops[r].Read? && s.ops[r].rphase.GotValue? && s.ops[r].resp.Some?
    requires forall w :: 0 <= w < |s.ops| && s.ops[w].Write? && s.ops[w].key == s.ops[r].key ==>
               s.ops[w].value != s.ops[r].result
    ensures !IsRegister(s, s.ops[r].key)
  {
    var key := s.ops[r].key;
    forall lin | IsRegisterOrder(s, key, lin)
      ensures false
    {
      assert Effective(s, r, key);
      var p :| 0 <= p < |lin| && lin[p] == r;
      assert ReadFits(s.ops[lin[p]], Register(s, lin[..p]));
      var m := RegisterFrom(s, lin[..p]);
    }
  }

  // ---------------------------------------------------------------- the exact condition

  /** Creates are unconditional, and those of different keys have different values, so that a mix-up shows. */
  ghost predicate TellApart(s: State) {
    && (forall i :: 0 <= i < |s.ops| && s.ops[i].Write? ==> s.ops[i].assumed.None?)
    && (forall i, j :: (0 <= i < |s.ops| && 0 <= j < |s.ops| && s.ops[i].Write? && s.ops[j].Write?) ==>
          (s.ops[i].key != s.ops[j].key ==> s.ops[i].value != s.ops[j].value))
  }

  /** Wherever the run is stopped and however its creates are then finished, up to a highest number
      of the counter, it is linearizable. */
  ghost predicate AlwaysLinearizable(place: Placement, steps: seq<Step>, top: int) {
    forall n, more, key :: 0 <= n <= |steps| && FinishedBelow(place, steps[..n], more, top) ==>
      Linearizable(RunOf(place, steps[..n] + more).value, key)
  }

  ghost predicate FinishedBelow(place: Placement, steps: seq<Step>, more: seq<Step>, top: int) {
    Finishing(more) && RunOf(place, steps + more).Some? && RunOf(place, steps + more).value.counter <= top
  }

  /** From any state with two such creates, if nobody creates the value of one under the key of the other. */
  lemma OverlapBreaks(place: Placement, steps: seq<Step>, s: State, i: nat, j: nat)
      returns (more: seq<Step>, s': State)
    requires Reaches(place, steps, s) && FirstStore(place, s.counter) && BothDrawing(s, i, j) && s.ops[i].assumed.None?
    requires forall w :: 0 <= w < |s.ops| && s.ops[w].Write? && s.ops[w].key == s.ops[i].key ==>
               s.ops[w].value != s.ops[j].value
    ensures Finishing(more) && Reaches(place, steps + more, s') && s'.counter <= s.counter + 1
    ensures !IsRegister(s', s.ops[i].key)
  {
    hide Reaches, IsRegister, FirstStore;
    more, s' := Collide(place, steps, s, i, j);
    StrangeValue(s', |s.ops|);
  }

  lemma LinearizableIsRegister(s: State, key: Key)
    requires Linearizable(s, key)
    ensures IsRegister(s, key)
  {
  }

  /** Finishing adds reads only and lets no further create draw. */
  ghost predicate OnlyFinished(s: State, s': State) {
    && Drew(s, s') && (forall k :: |s.ops| <= k < |s'.ops| ==> s'.ops[k].Read?)
    && (OneDrawing(s, OtherKeys) ==> OneDrawing(s', OtherKeys))
  }

  lemma OnlyFinishedTransitive(s: State, s1: State, s2: State)
    requires OnlyFinished(s, s1) && OnlyFinished(s1, s2)
    ensures OnlyFinished(s, s2)
  {
    hide OneDrawing;
  }

  lemma {:induction false} FinishingKeeps(place: Placement, steps: seq<Step>, more: seq<Step>)
    requires RunOf(place, steps).Some? && Finishing(more) && RunOf(place, steps + more).Some?
    ensures OnlyFinished(RunOf(place, steps).value, RunOf(place, steps + more).value)
  {
    if more == [] {
      assert steps + more == steps;
    } else {
      hide Do, Enabled, OnlyFinished;
      var front, st := more[..|more| - 1], more[|more| - 1];
      assert (steps + more)[..|steps + more| - 1] == steps + front;
      FinishingKeeps(place, steps, front);
      FinishingStep(place, RunOf(place, steps + front).value, st);
      OnlyFinishedTransitive(
        RunOf(place, steps).value, RunOf(place, steps + front).value, RunOf(place, steps + more).value);
    }
  }

  lemma FinishingStep(place: Placement, s: State, st: Step)
    requires Enabled(place, s, st) && !st.BeginWrite? && !st.Increment?
    ensures OnlyFinished(s, Do(place, s, st))
  {
    StepDrew(place, s, st);
    StepDraws(place, s, st);
    OnlyBeginsAdd(place, s, st);
    if st.Load? {
      OwnDraw(place, s, st);
    }
    hide Do, Enabled;
  }

  lemma OnlyBeginsAdd(place: Placement, s: State, st: Step)
    requires Enabled(place, s, st) && !st.BeginWrite?
    ensures var s' := Do(place, s, st); forall k :: |s.ops| <= k < |s'.ops| ==> s'.ops[k].Read?
  {
    hide SyncNodes, Accepts, Apply, AfterLookUp, AfterFetch;
  }

  lemma FinishedIsApart(place: Placement, steps: seq<Step>, n: nat, more: seq<Step>)
    requires Apart(place, steps, OtherKeys) && n <= |steps| && Finishing(more)
    requires RunOf(place, steps[..n]).Some? && RunOf(place, steps[..n] + more).Some?
    ensures Apart(place, steps[..n] + more, OtherKeys)
  {
    var all := steps[..n] + more;
    forall m | 0 <= m <= |all| && RunOf(place, all[..m]).Some?
      ensures OneDrawing(RunOf(place, all[..m]).value, OtherKeys)
    {
      if m <= n {
        assert all[..m] == steps[..m];
      } else {
        assert all[..m] == steps[..n] + more[..m - n];
        FinishingKeeps(place, steps[..n], more[..m - n]);
      }
    }
  }

  lemma FinishedIsUnconditional(place: Placement, steps: seq<Step>, n: nat, more: seq<Step>, key: Key)
    requires RunOf(place, steps).Some? && TellApart(RunOf(place, steps).value) && n <= |steps| && Finishing(more)
    requires RunOf(place, steps[..n]).Some? && RunOf(place, steps[..n] + more).Some?
    ensures Unconditional(RunOf(place, steps[..n] + more).value, key)
  {
    PrefixRuns(place, steps, n);
    FinishingKeeps(place, steps[..n], more);
    hide RunOf;
  }

  lemma TellApartEarlier(s: State, s': State)
    requires Drew(s, s') && TellApart(s')
    ensures TellApart(s)
  {
  }

  lemma ApartIsAlways(place: Placement, steps: seq<Step>, top: int)
    requires RunOf(place, steps).Some? && TellApart(RunOf(place, steps).value) && Apart(place, steps, OtherKeys)
    requires AllListedOnce(place, top)
    ensures AlwaysLinearizable(place, steps, top)
  {
    forall n, more, key | 0 <= n <= |steps| && FinishedBelow(place, steps[..n], more, top)
      ensures Linearizable(RunOf(place, steps[..n] + more).value, key)
    {
      PrefixRuns(place, steps, n);
      hide RunOf, Apart, Linearizable, TellApart, Unconditional, ListedOnce;
      FinishedIsApart(place, steps, n, more);
      FinishedIsUnconditional(place, steps, n, more, key);
      KeysApartLinearize(place, steps[..n] + more, key);
    }
  }

  lemma OverlapIsNotAlways(place: Placement, steps: seq<Step>, n: nat, top: int)
    requires RunOf(place, steps).Some? && FirstStores(place, top) && n <= |steps|
    requires TellApart(RunOf(place, steps).value) && RunOf(place, steps).value.counter < top
    requires RunOf(place, steps[..n]).Some? && !OneDrawing(RunOf(place, steps[..n]).value, OtherKeys)
    ensures !AlwaysLinearizable(place, steps, top)
  {
    var s := RunOf(place, steps[..n]).value;
    var i, j := TwoDrawing(s);
    PrefixRuns(place, steps, n);
    TellApartEarlier(s, RunOf(place, steps).value);
    assert Reaches(place, steps[..n], s);
    DrawingIsFresh(place, steps[..n], s, i);
    assert FirstStore(place, s.counter);
    hide *;
    BreaksAt(place, steps, n, s, i, j, top);
  }

  lemma TwoDrawing(s: State) returns (i: nat, j: nat)
    requires !OneDrawing(s, OtherKeys)
    ensures BothDrawing(s, i, j) && s.ops[i].key != s.ops[j].key
  {
    var a, b :| 0 <= a < b < |s.ops| && Rivals(OtherKeys, s.ops[a], s.ops[b]) && Drawing(s.ops[a]) && Drawing(s.ops[b]);
    i, j := a, b;
  }

  lemma BreaksAt(place: Placement, steps: seq<Step>, n: nat, s: State, i: nat, j: nat, top: int)
    requires n <= |steps| && RunOf(place, steps[..n]) == Some(s) && FirstStore(place, s.counter) && TellApart(s)
    requires BothDrawing(s, i, j) && s.ops[i].key != s.ops[j].key && s.counter < top
    ensures !AlwaysLinearizable(place, steps, top)
  {
    assert Reaches(place, steps[..n], s);
    hide RunOf, Reaches, Linearizable, IsRegister, FirstStore, AlwaysLinearizable, Finishing;
    var more, s' := OverlapBreaks(place, steps[..n], s, i, j);
    ReachesIs(place, steps[..n] + more, s');
    if AlwaysLinearizable(place, steps, top) {
      AlwaysAt(place, steps, n, more, s.ops[i].key, top);
      LinearizableIsRegister(s', s.ops[i].key);
    }
  }

  lemma AlwaysAt(place: Placement, steps: seq<Step>, n: nat, more: seq<Step>, key: Key, top: int)
    requires AlwaysLinearizable(place, steps, top) && n <= |steps| && FinishedBelow(place, steps[..n], more, top)
    ensures Linearizable(RunOf(place, steps[..n] + more).value, key)
  {
  }

  /** On named first stores that are listed once, and for creates that can be told apart, it takes
      exactly that no two creates of different keys draw at the same time. */
  lemma ApartIsExact(place: Placement, steps: seq<Step>, top: int)
    requires RunOf(place, steps).Some? && RunOf(place, steps).value.counter < top
    requires FirstStores(place, top) && AllListedOnce(place, top) && TellApart(RunOf(place, steps).value)
    ensures AlwaysLinearizable(place, steps, top) <==> Apart(place, steps, OtherKeys)
  {
    hide RunOf, TellApart, FirstStores, AllListedOnce, AlwaysLinearizable, OneDrawing;
    if Apart(place, steps, OtherKeys) {
      ApartIsAlways(place, steps, top);
    } else {
      var n :| 0 <= n <= |steps| && RunOf(place, steps[..n]).Some? &&
               !OneDrawing(RunOf(place, steps[..n]).value, OtherKeys);
      OverlapIsNotAlways(place, steps, n, top);
    }
  }

  /** Such runs exist: four steps lead to one. */
  lemma CollisionIsReachable(place: Placement, x: Key, y: Key, a: string, b: string) returns (steps: seq<Step>)
    requires FirstStore(place, 2) && x != y && a != b
    ensures RunOf(place, steps).Some? && !IsRegister(RunOf(place, steps).value, x)
  {
    var start, s := DrawTwo(place, x, y, a, b);
    hide Reaches, IsRegister, FirstStore;
    var more, s' := OverlapBreaks(place, start, s, 0, 1);
    steps := start + more;
    ReachesIs(place, steps, s');
  }

  lemma DrawTwo(place: Placement, x: Key, y: Key, a: string, b: string) returns (steps: seq<Step>, s: State)
    ensures Reaches(place, steps, s) && |s.ops| == 2 && s.counter == 2
    ensures s.ops[0] == Write(x, a, None, 0, None, Incremented, 1, 0, {}, 0)
    ensures s.ops[1] == Write(y, b, None, 1, None, Incremented, 2, 0, {}, 0)
  {
    assert Reaches(place, [], INIT);
    var s1, s2, s3, st1, st2, st3, st4;
    st1, s1 := OneStep(place, [], INIT, BeginWrite(x, a, None));
    st2, s2 := OneStep(place, [] + st1, s1, BeginWrite(y, b, None));
    st3, s3 := OneStep(place, [] + st1 + st2, s2, Increment(0));
    st4, s := OneStep(place, [] + st1 + st2 + st3, s3, Increment(1));
    steps := [] + st1 + st2 + st3 + st4;
  }

  lemma ReachesIs(place: Placement, steps: seq<Step>, s: State)
    requires Reaches(place, steps, s)
    ensures RunOf(place, steps) == Some(s)
  {
  }
}

/**
 The stores behind a revision, the async ones included: what each put does, and that a value once
 put stays, so that when its async puts have happened a revision is on all its async stores.
 */
module AsyncStores {
  import opened Options
  import opened Protocol
  import opened ProtocolInvariant
  import opened ProtocolSteps
  import opened Linearizability
  import opened Draws
  import opened PutOrder

  // ---------------------------------------------------------------- what a put does

  /** Exactly one entry of one store is set. */
  ghost predicate SetsOnly(s: State, s': State, name: string, main: int, value: string) {
    && Stored(s', name, main) == Some(value)
    && forall n, m :: (n != name || m != main) ==> Stored(s', n, m) == Stored(s, n, m)
  }

  lemma StoreSets(s: State, name: string, main: int, value: string)
    ensures SetsOnly(s, Store(s, name, main, value), name, main, value)
  {
  }

  /** A put on an async store stores the value under the revision and changes nothing else. */
  lemma PutAsyncStores(place: Placement, s: State, i: nat, name: string)
    requires Enabled(place, s, PutAsync(i, name))
    ensures var s' := Do(place, s, PutAsync(i, name));
            && SetsOnly(s, s', name, s.ops[i].rev, s.ops[i].value)
            && s'.ops == s.ops && s'.index == s.index && s'.counter == s.counter && s'.failed == s.failed
  {
    hide AsyncNodes, Stored, SetsOnly;
    StoreSets(s, name, s.ops[i].rev, s.ops[i].value);
  }

  /** A put on a sync store does the same if it succeeds; it is skipped for an empty name. */
  lemma PutSyncStores(place: Placement, s: State, i: nat, n: nat, ok: bool)
    requires Enabled(place, s, PutSync(i, n, ok))
    ensures var s', name := Do(place, s, PutSync(i, n, ok)), SyncNodes(place(s.ops[i].rev))[n];
            && (ok && name != "" ==> SetsOnly(s, s', name, s.ops[i].rev, s.ops[i].value))
            && (!ok || name == "" ==> s'.stores == s.stores)
            && s'.failed == (s.failed || (!ok && name != ""))
            && s'.index == s.index && s'.counter == s.counter
  {
    hide SyncNodes;
    var op, name := s.ops[i], SyncNodes(place(s.ops[i].rev))[n];
    var s0 := SetOp(s, i, op.(done := op.done + {n}));
    StoreSets(s0, name, op.rev, op.value);
    assert forall x, m :: Stored(s0, x, m) == Stored(s, x, m);
    hide Stored;
  }

  // ---------------------------------------------------------------- values stay

  lemma StepKeepsStored(place: Placement, s: State, st: Step, name: string, main: int)
    requires Enabled(place, s, st) && Stored(s, name, main).Some?
    ensures Stored(Do(place, s, st), name, main).Some?
  {
    if st.PutSync? {
      PutSyncStores(place, s, st.i, st.n, st.ok);
      hide Do, Enabled;
    } else if st.PutAsync? {
      PutAsyncStores(place, s, st.i, st.name);
      hide Do, Enabled;
    } else {
      SparesStores(place, s, st);
      hide Do, Enabled;
    }
  }

  lemma {:induction false} RunKeepsStored(place: Placement, steps: seq<Step>, n: nat, name: string, main: int)
    requires RunOf(place, steps).Some? && n <= |steps|
    requires RunOf(place, steps[..n]).Some? && Stored(RunOf(place, steps[..n]).value, name, main).Some?
    ensures Stored(RunOf(place, steps).value, name, main).Some?
  {
    if n == |steps| {
      assert steps[..n] == steps;
    } else {
      hide Do, Enabled, Stored;
      var front := steps[..|steps| - 1];
      assert front[..n] == steps[..n];
      RunKeepsStored(place, front, n, name, main);
      StepKeepsStored(place, RunOf(place, front).value, steps[|steps| - 1], name, main);
    }
  }

  /** What a store holds under the revision of a create is the value of that create. */
  lemma StoredIsOwn(place: Placement, s: State, i: nat, name: string)
    requires Inv(place, s) && DistinctRevisions(s) && i < |s.ops| && HasRev(s.ops[i])
    requires Stored(s, name, s.ops[i].rev).Some?
    ensures Stored(s, name, s.ops[i].rev) == Some(s.ops[i].value)
  {
    InvParts(place, s);
    hide Inv, OpsOk, PairsOk, IndexOk, Stored;
    var w :| IsWriter(s, s.ops[i].rev, Stored(s, name, s.ops[i].rev).value, w);
    SameRevSameOp(s, w, i);
  }

  // ---------------------------------------------------------------- over runs

  lemma PutAsyncArrives(place: Placement, steps: seq<Step>, k: nat, i: nat, name: string)
    requires RunOf(place, steps).Some? && k < |steps| && steps[k] == PutAsync(i, name)
    ensures var s := RunOf(place, steps).value;
            i < |s.ops| && HasRev(s.ops[i]) && Stored(s, name, s.ops[i].rev).Some?
  {
    PrefixStep(place, steps, k);
    var before := RunOf(place, steps[..k]).value;
    PutAsyncStores(place, before, i, name);
    assert i < |before.ops| && HasRev(before.ops[i]);
    hide RunOf, Do, Enabled;
    RunKeepsStored(place, steps, k + 1, name, before.ops[i].rev);
    NumbersStay(place, steps, k + 1, i);
  }

  /** Each async store of the revision has had its put. */
  ghost predicate AllPut(place: Placement, steps: seq<Step>, i: nat, rev: int) {
    forall name :: name in AsyncNodes(place(rev)) && name != "" ==> WasPut(steps, i, name)
  }

  ghost predicate WasPut(steps: seq<Step>, i: nat, name: string) {
    exists k :: 0 <= k < |steps| && steps[k] == PutAsync(i, name)
  }

  /** Then each of them holds the value of the create, and keeps it for the rest of the run. */
  lemma AsyncStoresHold(place: Placement, steps: seq<Step>, i: nat, name: string)
    requires RunOf(place, steps).Some? && DistinctRevisions(RunOf(place, steps).value)
    requires i < |RunOf(place, steps).value.ops| && HasRev(RunOf(place, steps).value.ops[i])
    requires AllPut(place, steps, i, RunOf(place, steps).value.ops[i].rev)
    requires name in AsyncNodes(place(RunOf(place, steps).value.ops[i].rev)) && name != ""
    ensures var s := RunOf(place, steps).value; Stored(s, name, s.ops[i].rev) == Some(s.ops[i].value)
  {
    RunKeeps(place, steps);
    hide RunOf, AsyncNodes, Inv, Stored, DistinctRevisions;
    assert WasPut(steps, i, name);
    var k :| 0 <= k < |steps| && steps[k] == PutAsync(i, name);
    PutAsyncArrives(place, steps, k, i, name);
    StoredIsOwn(place, RunOf(place, steps).value, i, name);
  }
}

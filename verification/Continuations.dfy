/** Continuing a run: drawing for a new create, finishing a create, and reading a key. */
module Continuations {
  import opened Bytes
  import opened Options
  import opened Revisions
  import opened Histories
  import opened KeyStates
  import opened Protocol
  import opened ProtocolInvariant
  import opened ProtocolSteps

  /** The revision is placed on a first sync store that has a name. */
  ghost predicate FirstStore(place: Placement, main: int) {
    SyncNodes(place(main)) != [] && SyncNodes(place(main))[0] != ""
  }

  ghost predicate FirstStores(place: Placement, top: int) {
    forall main :: 1 <= main <= top ==> FirstStore(place, main)
  }

  /** Steps that begin no create and draw for none. */
  ghost predicate Finishing(more: seq<Step>) {
    forall k :: 0 <= k < |more| ==> !more[k].BeginWrite? && !more[k].Increment?
  }

  ghost predicate Reaches(place: Placement, steps: seq<Step>, s: State) {
    RunOf(place, steps) == Some(s)
  }

  lemma Extend(place: Placement, steps: seq<Step>, s: State, more: seq<Step>, st: Step)
    requires Reaches(place, steps + more, s) && Enabled(place, s, st)
    ensures Reaches(place, steps + (more + [st]), Do(place, s, st))
  {
    hide Do, Enabled;
    var all := steps + (more + [st]);
    assert all[..|all| - 1] == steps + more;
  }

  lemma OneStep(place: Placement, steps: seq<Step>, s: State, st: Step) returns (more: seq<Step>, s': State)
    requires Reaches(place, steps, s) && Enabled(place, s, st)
    ensures more == [st] && s' == Do(place, s, st) && Reaches(place, steps + more, s')
  {
    hide Do, Enabled;
    more, s' := [st], Do(place, s, st);
    assert (steps + more)[..|steps|] == steps;
  }

  lemma Nothing(place: Placement, steps: seq<Step>, s: State)
    requires Reaches(place, steps, s)
    ensures Reaches(place, steps + [], s)
  {
    assert steps + [] == steps;
  }

  lemma ReachesInv(place: Placement, steps: seq<Step>, s: State)
    requires Reaches(place, steps, s)
    ensures Inv(place, s)
  {
    RunKeeps(place, steps);
  }

  lemma Join3(place: Placement, steps: seq<Step>, a: seq<Step>, b: seq<Step>, s: State)
    requires Reaches(place, (steps + a) + b, s)
    ensures Reaches(place, steps + (a + b), s)
  {
    assert (steps + a) + b == steps + (a + b);
  }

  // ---------------------------------------------------------------- a new create

  /** The state with one more call, which began last. */
  function WithOp(s: State, op: Op): State {
    s.(clock := s.clock + 1, ops := s.ops + [op])
  }

  /** One step of the call that began last. */
  lemma LastOp(s: State, op: Op, op': Op)
    ensures SetOp(WithOp(s, op), |s.ops|, op') == WithOp(s, op')
  {
  }

  lemma BeginsLast(place: Placement, s: State, key: Key, value: string, assumed: Option<int>)
    ensures Do(place, s, BeginWrite(key, value, assumed)) ==
            WithOp(s, Write(key, value, assumed, s.clock, None, Asked, 0, 0, {}, 0))
  {
  }

  lemma ReadBeginsLast(place: Placement, s: State, key: Key)
    ensures Enabled(place, s, BeginRead(key))
    ensures Do(place, s, BeginRead(key)) == WithOp(s, Read(key, s.clock, None, Asking, ZERO, ""))
  {
  }

  lemma DrawsLast(place: Placement, s: State, op: Op)
    requires op.Write? && op.wphase.Asked?
    ensures var s1 := WithOp(s, op);
            var s2 := WithOp(s, op.(wphase := Incremented, own := s.counter + 1)).(counter := s.counter + 1);
            && Enabled(place, s1, Increment(|s.ops|)) && Do(place, s1, Increment(|s.ops|)) == s2
            && Enabled(place, s2, Load(|s.ops|))
            && Do(place, s2, Load(|s.ops|)) ==
               WithOp(s, op.(wphase := Drawn, own := s.counter + 1, rev := s.counter + 1)).(counter := s.counter + 1)
  {
    LastOp(s, op, op.(wphase := Incremented, own := s.counter + 1));
    LastOp(s.(counter := s.counter + 1), op.(wphase := Incremented, own := s.counter + 1),
           op.(wphase := Drawn, own := s.counter + 1, rev := s.counter + 1));
  }

  lemma NewCreate(place: Placement, steps: seq<Step>, s: State, key: Key, value: string, assumed: Option<int>)
      returns (more: seq<Step>, s': State)
    requires Reaches(place, steps, s)
    ensures Reaches(place, steps + more, s')
    ensures var op := Write(key, value, assumed, s.clock, None, Drawn, s.counter + 1, s.counter + 1, {}, 0);
            s' == WithOp(s, op).(counter := s.counter + 1)
  {
    var i, op := |s.ops|, Write(key, value, assumed, s.clock, None, Asked, 0, 0, {}, 0);
    var s1 := WithOp(s, op);
    var s2 := WithOp(s, op.(wphase := Incremented, own := s.counter + 1)).(counter := s.counter + 1);
    var a := [] + [BeginWrite(key, value, assumed)];
    Nothing(place, steps, s);
    BeginsLast(place, s, key, value, assumed);
    DrawsLast(place, s, op);
    assert Enabled(place, s, BeginWrite(key, value, assumed));
    hide Do, Enabled, Reaches;
    Extend(place, steps, s, [], BeginWrite(key, value, assumed));
    Extend(place, steps, s1, a, Increment(i));
    Extend(place, steps, s2, a + [Increment(i)], Load(i));
    more, s' := a + [Increment(i)] + [Load(i)], Do(place, s2, Load(i));
  }

  // ---------------------------------------------------------------- puts on the sync stores

  /** Only stores and the list of stores done have changed, and only under the revision. */
  ghost predicate OnlyPuts(s: State, s': State, i: nat) {
    && i < |s.ops| == |s'.ops| && s.ops[i].Write? && s'.ops[i].Write? && s.ops[i].done <= s'.ops[i].done
    && s' == s.(stores := s'.stores, ops := s.ops[i := s.ops[i].(done := s'.ops[i].done)])
    && forall name, main :: main != s.ops[i].rev ==> Stored(s', name, main) == Stored(s, name, main)
  }

  lemma PutOne(place: Placement, s: State, i: nat, n: nat)
    requires Enabled(place, s, PutSync(i, n, true))
    ensures var s' := Do(place, s, PutSync(i, n, true));
            var name := SyncNodes(place(s.ops[i].rev))[n];
            && OnlyPuts(s, s', i) && s'.ops[i].done == s.ops[i].done + {n}
            && (name != "" ==> Stored(s', name, s.ops[i].rev) == Some(s.ops[i].value))
  {
    hide SyncNodes;
  }

  lemma OnlyPutsTransitive(s: State, s1: State, s2: State, i: nat)
    requires OnlyPuts(s, s1, i) && OnlyPuts(s1, s2, i)
    ensures OnlyPuts(s, s2, i)
  {
    hide Stored;
  }

  lemma {:induction false} PutUpTo(place: Placement, steps: seq<Step>, s: State, i: nat, n: nat)
      returns (more: seq<Step>, s': State)
    requires Reaches(place, steps, s) && i < |s.ops| && s.ops[i].Write? && s.ops[i].wphase.Drawn?
    requires n <= |SyncNodes(place(s.ops[i].rev))|
    ensures Reaches(place, steps + more, s') && Finishing(more)
    ensures OnlyPuts(s, s', i) && forall k :: 0 <= k < n ==> k in s'.ops[i].done
    decreases n
  {
    hide SyncNodes, Do, Enabled, Stored;
    if n == 0 {
      more, s' := [], s;
      Nothing(place, steps, s);
      assert s.ops[i := s.ops[i].(done := s.ops[i].done)] == s.ops;
    } else {
      more, s' := PutUpTo(place, steps, s, i, n - 1);
      if n - 1 !in s'.ops[i].done {
        CanPut(place, s', i, n - 1);
        var s1 := s';
        Extend(place, steps, s1, more, PutSync(i, n - 1, true));
        PutOne(place, s1, i, n - 1);
        more, s' := more + [PutSync(i, n - 1, true)], Do(place, s1, PutSync(i, n - 1, true));
        OnlyPutsTransitive(s, s1, s', i);
      }
    }
  }

  lemma CanPut(place: Placement, s: State, i: nat, n: nat)
    requires i < |s.ops| && s.ops[i].Write? && s.ops[i].wphase.Drawn?
    requires n < |SyncNodes(place(s.ops[i].rev))| && n !in s.ops[i].done
    ensures Enabled(place, s, PutSync(i, n, true))
  {
  }

  // ---------------------------------------------------------------- publishing

  /** A create that the index will accept. */
  ghost predicate Acceptable(s: State, i: nat) {
    && i < |s.ops| && s.ops[i].Write? && s.ops[i].wphase.Drawn? && s.ops[i].rev >= 1
    && (s.ops[i].assumed.Some? ==> s.ops[i].key in s.index && Latest(s, s.ops[i].key) == s.ops[i].assumed.value)
  }

  ghost predicate AllDone(place: Placement, s: State, i: nat) {
    i < |s.ops| && s.ops[i].Write? &&
    forall n :: 0 <= n < |SyncNodes(place(s.ops[i].rev))| ==> n in s.ops[i].done
  }

  /** The index shows the newer of what it showed and the revision of the create. */
  ghost predicate NowPublished(s: State, s': State, i: nat)
    requires i < |s.ops| && s.ops[i].Write?
  {
    && s'.ops == s.ops[i := s.ops[i].(wphase := Published)]
    && s'.clock == s.clock && s'.stores == s.stores && s'.failed == s.failed && s.counter <= s'.counter <= s.counter + 1
    && s.ops[i].key in s'.index
    && Latest(s', s.ops[i].key) ==
       if s.ops[i].rev > Latest(s, s.ops[i].key) then s.ops[i].rev else Latest(s, s.ops[i].key)
  }

  lemma PublishNow(place: Placement, steps: seq<Step>, s: State, i: nat) returns (s': State)
    requires Reaches(place, steps, s) && Acceptable(s, i) && AllDone(place, s, i) && FirstStore(place, s.ops[i].rev)
    ensures Reaches(place, steps + [Publish(i)], s') && NowPublished(s, s', i)
  {
    ReachesInv(place, steps, s);
    InvParts(place, s);
    CanPublish(place, s, i);
    hide Inv, Reaches, FirstStore, AllDone, Accepts, Put, IndexOk, OpsOk, PairsOk, StoresOk, DoPublish, KeyOk, Grows;
    IsAccepted(place, s, i);
    var st;
    st, s' := OneStep(place, steps, s, Publish(i));
    assert s' == DoPublish(place, s, i);
    hide Do, Enabled;
    PublishShape(place, s, i);
    PublishedLatest(place, s, s', i);
  }

  lemma CanPublish(place: Placement, s: State, i: nat)
    requires Acceptable(s, i) && AllDone(place, s, i) && FirstStore(place, s.ops[i].rev)
    ensures Enabled(place, s, Publish(i))
  {
    assert SyncNodes(place(s.ops[i].rev)) != [];
  }

  lemma IsAccepted(place: Placement, s: State, i: nat)
    requires Acceptable(s, i) && IndexOk(place, s)
    ensures Accepts(StateOf(s, s.ops[i].key), PublishEvent(place, s, s.ops[i]))
  {
    if s.ops[i].key in s.index {
      assert KeyOk(place, s.index[s.ops[i].key]);
    }
  }

  /** A create put on all its stores, published and answered. */
  ghost predicate NowFinished(s: State, s': State, i: nat) {
    && i < |s.ops| == |s'.ops| && s.ops[i].Write? && s'.ops[i].Write?
    && s'.ops == s.ops[i := s.ops[i].(wphase := Published, done := s'.ops[i].done, resp := Some(s.clock))]
    && s'.clock == s.clock + 1 && s'.failed == s.failed && s.counter <= s'.counter <= s.counter + 1
    && s.ops[i].key in s'.index
    && Latest(s', s.ops[i].key) ==
       if s.ops[i].rev > Latest(s, s.ops[i].key) then s.ops[i].rev else Latest(s, s.ops[i].key)
  }

  lemma FinishCreate(place: Placement, steps: seq<Step>, s: State, i: nat) returns (more: seq<Step>, s': State)
    requires Reaches(place, steps, s) && Acceptable(s, i) && s.ops[i].resp.None? && FirstStore(place, s.ops[i].rev)
    ensures Reaches(place, steps + more, s') && Finishing(more) && NowFinished(s, s', i)
  {
    hide SyncNodes, FirstStore, Stored, Reaches;
    var n := |SyncNodes(place(s.ops[i].rev))|;
    var puts, s1 := PutUpTo(place, steps, s, i, n);
    var s2 := PublishNow(place, steps + puts, s1, i);
    Join3(place, steps, puts, [Publish(i)], s2);
    Extend(place, steps, s2, puts + [Publish(i)], Respond(i));
    more, s' := puts + [Publish(i)] + [Respond(i)], Do(place, s2, Respond(i));
  }

  // ---------------------------------------------------------------- reading

  /** A read of the key, begun and answered after everything else. */
  ghost predicate NowRead(place: Placement, s: State, s': State, key: Key, value: string) {
    && s' == s.(clock := s.clock + 2, ops := s'.ops)
    && s'.ops == s.ops + [Read(key, s.clock, Some(s.clock + 1), GotValue, RevisionAt(place, Latest(s, key)), value)]
  }

  lemma LookUpLast(place: Placement, s: State, op: Op)
    requires Inv(place, WithOp(s, op)) && op.Read? && op.rphase.Asking? && op.key in s.index
    ensures Enabled(place, WithOp(s, op), LookUp(|s.ops|))
    ensures Do(place, WithOp(s, op), LookUp(|s.ops|)) ==
            WithOp(s, op.(rphase := LookedUp, found := RevisionAt(place, Latest(s, op.key))))
  {
    hide Inv, AfterLookUp;
    LooksUpLatest(place, WithOp(s, op), op);
    LastOp(s, op, AfterLookUp(WithOp(s, op), op));
  }

  lemma FetchLast(place: Placement, s: State, op: Op)
    requires op.Read? && op.rphase.LookedUp? && SyncNodes(op.found.nodes) != []
    requires Stored(s, SyncNodes(op.found.nodes)[0], op.found.main).Some?
    ensures Enabled(place, WithOp(s, op), Fetch(|s.ops|))
    ensures Do(place, WithOp(s, op), Fetch(|s.ops|)) ==
            WithOp(s, op.(rphase := GotValue, result := Stored(s, SyncNodes(op.found.nodes)[0], op.found.main).value))
  {
    hide SyncNodes;
    LastOp(s, op, AfterFetch(WithOp(s, op), op));
  }

  lemma RespondLast(place: Placement, s: State, op: Op)
    requires op.Read? && op.rphase.GotValue? && op.resp.None?
    ensures Enabled(place, WithOp(s, op), Respond(|s.ops|))
    ensures Do(place, WithOp(s, op), Respond(|s.ops|)) ==
            s.(clock := s.clock + 2,
               ops := s.ops + [Read(op.key, op.inv, Some(s.clock + 1), op.rphase, op.found, op.result)])
  {
    LastOp(s, op, Read(op.key, op.inv, Some(s.clock + 1), op.rphase, op.found, op.result));
  }

  lemma ReadNow(place: Placement, steps: seq<Step>, s: State, key: Key) returns (more: seq<Step>, s': State)
    requires Reaches(place, steps, s) && key in s.index && FirstStore(place, Latest(s, key))
    requires Stored(s, SyncNodes(place(Latest(s, key)))[0], Latest(s, key)).Some?
    ensures Reaches(place, steps + more, s') && Finishing(more)
    ensures NowRead(place, s, s', key, Stored(s, SyncNodes(place(Latest(s, key)))[0], Latest(s, key)).value)
  {
    hide Reaches, Stored, SyncNodes;
    var look := LookNow(place, steps, s, key);
    var rest;
    rest, s' := FetchNow(place, steps + look, s, LookingAt(place, s, key));
    more := look + rest;
    Join3(place, steps, look, rest, s');
  }

  /** A read that has just found the latest revision. */
  function LookingAt(place: Placement, s: State, key: Key): Op {
    Read(key, s.clock, None, LookedUp, RevisionAt(place, Latest(s, key)), "")
  }

  lemma LookNow(place: Placement, steps: seq<Step>, s: State, key: Key) returns (more: seq<Step>)
    requires Reaches(place, steps, s) && key in s.index
    ensures Reaches(place, steps + more, WithOp(s, LookingAt(place, s, key))) && Finishing(more)
  {
    var asking := Read(key, s.clock, None, Asking, ZERO, "");
    hide Do, Enabled, Reaches, Inv, Finishing;
    ReadBeginsLast(place, s, key);
    var begin, s1 := OneStep(place, steps, s, BeginRead(key));
    ReachesInv(place, steps + begin, WithOp(s, asking));
    LookUpLast(place, s, asking);
    var look, s2 := OneStep(place, steps + begin, WithOp(s, asking), LookUp(|s.ops|));
    more := begin + look;
    Join3(place, steps, begin, look, s2);
    assert Finishing(more) by {
      ReadIsFinishing(key, |s.ops|);
    }
  }

  lemma ReadIsFinishing(key: Key, i: nat)
    ensures Finishing([BeginRead(key)] + [LookUp(i)])
  {
  }

  lemma FetchNow(place: Placement, steps: seq<Step>, s: State, op: Op) returns (more: seq<Step>, s': State)
    requires Reaches(place, steps, WithOp(s, op)) && op.Read? && op.rphase.LookedUp? && op.resp.None?
    requires SyncNodes(op.found.nodes) != [] && Stored(s, SyncNodes(op.found.nodes)[0], op.found.main).Some?
    ensures Reaches(place, steps + more, s') && Finishing(more)
    ensures var value := Stored(s, SyncNodes(op.found.nodes)[0], op.found.main).value;
            s' == s.(clock := s.clock + 2,
                     ops := s.ops + [Read(op.key, op.inv, Some(s.clock + 1), GotValue, op.found, value)])
  {
    hide Do, Enabled, Reaches, Stored, SyncNodes;
    var got := Read(op.key, op.inv, None, GotValue, op.found,
                    Stored(s, SyncNodes(op.found.nodes)[0], op.found.main).value);
    FetchLast(place, s, op);
    var fetch, s1 := OneStep(place, steps, WithOp(s, op), Fetch(|s.ops|));
    RespondLast(place, s, got);
    var respond;
    respond, s' := OneStep(place, steps + fetch, WithOp(s, got), Respond(|s.ops|));
    more := fetch + respond;
    Join3(place, steps, fetch, respond, s');
  }

  lemma LooksUpLatest(place: Placement, s: State, op: Op)
    requires Inv(place, s) && op.Read? && op.key in s.index
    ensures AfterLookUp(s, op) == op.(rphase := LookedUp, found := RevisionAt(place, Latest(s, op.key)))
  {
    InvParts(place, s);
    LookUpResult(place, s, op);
    LatestIsPositive(place, s.index[op.key]);
  }
}

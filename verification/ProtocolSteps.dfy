/** Each kind of step keeps the invariant; hence it holds in every state of every run. */
module ProtocolSteps {
  import opened Bytes
  import opened Options
  import opened Revisions
  import opened KeyStates
  import opened Histories
  import opened Protocol
  import opened ProtocolInvariant

  /** The index and the stores are not touched, so they stay right. */
  lemma SharedUntouched(place: Placement, s: State, s': State)
    requires Grows(s, s') && IndexOk(place, s) && StoresOk(s)
    requires s'.index == s.index && s'.stores == s.stores
    ensures IndexOk(place, s') && StoresOk(s')
  {
    hide KeyOk, IsPublished, IsWritten;
    forall key | key in s'.index
      ensures KeyOk(place, s'.index[key]) && IsPublished(s', key, Latest(s', key)) && Latest(s', key) <= s'.counter
    {
      assert IsPublished(s, key, Latest(s, key));
      StillPublished(s, s', key, Latest(s, key));
    }
    forall name, main | Stored(s', name, main).Some?
      ensures IsWritten(s', main, Stored(s', name, main).value)
    {
      assert Stored(s, name, main) == Stored(s', name, main);
      StillWritten(s, s', main, Stored(s, name, main).value);
    }
  }

  lemma BeginKeeps(place: Placement, s: State, op: Op)
    requires Inv(place, s)
    requires op.inv == s.clock && op.resp.None?
    requires op.Write? ==> op.wphase.Asked? && op.done == {}
    requires op.Read? ==> op.rphase.Asking?
    ensures Inv(place, s.(ops := s.ops + [op], clock := s.clock + 1))
  {
    var s' := s.(ops := s.ops + [op], clock := s.clock + 1);
    InvParts(place, s);
    BeginGrows(s, op);
    BeginPairs(place, s, op);
    hide Inv, PairsOk, IndexOk, StoresOk, Grows, OpOk;
    SharedUntouched(place, s, s');
    forall i | 0 <= i < |s'.ops|
      ensures OpOk(place, s', s'.ops[i])
    {
      if i < |s.ops| {
        OpStillOk(place, s, s', s.ops[i]);
      } else {
        NewOpOk(place, s', op);
      }
    }
    InvFromParts(place, s');
  }

  lemma InvFromParts(place: Placement, s: State)
    requires OpsOk(place, s) && PairsOk(s) && IndexOk(place, s) && StoresOk(s)
    ensures Inv(place, s)
  {
  }

  lemma BeginGrows(s: State, op: Op)
    ensures Grows(s, s.(ops := s.ops + [op], clock := s.clock + 1))
  {
  }

  lemma BeginPairs(place: Placement, s: State, op: Op)
    requires OpsOk(place, s) && PairsOk(s) && op.inv == s.clock && op.resp.None?
    requires op.Write? ==> op.wphase.Asked?
    requires op.Read? ==> op.rphase.Asking?
    ensures PairsOk(s.(ops := s.ops + [op], clock := s.clock + 1))
  {
  }

  lemma NewOpOk(place: Placement, s: State, op: Op)
    requires op.inv < s.clock && op.resp.None?
    requires op.Write? ==> op.wphase.Asked? && op.done == {}
    requires op.Read? ==> op.rphase.Asking?
    ensures OpOk(place, s, op)
  {
  }

  /** A call that is not finished has no answer. */
  lemma Pending(place: Placement, s: State, i: nat)
    requires Inv(place, s) && i < |s.ops| && !Finished(s.ops[i])
    ensures s.ops[i].resp.None? && OpOk(place, s, s.ops[i])
  {
    assert OpOk(place, s, s.ops[i]);
  }

  lemma RankAtMostCounter(place: Placement, s: State, i: nat)
    requires Inv(place, s) && i < |s.ops|
    ensures Rank(s.ops[i]) <= s.counter
  {
    assert OpOk(place, s, s.ops[i]);
  }

  lemma IncrementKeeps(place: Placement, s: State, i: nat)
    requires Inv(place, s) && Enabled(place, s, Increment(i))
    ensures Inv(place, Do(place, s, Increment(i)))
  {
    var s' := Do(place, s, Increment(i));
    InvParts(place, s);
    hide Inv, OpsOk, PairsOk, IndexOk, StoresOk, Stored, SyncNodes, Grows;
    QuietGrows(s, s', i);
    SharedUntouched(place, s, s');
    Pending(place, s, i);
    forall j | 0 <= j < |s.ops|
      ensures PairOk(s.ops[j], s'.ops[i])
    {
      RankAtMostCounter(place, s, j);
    }
    PendingOpChanges(place, s, s', i);
  }

  lemma LoadKeeps(place: Placement, s: State, i: nat)
    requires Inv(place, s) && Enabled(place, s, Load(i))
    ensures Inv(place, Do(place, s, Load(i)))
  {
    var s' := Do(place, s, Load(i));
    InvParts(place, s);
    hide Inv, OpsOk, IndexOk, StoresOk, Stored, SyncNodes, Grows;
    QuietGrows(s, s', i);
    SharedUntouched(place, s, s');
    Pending(place, s, i);
    forall j | 0 <= j < |s.ops|
      ensures PairOk(s.ops[j], s'.ops[i])
    {
      assert PairOk(s.ops[j], s.ops[i]);
    }
    PendingOpChanges(place, s, s', i);
  }

  lemma AbortKeeps(place: Placement, s: State, i: nat)
    requires Inv(place, s) && Enabled(place, s, Abort(i))
    ensures Inv(place, Do(place, s, Abort(i)))
  {
    var s' := Do(place, s, Abort(i));
    InvParts(place, s);
    hide Inv, OpsOk, PairsOk, IndexOk, StoresOk, Stored, SyncNodes, Grows;
    QuietGrows(s, s', i);
    SharedUntouched(place, s, s');
    Pending(place, s, i);
    OpStillOk(place, s, s', s.ops[i]);
    SamePlace(place, s, i, s'.ops[i]);
    PendingOpChanges(place, s, s', i);
  }

  /** An answer comes after every call that has begun. */
  lemma RespondKeeps(place: Placement, s: State, i: nat)
    requires Inv(place, s) && Enabled(place, s, Respond(i))
    ensures Inv(place, Do(place, s, Respond(i)))
  {
    var s' := Do(place, s, Respond(i));
    QuietGrows(s, s', i);
    hide Grows;
    SharedUntouched(place, s, s');
    assert OpOk(place, s, s.ops[i]);
    AnsweredOk(place, s, s', i);
    AnsweredPairs(place, s, i);
    hide Inv, OpOk, IndexOk, StoresOk, PairOk;
    OneOpChanges(place, s, s', i);
  }

  lemma AnsweredPairs(place: Placement, s: State, i: nat)
    requires Inv(place, s) && i < |s.ops|
    ensures var ops := s.ops[i := s.ops[i].(resp := Some(s.clock))];
            forall j :: 0 <= j < |ops| ==> PairOk(ops[j], ops[i]) && PairOk(ops[i], ops[j])
  {
  }

  lemma AnsweredOk(place: Placement, s: State, s': State, i: nat)
    requires i < |s.ops| && OpOk(place, s, s.ops[i]) && Finished(s.ops[i]) && s.ops[i].resp.None?
    requires s' == SetOp(s, i, s.ops[i].(resp := Some(s.clock))).(clock := s.clock + 1) && Grows(s, s')
    ensures OpOk(place, s', s'.ops[i])
  {
    hide Grows;
    OpStillOk(place, s, s', s.ops[i]);
  }

  /** Looking up gives the latest revision of the key, or that there is none. */
  lemma LookUpResult(place: Placement, s: State, op: Op)
    requires IndexOk(place, s) && op.Read?
    ensures AfterLookUp(s, op) ==
            if op.key in s.index then op.(rphase := LookedUp, found := s.index[op.key].modified)
            else op.(rphase := Missing)
  {
    if op.key in s.index {
      LookUpFindsLatest(place, s.index[op.key]);
    }
  }

  lemma LookedUpOk(place: Placement, s: State, op: Op)
    requires IndexOk(place, s) && OpOk(place, s, op) && op.Read? && op.resp.None?
    ensures op.key in s.index ==> OpOk(place, s, op.(rphase := LookedUp, found := s.index[op.key].modified))
    ensures OpOk(place, s, op.(rphase := Missing))
  {
    if op.key in s.index {
      LatestIsPositive(place, s.index[op.key]);
      hide KeyOk, IsPublished, SyncNodes, RevisionAt;
    }
  }

  /** The rank of anything visible is at most the latest revision of its key. */
  lemma VisibleAtMostLatest(place: Placement, s: State, i: nat)
    requires Inv(place, s) && i < |s.ops| && Visible(s.ops[i])
    ensures Rank(s.ops[i]) <= Latest(s, s.ops[i].key)
  {
    assert OpOk(place, s, s.ops[i]);
    if s.ops[i].key in s.index {
      LatestIsPositive(place, s.index[s.ops[i].key]);
    }
  }

  lemma LookUpPairs(place: Placement, s: State, op: Op)
    requires Inv(place, s) && op.Read? && Rank(op) == Latest(s, op.key)
    ensures forall j :: 0 <= j < |s.ops| ==> PairOk(s.ops[j], op)
  {
    hide Inv;
    forall j | 0 <= j < |s.ops|
      ensures PairOk(s.ops[j], op)
    {
      if Visible(s.ops[j]) {
        VisibleAtMostLatest(place, s, j);
      }
    }
  }

  /** A pending read moves on without touching anything shared. */
  lemma ReadMoves(place: Placement, s: State, i: nat, op: Op)
    requires Inv(place, s) && i < |s.ops| && s.ops[i].Read? && op.Read?
    requires op.key == s.ops[i].key && op.inv == s.ops[i].inv && op.resp.None? && s.ops[i].resp.None?
    requires OpOk(place, s, op)
    requires forall j :: 0 <= j < |s.ops| ==> PairOk(s.ops[j], op)
    ensures Inv(place, SetOp(s, i, op))
  {
    var s' := SetOp(s, i, op);
    InvParts(place, s);
    hide Inv, OpOk, PairOk, Grows, IndexOk, StoresOk;
    QuietGrows(s, s', i);
    SharedUntouched(place, s, s');
    LatestGrows(s, s', op.key, place);
    OpStillOk(place, s, s', op);
    PendingOpChanges(place, s, s', i);
  }

  lemma LookUpKeeps(place: Placement, s: State, i: nat)
    requires Inv(place, s) && Enabled(place, s, LookUp(i))
    ensures Inv(place, Do(place, s, LookUp(i)))
  {
    hide Inv, AfterLookUp;
    LookedUpMoves(place, s, i, s.ops[i], AfterLookUp(s, s.ops[i]));
  }

  lemma LookedUpMoves(place: Placement, s: State, i: nat, op: Op, op': Op)
    requires Inv(place, s) && i < |s.ops| && op == s.ops[i] && op.Read? && op.rphase.Asking?
    requires op' == AfterLookUp(s, op)
    ensures Inv(place, SetOp(s, i, op'))
  {
    hide Inv, OpsOk, PairsOk, IndexOk, StoresOk, OpOk, PairOk, AfterLookUp;
    InvParts(place, s);
    Pending(place, s, i);
    LookUpResult(place, s, op);
    LookedUpOk(place, s, op);
    LookUpPairs(place, s, op');
    ReadMoves(place, s, i, op');
  }

  lemma InvParts(place: Placement, s: State)
    requires Inv(place, s)
    ensures OpsOk(place, s) && PairsOk(s) && IndexOk(place, s) && StoresOk(s)
  {
  }

  lemma FetchKeeps(place: Placement, s: State, i: nat)
    requires Inv(place, s) && Enabled(place, s, Fetch(i))
    ensures Inv(place, Do(place, s, Fetch(i)))
  {
    hide Inv, AfterFetch;
    FetchedMoves(place, s, i, s.ops[i], AfterFetch(s, s.ops[i]));
  }

  lemma FetchedMoves(place: Placement, s: State, i: nat, op: Op, op': Op)
    requires Inv(place, s) && i < |s.ops| && op == s.ops[i] && op.Read? && op.rphase.LookedUp?
    requires op' == AfterFetch(s, op)
    ensures Inv(place, SetOp(s, i, op'))
  {
    hide Inv, OpsOk, PairsOk, IndexOk, StoresOk, OpOk, PairOk, AfterFetch;
    FetchedPairs(place, s, i);
    InvParts(place, s);
    Pending(place, s, i);
    FetchedShape(s, op);
    FetchedOk(place, s, op);
    ReadMoves(place, s, i, op');
  }

  lemma FetchedPairs(place: Placement, s: State, i: nat)
    requires Inv(place, s) && i < |s.ops| && s.ops[i].Read? && s.ops[i].rphase.LookedUp?
    ensures forall j :: 0 <= j < |s.ops| ==> PairOk(s.ops[j], AfterFetch(s, s.ops[i]))
  {
    hide Inv, PairOk, AfterFetch;
    FetchedShape(s, s.ops[i]);
    SamePlace(place, s, i, AfterFetch(s, s.ops[i]));
  }

  lemma FetchedShape(s: State, op: Op)
    requires op.Read?
    ensures var op' := AfterFetch(s, op);
            && op'.Read? && op'.key == op.key && op'.inv == op.inv && op'.resp == op.resp && op'.found == op.found
            && (op'.rphase.GotValue? || op'.rphase.GotError?)
  {
    hide SyncNodes, Stored;
  }

  /** A value that is read was written under that revision; a miss needs a failed put. */
  lemma FetchedOk(place: Placement, s: State, op: Op)
    requires OpsOk(place, s) && StoresOk(s)
    requires OpOk(place, s, op) && op.Read? && op.rphase.LookedUp?
    ensures OpOk(place, s, AfterFetch(s, op))
  {
  }

  /** Writing one more value under a drawn revision keeps the stores right. */
  lemma StoreKeeps(place: Placement, s: State, s0: State, i: nat, name: string)
    requires i < |s.ops| && HasRev(s.ops[i])
    requires StoresOk(s) && s0.stores == s.stores && Grows(s, s0)
    requires |s0.ops| > i && HasRev(s0.ops[i]) && s0.ops[i].rev == s.ops[i].rev && s0.ops[i].value == s.ops[i].value
    ensures StoresOk(Store(s0, name, s.ops[i].rev, s.ops[i].value))
    ensures Grows(s, Store(s0, name, s.ops[i].rev, s.ops[i].value))
    ensures Stored(Store(s0, name, s.ops[i].rev, s.ops[i].value), name, s.ops[i].rev).Some?
  {
    var main, value := s.ops[i].rev, s.ops[i].value;
    var s' := Store(s0, name, main, value);
    assert forall n, m :: Stored(s', n, m) == if n == name && m == main then Some(value) else Stored(s, n, m);
    assert Grows(s, s');
    forall n, m | Stored(s', n, m).Some?
      ensures IsWritten(s', m, Stored(s', n, m).value)
    {
      if n == name && m == main {
        assert IsWriter(s', main, value, i);
      } else {
        StillWritten(s, s', m, Stored(s, n, m).value);
      }
    }
  }

  lemma IndexUntouched(place: Placement, s: State, s': State)
    requires Grows(s, s') && IndexOk(place, s) && s'.index == s.index
    ensures IndexOk(place, s')
  {
    hide KeyOk, IsPublished;
    forall key | key in s'.index
      ensures KeyOk(place, s'.index[key]) && IsPublished(s', key, Latest(s', key)) && Latest(s', key) <= s'.counter
    {
      assert IsPublished(s, key, Latest(s, key));
      StillPublished(s, s', key, Latest(s, key));
    }
  }

  lemma PutAsyncKeeps(place: Placement, s: State, i: nat, name: string)
    requires Inv(place, s) && Enabled(place, s, PutAsync(i, name))
    ensures Inv(place, Do(place, s, PutAsync(i, name)))
  {
    var s' := Do(place, s, PutAsync(i, name));
    StoreKeeps(place, s, s, i, name);
    IndexUntouched(place, s, s');
    hide KeyOk, IsPublished, IsWritten, IndexOk, StoresOk, Store;
    assert OpOk(place, s, s.ops[i]);
    OpStillOk(place, s, s', s.ops[i]);
    OneOpChanges(place, s, s', i);
  }

  lemma StoreLeavesIndex(s: State, name: string, main: int, value: string)
    ensures var s' := Store(s, name, main, value); s'.index == s.index && s'.ops == s.ops && s'.failed == s.failed
  {
  }

  /** The shared part of a put on a sync store: the stores stay right, whether it succeeds or not. */
  lemma PutSyncShared(place: Placement, s: State, i: nat, n: nat, ok: bool)
    requires Inv(place, s) && Enabled(place, s, PutSync(i, n, ok))
    ensures var s' := DoPutSync(place, s, i, n, ok);
            var name := SyncNodes(place(s.ops[i].rev))[n];
            && Grows(s, s') && IndexOk(place, s') && StoresOk(s')
            && (name != "" && !s'.failed ==> Stored(s', name, s.ops[i].rev).Some?)
  {
    var op := s.ops[i];
    var name := SyncNodes(place(op.rev))[n];
    var s0, s' := SetOp(s, i, op.(done := op.done + {n})), DoPutSync(place, s, i, n, ok);
    InvParts(place, s);
    hide Inv, Grows, StoresOk, IndexOk, SyncNodes, Stored, Store;
    QuietGrows(s, s0, i);
    if name != "" && ok {
      StoreKeeps(place, s, s0, i, name);
      StoreLeavesIndex(s0, name, op.rev, op.value);
      IndexUntouched(place, s, s');
    } else {
      QuietGrows(s, s', i);
      SharedUntouched(place, s, s');
    }
  }

  lemma PutSyncKeeps(place: Placement, s: State, i: nat, n: nat, ok: bool)
    requires Inv(place, s) && Enabled(place, s, PutSync(i, n, ok))
    ensures Inv(place, Do(place, s, PutSync(i, n, ok)))
  {
    var s' := DoPutSync(place, s, i, n, ok);
    PutSyncShared(place, s, i, n, ok);
    Pending(place, s, i);
    OpStillOk(place, s, s', s.ops[i]);
    hide Inv, IndexOk, StoresOk, Stored, SyncNodes, Grows;
    SamePlace(place, s, i, s'.ops[i]);
    PendingOpChanges(place, s, s', i);
  }

  // ---------------------------------------------------------------- publishing

  /** One more published revision keeps the shape of a key. */
  lemma PublishKeepsKey(place: Placement, k: KeyState, main: int, draw: int)
    requires main >= 1 && (k == FRESH || KeyOk(place, k))
    ensures var k' := Put(k, RevisionAt(place, main), draw);
            && KeyOk(place, k')
            && k'.modified.main == if main > k.modified.main then main else k.modified.main
  {
    var rev := RevisionAt(place, main);
    var k' := Put(k, rev, draw);
    if k == FRESH {
      assert Valid(k);
    } else {
      LatestIsPositive(place, k);
    }
    PutKeepsValid(k, rev, draw);
    InsertContents(Opened(k)[0].revs, rev);
  }

  /** What an accepted publication does. */
  ghost predicate Publishes(place: Placement, s: State, s': State, i: nat) {
    && i < |s.ops| && s.ops[i].Write? && s.ops[i].wphase.Drawn?
    && (s.ops[i].assumed.Some? ==> s.ops[i].key in s.index && Latest(s, s.ops[i].key) == s.ops[i].assumed.value)
    && s'.clock == s.clock && s'.stores == s.stores && s'.failed == s.failed
    && s.counter <= s'.counter <= s.counter + 1
    && s'.ops == s.ops[i := s.ops[i].(wphase := Published)]
    && s'.index == s.index[s.ops[i].key :=
                  Put(StateOf(s, s.ops[i].key), RevisionAt(place, s.ops[i].rev), s.counter + 1)]
  }

  /** A refusal found no revision of the key, or another one than the create assumed. */
  ghost predicate Refuses(s: State, s': State, i: nat) {
    && i < |s.ops| && s.ops[i].Write? && s.ops[i].wphase.Drawn? && s.ops[i].assumed.Some?
    && (s.ops[i].key in s.index ==> Latest(s, s.ops[i].key) != s.ops[i].assumed.value)
    && s' == SetOp(s, i, s.ops[i].(wphase := Refused, seen := Latest(s, s.ops[i].key)))
  }

  lemma PublishShape(place: Placement, s: State, i: nat)
    requires Enabled(place, s, Publish(i)) && IndexOk(place, s)
    ensures var s' := DoPublish(place, s, i);
            if Accepts(StateOf(s, s.ops[i].key), PublishEvent(place, s, s.ops[i]))
            then Publishes(place, s, s', i) else Refuses(s, s', i)
  {
    hide SyncNodes;
  }

  /** A publication that opens a generation draws one number, which becomes its creation; no other moves the counter. */
  lemma PublishDraws(place: Placement, s: State, i: nat)
    requires Enabled(place, s, Publish(i))
    ensures var k, s', key := StateOf(s, s.ops[i].key), Do(place, s, Publish(i)), s.ops[i].key;
            if Accepts(k, PublishEvent(place, s, s.ops[i])) && Current(k) == []
            then && s'.counter == s.counter + 1 && key in s'.index && s'.index[key].generations != []
                 && var gens := s'.index[key].generations; gens[|gens| - 1].created == Revision(s'.counter, 0, [])
            else s'.counter == s.counter
  {
    hide SyncNodes, Insert;
  }

  lemma PublishedLatest(place: Placement, s: State, s': State, i: nat)
    requires IndexOk(place, s) && Publishes(place, s, s', i) && s.ops[i].rev >= 1
    ensures KeyOk(place, s'.index[s.ops[i].key])
    ensures Latest(s', s.ops[i].key) ==
            if s.ops[i].rev > Latest(s, s.ops[i].key) then s.ops[i].rev else Latest(s, s.ops[i].key)
    ensures Grows(s, s')
  {
    hide KeyOk, IndexOk, Grows, Publishes;
    PublishedKey(place, s, s', i);
    PublishedGrows(place, s, s', i);
  }

  lemma PublishedKey(place: Placement, s: State, s': State, i: nat)
    requires IndexOk(place, s) && Publishes(place, s, s', i) && s.ops[i].rev >= 1
    ensures s.ops[i].key in s'.index && KeyOk(place, s'.index[s.ops[i].key])
    ensures Latest(s', s.ops[i].key) ==
            if s.ops[i].rev > Latest(s, s.ops[i].key) then s.ops[i].rev else Latest(s, s.ops[i].key)
  {
    hide Put, KeyOk;
    var key, main, k := s.ops[i].key, s.ops[i].rev, StateOf(s, s.ops[i].key);
    assert k == FRESH || KeyOk(place, k);
    assert Latest(s, key) == k.modified.main;
    assert s'.index[key] == Put(k, RevisionAt(place, main), s.counter + 1);
    hide Publishes, IndexOk, StateOf, RevisionAt;
    PublishKeepsKey(place, k, main, s.counter + 1);
  }

  lemma PublishedGrows(place: Placement, s: State, s': State, i: nat)
    requires Publishes(place, s, s', i) && Latest(s, s.ops[i].key) <= Latest(s', s.ops[i].key)
    ensures Grows(s, s')
  {
    hide Put, Stored;
    PublishGrows(s, s', i, s'.index[s.ops[i].key]);
  }

  lemma PublishGrows(s: State, s': State, i: nat, k: KeyState)
    requires i < |s.ops| == |s'.ops| && s'.ops == s.ops[i := s'.ops[i]] && Advances(s.ops[i], s'.ops[i])
    requires s'.clock == s.clock && s.counter <= s'.counter && s'.failed == s.failed && s'.stores == s.stores
    requires s'.index == s.index[s.ops[i].key := k]
    requires s.ops[i].key in s.index ==> Latest(s, s.ops[i].key) <= Latest(s', s.ops[i].key)
    ensures Grows(s, s')
  {
    assert forall name, main :: Stored(s', name, main) == Stored(s, name, main);
  }

  lemma PublishKeeps(place: Placement, s: State, i: nat)
    requires Inv(place, s) && Enabled(place, s, Publish(i))
    ensures Inv(place, Do(place, s, Publish(i)))
  {
    hide DoPublish, Inv, Accepts, IndexOk, OpsOk, PairsOk, StoresOk, Publishes, Refuses, SyncNodes;
    InvParts(place, s);
    PublishShape(place, s, i);
    var s' := DoPublish(place, s, i);
    if Accepts(StateOf(s, s.ops[i].key), PublishEvent(place, s, s.ops[i])) {
      PublishingKeeps(place, s, s', i);
    } else {
      RefusingKeeps(place, s, s', i);
    }
  }

  lemma RefusingKeeps(place: Placement, s: State, s': State, i: nat)
    requires Inv(place, s) && Refuses(s, s', i)
    ensures Inv(place, s')
  {
    InvParts(place, s);
    hide Inv, OpsOk, PairsOk, IndexOk, StoresOk, Stored, SyncNodes, Grows, PairOk, OpOk;
    QuietGrows(s, s', i);
    SharedUntouched(place, s, s');
    Pending(place, s, i);
    RefusedOk(place, s, s', i);
    RefusedPairs(place, s, s', i);
    PendingOpChanges(place, s, s', i);
  }

  lemma RefusedOk(place: Placement, s: State, s': State, i: nat)
    requires IndexOk(place, s) && Refuses(s, s', i) && Grows(s, s') && OpOk(place, s, s.ops[i])
    ensures OpOk(place, s', s'.ops[i])
  {
    var op := s.ops[i];
    OpStillOk(place, s, s', op);
    if op.key in s.index {
      LatestIsPositive(place, s.index[op.key]);
      hide KeyOk, IsPublished, Grows;
      StillPublished(s, s', op.key, Latest(s, op.key));
    }
  }

  lemma RefusedPairs(place: Placement, s: State, s': State, i: nat)
    requires Inv(place, s) && Refuses(s, s', i)
    ensures forall j :: 0 <= j < |s.ops| ==> PairOk(s.ops[j], s'.ops[i])
  {
    hide Stored, SyncNodes, StoresOk;
    forall j | 0 <= j < |s.ops|
      ensures PairOk(s.ops[j], s'.ops[i])
    {
      assert PairOk(s.ops[j], s.ops[i]);
      if Visible(s.ops[j]) {
        VisibleAtMostLatest(place, s, j);
      }
    }
  }

  lemma PublishingKeeps(place: Placement, s: State, s': State, i: nat)
    requires Inv(place, s) && Publishes(place, s, s', i)
    requires forall n :: 0 <= n < |SyncNodes(place(s.ops[i].rev))| ==> n in s.ops[i].done
    ensures Inv(place, s')
  {
    var op := s.ops[i];
    InvParts(place, s);
    hide Inv, OpsOk, PairsOk, IndexOk, StoresOk, KeyOk, Put, Stored, Grows, SyncNodes;
    Pending(place, s, i);
    PublishedLatest(place, s, s', i);
    PublishKeepsIndex(place, s, s', i);
    PublishKeepsStores(s, s');
    if op.assumed.Some? {
      AssumedIsPublished(place, s, s', op.key);
    }
    PublishedOpOk(place, s, s', i);
    hide OpOk, PairOk, Advances;
    PendingOpChanges(place, s, s', i);
  }

  lemma AssumedIsPublished(place: Placement, s: State, s': State, key: Key)
    requires IndexOk(place, s) && Grows(s, s') && key in s.index
    ensures IsPublished(s', key, Latest(s, key))
  {
    hide KeyOk, Grows, IsPublished;
    StillPublished(s, s', key, Latest(s, key));
  }

  lemma PublishedOpOk(place: Placement, s: State, s': State, i: nat)
    requires Inv(place, s) && Publishes(place, s, s', i) && Grows(s, s') && OpOk(place, s, s.ops[i])
    requires forall n :: 0 <= n < |SyncNodes(place(s.ops[i].rev))| ==> n in s.ops[i].done
    requires s.ops[i].key in s'.index && s.ops[i].rev <= Latest(s', s.ops[i].key)
    requires s.ops[i].assumed.Some? ==> IsPublished(s', s.ops[i].key, s.ops[i].assumed.value)
    ensures OpOk(place, s', s'.ops[i])
    ensures forall j :: 0 <= j < |s.ops| ==> PairOk(s.ops[j], s'.ops[i])
  {
    hide Inv, KeyOk, Put, Stored, Grows, SyncNodes, PairOk;
    OpStillOk(place, s, s', s.ops[i]);
    SamePlace(place, s, i, s'.ops[i]);
  }

  lemma PublishKeepsIndex(place: Placement, s: State, s': State, i: nat)
    requires IndexOk(place, s) && Publishes(place, s, s', i) && Grows(s, s')
    requires s.ops[i].rev <= s.counter && KeyOk(place, s'.index[s.ops[i].key])
    requires Latest(s', s.ops[i].key) ==
             if s.ops[i].rev > Latest(s, s.ops[i].key) then s.ops[i].rev else Latest(s, s.ops[i].key)
    requires s.ops[i].rev >= 1
    ensures IndexOk(place, s')
  {
    var op := s.ops[i];
    assert IsPublisher(s', op.key, op.rev, i);
    assert IsPublished(s', op.key, op.rev);
    hide KeyOk, Put, IsPublished;
    forall key | key in s'.index
      ensures KeyOk(place, s'.index[key]) && IsPublished(s', key, Latest(s', key)) && Latest(s', key) <= s'.counter
    {
      if key != op.key || Latest(s', key) != op.rev {
        assert key in s.index;
        StillPublished(s, s', key, Latest(s, key));
      }
    }
  }

  lemma PublishKeepsStores(s: State, s': State)
    requires StoresOk(s) && Grows(s, s') && s'.stores == s.stores
    ensures StoresOk(s')
  {
    hide IsWritten, Grows;
    forall name, main | Stored(s', name, main).Some?
      ensures IsWritten(s', main, Stored(s', name, main).value)
    {
      assert Stored(s, name, main) == Stored(s', name, main);
      StillWritten(s, s', main, Stored(s, name, main).value);
    }
  }

  // ---------------------------------------------------------------- runs

  lemma StepKeeps(place: Placement, s: State, st: Step)
    requires Inv(place, s) && Enabled(place, s, st)
    ensures Inv(place, Do(place, s, st))
  {
    hide Inv;
    match st
    case BeginWrite(key, value, assumed) =>
      BeginKeeps(place, s, Write(key, value, assumed, s.clock, None, Asked, 0, 0, {}, 0));
    case BeginRead(key) => BeginKeeps(place, s, Read(key, s.clock, None, Asking, ZERO, ""));
    case Increment(i) => IncrementKeeps(place, s, i);
    case Load(i) => LoadKeeps(place, s, i);
    case PutSync(i, n, ok) => PutSyncKeeps(place, s, i, n, ok);
    case PutAsync(i, name) => PutAsyncKeeps(place, s, i, name);
    case Publish(i) => PublishKeeps(place, s, i);
    case Abort(i) => AbortKeeps(place, s, i);
    case LookUp(i) => LookUpKeeps(place, s, i);
    case Fetch(i) => FetchKeeps(place, s, i);
    case Respond(i) => RespondKeeps(place, s, i);
  }

  lemma {:induction false} RunKeeps(place: Placement, steps: seq<Step>)
    ensures RunOf(place, steps).Some? ==> Inv(place, RunOf(place, steps).value)
  {
    if steps != [] && RunOf(place, steps).Some? {
      hide Inv, Do, Enabled;
      RunKeeps(place, steps[..|steps| - 1]);
      StepKeeps(place, RunOf(place, steps[..|steps| - 1]).value, steps[|steps| - 1]);
    }
  }
}

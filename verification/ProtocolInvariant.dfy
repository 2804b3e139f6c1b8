/** What every step of the protocol keeps, in every interleaving and with failing stores. */
module ProtocolInvariant {
  import opened Bytes
  import opened Revisions
  import opened KeyStates
  import opened Protocol

  // ---------------------------------------------------------------- the invariant

  ghost predicate IsPublisher(s: State, key: Key, main: int, i: int) {
    0 <= i < |s.ops| && s.ops[i].Write? && s.ops[i].wphase.Published? && s.ops[i].key == key && s.ops[i].rev == main
  }

  ghost predicate IsPublished(s: State, key: Key, main: int) {
    exists i :: IsPublisher(s, key, main, i)
  }

  ghost predicate IsWriter(s: State, main: int, value: string, i: int) {
    0 <= i < |s.ops| && HasRev(s.ops[i]) && s.ops[i].rev == main && s.ops[i].value == value
  }

  ghost predicate IsWritten(s: State, main: int, value: string) {
    exists i :: IsWriter(s, main, value, i)
  }

  /** Where a call stands in the order of revisions; 0 before any. */
  function Rank(op: Op): int {
    if op.Write? then if op.wphase.Refused? then op.seen else if HasRev(op) then op.rev else 0
    else if op.rphase.Asking? || op.rphase.Missing? then 0 else op.found.main
  }

  /** A store that skips the empty name has the value for every node that counts as done. */
  ghost predicate DoneIsStored(place: Placement, s: State, op: Op)
    requires op.Write?
  {
    forall n :: n in op.done && n < |SyncNodes(place(op.rev))| && SyncNodes(place(op.rev))[n] != "" ==>
      Stored(s, SyncNodes(place(op.rev))[n], op.rev).Some?
  }

  /** What a conditional create met in the index: its assumed revision, or another one, or none. */
  ghost predicate ConditionOk(s: State, op: Op)
    requires op.Write?
  {
    && (op.wphase.Published? && op.assumed.Some? ==> IsPublished(s, op.key, op.assumed.value))
    && (op.wphase.Refused? ==>
          && op.assumed.Some? && 0 <= op.seen <= Latest(s, op.key) && op.seen <= s.counter
          && (op.seen > 0 ==> op.seen != op.assumed.value && IsPublished(s, op.key, op.seen)))
  }

  ghost predicate WriteOk(place: Placement, s: State, op: Op)
    requires op.Write?
  {
    && (op.wphase.Incremented? || HasRev(op) ==> 1 <= op.own <= s.counter)
    && (HasRev(op) ==> op.own <= op.rev <= s.counter)
    && (HasRev(op) || op.done == {})
    && (op.wphase.Published? ==> op.key in s.index && op.rev <= Latest(s, op.key))
    && (op.wphase.Published? ==> forall n :: 0 <= n < |SyncNodes(place(op.rev))| ==> n in op.done)
    && (HasRev(op) && !s.failed ==> DoneIsStored(place, s, op))
    && ConditionOk(s, op)
  }

  ghost predicate ReadOk(place: Placement, s: State, op: Op)
    requires op.Read?
  {
    && (op.rphase.LookedUp? || op.rphase.GotValue? || op.rphase.GotError? ==>
          && op.found == RevisionAt(place, op.found.main)
          && 1 <= op.found.main <= Latest(s, op.key)
          && op.found.main <= s.counter
          && IsPublished(s, op.key, op.found.main))
    && (op.rphase.GotValue? ==> IsWritten(s, op.found.main, op.result))
    && (op.rphase.GotError? && !s.failed ==>
          SyncNodes(op.found.nodes) == [] || SyncNodes(op.found.nodes)[0] == "")
  }

  ghost predicate TimeOk(s: State, op: Op) {
    && op.inv < s.clock
    && (op.resp.Some? ==> op.inv < op.resp.value < s.clock && Finished(op))
  }

  ghost predicate OpOk(place: Placement, s: State, op: Op) {
    TimeOk(s, op) && if op.Write? then WriteOk(place, s, op) else ReadOk(place, s, op)
  }

  /** Calls that have looked at the latest revision of their key. */
  ghost predicate Observes(op: Op) {
    if op.Write? then op.wphase.Refused? else !op.rphase.Asking?
  }

  /** Calls whose rank is at most the latest revision of their key. */
  ghost predicate Visible(op: Op) {
    op.Write? ==> op.wphase.Published? || op.wphase.Refused?
  }

  /** A call that was answered before another began has a smaller, or for a read no larger, rank. */
  ghost predicate PairOk(a: Op, b: Op) {
    a.resp.Some? && a.resp.value < b.inv ==>
      && (b.Write? && b.wphase.Incremented? ==> Rank(a) < b.own)
      && (HasRev(b) ==> Rank(a) < b.rev)
      && (Observes(b) && Visible(a) && a.key == b.key ==> Rank(a) <= Rank(b))
  }

  /** Without deletes a key has one generation, and main numbers determine revisions. */
  ghost predicate KeyOk(place: Placement, k: KeyState) {
    && Valid(k)
    && |k.generations| == 1
    && forall r :: r in k.generations[0].revs ==> r.main >= 1 && r == RevisionAt(place, r.main)
  }

  ghost predicate IndexOk(place: Placement, s: State) {
    forall key :: key in s.index ==>
      KeyOk(place, s.index[key]) && IsPublished(s, key, Latest(s, key)) && Latest(s, key) <= s.counter
  }

  ghost predicate StoresOk(s: State) {
    forall name, main :: Stored(s, name, main).Some? ==> IsWritten(s, main, Stored(s, name, main).value)
  }

  ghost predicate OpsOk(place: Placement, s: State) {
    forall i :: 0 <= i < |s.ops| ==> OpOk(place, s, s.ops[i])
  }

  ghost predicate PairsOk(s: State) {
    && (forall i, j :: 0 <= i < |s.ops| && 0 <= j < |s.ops| ==> PairOk(s.ops[i], s.ops[j]))
    && (forall i, j :: 0 <= i < j < |s.ops| ==> s.ops[i].inv < s.ops[j].inv)
  }

  ghost predicate Inv(place: Placement, s: State) {
    OpsOk(place, s) && PairsOk(s) && IndexOk(place, s) && StoresOk(s)
  }

  // ---------------------------------------------------------------- growth

  /** What was drawn stays drawn, and what was published stays published. */
  ghost predicate Advances(a: Op, b: Op) {
    && a.key == b.key && a.Write? == b.Write? && a.inv == b.inv
    && (HasRev(a) ==> HasRev(b) && a.rev == b.rev && a.value == b.value)
    && (a.Write? && a.wphase.Published? ==> b.wphase.Published?)
  }

  ghost predicate Grows(s: State, s': State) {
    && s.clock <= s'.clock && s.counter <= s'.counter && (s.failed ==> s'.failed)
    && |s.ops| <= |s'.ops|
    && (forall i :: 0 <= i < |s.ops| ==> Advances(s.ops[i], s'.ops[i]))
    && (forall key :: key in s.index ==> key in s'.index && Latest(s, key) <= Latest(s', key))
    && (forall name, main :: Stored(s, name, main).Some? ==> Stored(s', name, main).Some?)
  }

  /** A step on one call that leaves the index and the stores alone. */
  lemma QuietGrows(s: State, s': State, i: nat)
    requires i < |s.ops| == |s'.ops| && s'.ops == s.ops[i := s'.ops[i]] && Advances(s.ops[i], s'.ops[i])
    requires s.clock <= s'.clock && s.counter <= s'.counter && (s.failed ==> s'.failed)
    requires s'.index == s.index && s'.stores == s.stores
    ensures Grows(s, s')
  {
    assert forall name, main :: Stored(s', name, main) == Stored(s, name, main);
  }

  lemma StillPublished(s: State, s': State, key: Key, main: int)
    requires Grows(s, s') && IsPublished(s, key, main)
    ensures IsPublished(s', key, main)
  {
    var i :| IsPublisher(s, key, main, i);
    assert Advances(s.ops[i], s'.ops[i]);
    assert IsPublisher(s', key, main, i);
  }

  lemma StillWritten(s: State, s': State, main: int, value: string)
    requires Grows(s, s') && IsWritten(s, main, value)
    ensures IsWritten(s', main, value)
  {
    var i :| IsWriter(s, main, value, i);
    assert Advances(s.ops[i], s'.ops[i]);
    assert IsWriter(s', main, value, i);
  }

  lemma ConditionStillOk(s: State, s': State, op: Op)
    requires Grows(s, s') && op.Write? && ConditionOk(s, op)
    requires op.wphase.Refused? ==> Latest(s, op.key) <= Latest(s', op.key)
    ensures ConditionOk(s', op)
  {
    hide IsPublished;
    if op.wphase.Published? && op.assumed.Some? {
      StillPublished(s, s', op.key, op.assumed.value);
    }
    if op.wphase.Refused? && op.seen > 0 {
      StillPublished(s, s', op.key, op.seen);
    }
  }

  lemma OpStillOk(place: Placement, s: State, s': State, op: Op)
    requires Grows(s, s') && OpOk(place, s, op)
    requires Observes(op) ==> Latest(s, op.key) <= Latest(s', op.key)
    ensures OpOk(place, s', op)
  {
    hide IsPublished, IsWritten, SyncNodes, RevisionAt;
    if op.Write? {
      ConditionStillOk(s, s', op);
    }
    if op.Read? && !op.rphase.Asking? && !op.rphase.Missing? {
      StillPublished(s, s', op.key, op.found.main);
      if op.rphase.GotValue? {
        StillWritten(s, s', op.found.main, op.result);
      }
    }
  }

  /** A step that changes one call and leaves the index and the stores right keeps the invariant. */
  lemma OneOpChanges(place: Placement, s: State, s': State, c: nat)
    requires Inv(place, s) && Grows(s, s') && c < |s.ops| == |s'.ops|
    requires forall i :: 0 <= i < |s.ops| && i != c ==> s'.ops[i] == s.ops[i]
    requires OpOk(place, s', s'.ops[c])
    requires forall i :: 0 <= i < |s.ops| ==> PairOk(s'.ops[i], s'.ops[c]) && PairOk(s'.ops[c], s'.ops[i])
    requires IndexOk(place, s') && StoresOk(s')
    ensures Inv(place, s')
  {
    hide OpOk, PairOk, IndexOk, StoresOk, Stored;
    forall i | 0 <= i < |s'.ops|
      ensures OpOk(place, s', s'.ops[i])
    {
      if i != c {
        LatestGrows(s, s', s.ops[i].key, place);
        OpStillOk(place, s, s', s.ops[i]);
      }
    }
    assert forall i :: 0 <= i < |s.ops| ==> Advances(s.ops[i], s'.ops[i]);
  }

  /** The usual case: the call is still unanswered, so it precedes nothing. */
  lemma PendingOpChanges(place: Placement, s: State, s': State, c: nat)
    requires Inv(place, s) && Grows(s, s') && c < |s.ops| == |s'.ops|
    requires s'.ops == s.ops[c := s'.ops[c]] && s'.ops[c].resp.None? && s.ops[c].resp.None?
    requires OpOk(place, s', s'.ops[c])
    requires forall i :: 0 <= i < |s.ops| ==> PairOk(s.ops[i], s'.ops[c])
    requires IndexOk(place, s') && StoresOk(s')
    ensures Inv(place, s')
  {
    hide Inv, OpOk, IndexOk, StoresOk, Grows;
    forall i | 0 <= i < |s.ops|
      ensures PairOk(s'.ops[i], s'.ops[c]) && PairOk(s'.ops[c], s'.ops[i])
    {
      assert PairOk(s.ops[i], s'.ops[c]);
    }
    OneOpChanges(place, s, s', c);
  }

  /** A step within the same place in the order. */
  lemma SamePlace(place: Placement, s: State, c: nat, op: Op)
    requires Inv(place, s) && c < |s.ops|
    requires op.inv == s.ops[c].inv && op.key == s.ops[c].key && op.Write? == s.ops[c].Write?
    requires HasRev(op) ==> HasRev(s.ops[c]) && op.rev == s.ops[c].rev
    requires op.Write? ==> !op.wphase.Incremented? && !op.wphase.Refused?
    requires op.Read? ==> !s.ops[c].rphase.Asking? && Rank(op) == Rank(s.ops[c])
    ensures forall i :: 0 <= i < |s.ops| ==> PairOk(s.ops[i], op)
  {
  }

  lemma LatestGrows(s: State, s': State, key: Key, place: Placement)
    requires Grows(s, s') && IndexOk(place, s')
    ensures Latest(s, key) <= Latest(s', key)
  {
  }

  /** The latest revision of a key is one of its published ones, so it has a real number. */
  lemma LatestIsPositive(place: Placement, k: KeyState)
    requires KeyOk(place, k)
    ensures k.modified.main >= 1 && k.modified in k.generations[0].revs
    ensures k.modified == RevisionAt(place, k.modified.main)
  {
    var revs := k.generations[0].revs;
    assert revs[0] in revs;
    assert NoneNewer(revs, k.modified);
    assert k.modified != ZERO;
    var i :| 0 <= i < |k.generations| && k.modified in k.generations[i].revs;
  }

  /** Looking up a key finds exactly its latest revision. */
  lemma LookUpFindsLatest(place: Placement, k: KeyState)
    requires KeyOk(place, k)
    ensures Get(k, k.modified.main).Found? && Get(k, k.modified.main).rev == k.modified
  {
    LatestIsPositive(place, k);
    var revs, at := k.generations[0].revs, k.modified.main;
    var m :| 0 <= m < |revs| && revs[m] == k.modified;
    var last := |revs| - 1;
    assert revs[last] in revs && revs[0] in revs;
    assert NoneNewer(revs, k.modified) && Sorted(revs);
    assert revs[last].main == at;
    assert Started(k.generations[0], at);
    assert LastAtOrBefore(revs, at) == last;
  }
}

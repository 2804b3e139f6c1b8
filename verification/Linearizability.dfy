/**
 Ordering the calls on a key by revision. If no two creates drew the same revision, this order
 explains every read of every run. It explains the conditional creates as well exactly when no
 create was published with a revision between what an accepted one assumed and its own.
 */
module Linearizability {
  import opened Bytes
  import opened Options
  import opened Protocol
  import opened ProtocolInvariant
  import opened ProtocolSteps
  import opened CallOrders

  // ---------------------------------------------------------------- the order

  function RevisionOrder(s: State, key: Key): (lin: seq<nat>)
    ensures IsInOrder(s, key, lin)
  {
    var lin := Arrange(s, NO_TIMES, key, |s.ops|);
    assert forall p :: 0 <= p < |lin| ==> lin[p] in lin;
    lin
  }

  /** What is known of the order: it is sorted and lists exactly the effective calls. */
  ghost predicate IsInOrder(s: State, key: Key, lin: seq<nat>) {
    && InOrder(s, NO_TIMES, lin)
    && (forall i :: i in lin <==> 0 <= i < |s.ops| && Effective(s, i, key))
    && (forall p :: 0 <= p < |lin| ==> Effective(s, lin[p], key))
  }

  // ---------------------------------------------------------------- real time

  lemma RealTime(place: Placement, s: State, key: Key, i: nat, j: nat)
    requires Inv(place, s) && i < |s.ops| && j < |s.ops|
    requires Effective(s, i, key) && Effective(s, j, key) && Precedes(s, i, j)
    ensures Before(s, NO_TIMES, i, j)
  {
    hide IndexOk, StoresOk, WriteOk, ReadOk;
    assert OpOk(place, s, s.ops[i]) && TimeOk(s, s.ops[i]);
    assert PairOk(s.ops[i], s.ops[j]);
    assert i < j;
  }

  lemma InOrderIsOrder(place: Placement, s: State, key: Key, lin: seq<nat>)
    requires Inv(place, s) && IsInOrder(s, key, lin)
    ensures IsOrder(s, key, lin)
  {
    hide Inv, Before, Effective;
    forall p, q | 0 <= p < q < |lin|
      ensures lin[p] != lin[q] && !Precedes(s, lin[q], lin[p])
    {
      BeforeIsStrict(s, NO_TIMES, lin[p], lin[q]);
      if Precedes(s, lin[q], lin[p]) {
        RealTime(place, s, key, lin[q], lin[p]);
      }
    }
  }

  // ---------------------------------------------------------------- the register

  /** If the last create that counts is at position m, that is what the register holds. */
  lemma {:induction false} RegisterIs(s: State, lin: seq<nat>, m: nat)
    requires forall p :: 0 <= p < |lin| ==> lin[p] < |s.ops|
    requires m < |lin| && Writes(s.ops[lin[m]])
    requires forall p :: m < p < |lin| ==> !Writes(s.ops[lin[p]])
    ensures Register(s, lin) == Some(s.ops[lin[m]])
  {
    if m < |lin| - 1 {
      RegisterIs(s, lin[..|lin| - 1], m);
    }
  }

  lemma {:induction false} RegisterIsEmpty(s: State, lin: seq<nat>)
    requires forall p :: 0 <= p < |lin| ==> lin[p] < |s.ops| && !Writes(s.ops[lin[p]])
    ensures Register(s, lin) == None
  {
    if lin != [] {
      RegisterIsEmpty(s, lin[..|lin| - 1]);
    }
  }

  /** Where the content of the register comes from; no create that counts follows. */
  lemma {:induction false} RegisterFrom(s: State, lin: seq<nat>) returns (m: nat)
    requires forall p :: 0 <= p < |lin| ==> lin[p] < |s.ops|
    requires Register(s, lin).Some?
    ensures m < |lin| && Register(s, lin) == Some(s.ops[lin[m]]) && Writes(s.ops[lin[m]])
    ensures forall p :: m < p < |lin| ==> !Writes(s.ops[lin[p]])
  {
    m := |lin| - 1;
    if !Writes(s.ops[lin[m]]) {
      m := RegisterFrom(s, lin[..m]);
    }
  }

  /** Two creates with the same revision are the same create. */
  lemma SameRevSameOp(s: State, i: int, j: int)
    requires DistinctRevisions(s) && 0 <= i < |s.ops| && 0 <= j < |s.ops|
    requires HasRev(s.ops[i]) && HasRev(s.ops[j]) && s.ops[i].rev == s.ops[j].rev
    ensures i == j
  {
  }

  lemma PublishedRankIsPositive(place: Placement, s: State, i: nat)
    requires Inv(place, s) && i < |s.ops| && s.ops[i].Write? && s.ops[i].wphase.Published?
    ensures Rank(s.ops[i]) >= 1
  {
    assert OpOk(place, s, s.ops[i]);
  }

  /** A call that found nothing comes before every create. */
  lemma NothingBefore(place: Placement, s: State, key: Key, lin: seq<nat>, p: nat)
    requires Inv(place, s) && IsInOrder(s, key, lin) && p < |lin|
    requires Rank(s.ops[lin[p]]) == 0
    ensures Register(s, lin[..p]) == None
  {
    hide Inv;
    forall q | 0 <= q < p
      ensures !Writes(s.ops[lin[q]])
    {
      assert Before(s, NO_TIMES, lin[q], lin[p]) && Effective(s, lin[q], key);
      if Writes(s.ops[lin[q]]) {
        PublishedRankIsPositive(place, s, lin[q]);
      }
    }
    RegisterIsEmpty(s, lin[..p]);
  }

  /** A call that saw a published revision follows its create, with none that counts in between. */
  lemma SeenBefore(s: State, key: Key, lin: seq<nat>, p: nat, w: nat)
    requires DistinctRevisions(s) && IsInOrder(s, key, lin) && p < |lin| && !Writes(s.ops[lin[p]])
    requires IsPublisher(s, key, Rank(s.ops[lin[p]]), w)
    ensures Register(s, lin[..p]) == Some(s.ops[w])
  {
    hide Register;
    var m := PlaceOf(s, key, lin, w);
    BeforeMeansSooner(s, NO_TIMES, lin, m, p);
    forall q | m < q < p
      ensures !Writes(s.ops[lin[q]])
    {
      assert Before(s, NO_TIMES, lin[m], lin[q]) && Before(s, NO_TIMES, lin[q], lin[p]) && Effective(s, lin[q], key);
    }
    RegisterIs(s, lin[..p], m);
  }

  // ---------------------------------------------------------------- reads

  /** A read returned the value of the one published create of its revision and key. */
  lemma ReadsItsWriter(place: Placement, s: State, r: nat) returns (w: nat)
    requires Inv(place, s) && DistinctRevisions(s)
    requires r < |s.ops| && s.ops[r].Read? && s.ops[r].rphase.GotValue?
    ensures IsPublisher(s, s.ops[r].key, s.ops[r].found.main, w) && s.ops[w].value == s.ops[r].result
  {
    var op := s.ops[r];
    assert OpOk(place, s, op);
    hide Inv, OpOk;
    var v :| IsWriter(s, op.found.main, op.result, v);
    w :| IsPublisher(s, op.key, op.found.main, w);
    SameRevSameOp(s, v, w);
  }

  lemma ReadIsExplained(place: Placement, s: State, key: Key, lin: seq<nat>, p: nat)
    requires Inv(place, s) && DistinctRevisions(s) && IsInOrder(s, key, lin) && p < |lin|
    requires s.ops[lin[p]].Read?
    ensures ReadFits(s.ops[lin[p]], Register(s, lin[..p]))
  {
    assert Effective(s, lin[p], key);
    hide Inv, Register, IsInOrder, DistinctRevisions;
    if s.ops[lin[p]].rphase.Missing? {
      NothingBefore(place, s, key, lin, p);
    } else {
      var w := ReadsItsWriter(place, s, lin[p]);
      SeenBefore(s, key, lin, p, w);
    }
  }

  lemma InvariantIsRegister(place: Placement, s: State, key: Key, lin: seq<nat>)
    requires Inv(place, s) && DistinctRevisions(s) && IsInOrder(s, key, lin)
    ensures IsRegisterOrder(s, key, lin)
  {
    hide Inv, DistinctRevisions, Before;
    InOrderIsOrder(place, s, key, lin);
    forall p | 0 <= p < |lin| && s.ops[lin[p]].Read?
      ensures ReadFits(s.ops[lin[p]], Register(s, lin[..p]))
    {
      ReadIsExplained(place, s, key, lin, p);
    }
  }

  // ---------------------------------------------------------------- conditional creates

  /** A published conditional create of the key. */
  ghost predicate IsUpdate(s: State, key: Key, u: int) {
    0 <= u < |s.ops| && s.ops[u].Write? && s.ops[u].wphase.Published? && s.ops[u].key == key && s.ops[u].assumed.Some?
  }

  ghost predicate IsBetween(s: State, key: Key, low: int, high: int, w: int) {
    && 0 <= w < |s.ops| && s.ops[w].Write? && s.ops[w].wphase.Published? && s.ops[w].key == key
    && low < s.ops[w].rev < high
  }

  /** Each accepted conditional create is the next published revision after the one it assumed. */
  ghost predicate UpdatesAreNext(s: State, key: Key) {
    forall u :: IsUpdate(s, key, u) ==>
      && s.ops[u].assumed.value < s.ops[u].rev
      && forall w :: !IsBetween(s, key, s.ops[u].assumed.value, s.ops[u].rev, w)
  }

  /** A refusal is always explained: it saw another revision, or none. */
  lemma RefusalIsExplained(place: Placement, s: State, key: Key, lin: seq<nat>, p: nat)
    requires Inv(place, s) && DistinctRevisions(s) && IsInOrder(s, key, lin) && p < |lin|
    requires s.ops[lin[p]].Write? && s.ops[lin[p]].wphase.Refused?
    ensures ConditionFits(s.ops[lin[p]], Register(s, lin[..p]))
  {
    var op := s.ops[lin[p]];
    assert OpOk(place, s, op) && Effective(s, lin[p], key);
    hide Inv, Register, IsInOrder, DistinctRevisions, OpOk;
    if op.seen == 0 {
      NothingBefore(place, s, key, lin, p);
    } else {
      var w :| IsPublisher(s, op.key, op.seen, w);
      SeenBefore(s, key, lin, p, w);
    }
  }

  /** The create of the assumed revision, if it comes before and nothing was published between. */
  lemma UpdateIsExplained(place: Placement, s: State, key: Key, lin: seq<nat>, p: nat)
    requires Inv(place, s) && DistinctRevisions(s) && IsInOrder(s, key, lin) && p < |lin|
    requires UpdatesAreNext(s, key) && IsUpdate(s, key, lin[p])
    ensures ConditionFits(s.ops[lin[p]], Register(s, lin[..p]))
  {
    hide Inv, Register, UpdatesAreNext, DistinctRevisions, IsInOrder;
    var w := AssumedPublisher(place, s, key, lin[p]);
    NextOf(s, key, lin[p]);
    NextFollows(s, key, lin, p, w);
  }

  lemma AssumedPublisher(place: Placement, s: State, key: Key, u: nat) returns (w: nat)
    requires Inv(place, s) && IsUpdate(s, key, u)
    ensures IsPublisher(s, key, s.ops[u].assumed.value, w)
  {
    assert OpOk(place, s, s.ops[u]);
    w :| IsPublisher(s, key, s.ops[u].assumed.value, w);
  }

  /** A create with nothing published between the two finds the other in the register. */
  lemma NextFollows(s: State, key: Key, lin: seq<nat>, p: nat, w: nat)
    requires DistinctRevisions(s) && IsInOrder(s, key, lin) && p < |lin| && w < |s.ops| && Writes(s.ops[lin[p]])
    requires Effective(s, w, key) && Writes(s.ops[w]) && s.ops[w].rev < s.ops[lin[p]].rev
    requires forall x :: !IsBetween(s, key, s.ops[w].rev, s.ops[lin[p]].rev, x)
    ensures Register(s, lin[..p]) == Some(s.ops[w])
  {
    hide Register;
    var m := PlaceOf(s, key, lin, w);
    assert Effective(s, lin[p], key);
    BeforeMeansSooner(s, NO_TIMES, lin, m, p);
    forall q | m < q < p
      ensures !Writes(s.ops[lin[q]])
    {
      assert Before(s, NO_TIMES, lin[m], lin[q]) && Before(s, NO_TIMES, lin[q], lin[p]) && Effective(s, lin[q], key);
      if Writes(s.ops[lin[q]]) {
        BetweenRevisions(s, key, lin[m], lin[q], lin[p]);
      }
    }
    RegisterIs(s, lin[..p], m);
  }

  lemma NextOf(s: State, key: Key, u: int)
    requires UpdatesAreNext(s, key) && IsUpdate(s, key, u)
    ensures s.ops[u].assumed.value < s.ops[u].rev
    ensures forall w :: !IsBetween(s, key, s.ops[u].assumed.value, s.ops[u].rev, w)
  {
  }

  /** A create in the order strictly between two others has a revision between theirs. */
  lemma BetweenRevisions(s: State, key: Key, i: nat, q: nat, j: nat)
    requires DistinctRevisions(s) && i < |s.ops| && q < |s.ops| && j < |s.ops|
    requires Effective(s, i, key) && Effective(s, q, key) && Effective(s, j, key)
    requires Writes(s.ops[i]) && Writes(s.ops[q]) && Writes(s.ops[j])
    requires Before(s, NO_TIMES, i, q) && Before(s, NO_TIMES, q, j)
    ensures IsBetween(s, key, s.ops[i].rev, s.ops[j].rev, q)
  {
  }

  lemma ConditionsAreExplained(place: Placement, s: State, key: Key, lin: seq<nat>)
    requires Inv(place, s) && DistinctRevisions(s) && IsInOrder(s, key, lin) && UpdatesAreNext(s, key)
    ensures forall p :: 0 <= p < |lin| && s.ops[lin[p]].Write? ==> ConditionFits(s.ops[lin[p]], Register(s, lin[..p]))
  {
    forall p | 0 <= p < |lin| && s.ops[lin[p]].Write?
      ensures ConditionFits(s.ops[lin[p]], Register(s, lin[..p]))
    {
      assert Effective(s, lin[p], key);
      hide Inv, DistinctRevisions, IsInOrder, UpdatesAreNext, Register;
      if s.ops[lin[p]].wphase.Refused? {
        RefusalIsExplained(place, s, key, lin, p);
      } else if s.ops[lin[p]].assumed.Some? {
        UpdateIsExplained(place, s, key, lin, p);
      }
    }
  }

  /** Conversely, what lies between the assumed revision and its own would be in the register. */
  lemma ExplainedIsNext(s: State, key: Key, lin: seq<nat>, p: nat)
    requires DistinctRevisions(s) && IsInOrder(s, key, lin) && p < |lin| && IsUpdate(s, key, lin[p])
    requires ConditionFits(s.ops[lin[p]], Register(s, lin[..p]))
    ensures s.ops[lin[p]].assumed.value < s.ops[lin[p]].rev
    ensures forall w :: !IsBetween(s, key, s.ops[lin[p]].assumed.value, s.ops[lin[p]].rev, w)
  {
    var op := s.ops[lin[p]];
    var m := RegisterFrom(s, lin[..p]);
    hide Register, DistinctRevisions;
    assert Before(s, NO_TIMES, lin[m], lin[p]) && Effective(s, lin[m], key);
    assert s.ops[lin[m]].rev == op.assumed.value;
    StrictlyBefore(s, key, lin[m], lin[p]);
    forall w | IsBetween(s, key, op.assumed.value, op.rev, w)
      ensures false
    {
      var q := PlaceOf(s, key, lin, w);
      BeforeMeansSooner(s, NO_TIMES, lin, m, q);
      BeforeMeansSooner(s, NO_TIMES, lin, q, p);
    }
  }

  lemma StrictlyBefore(s: State, key: Key, i: nat, j: nat)
    requires DistinctRevisions(s) && i < |s.ops| && j < |s.ops| && Before(s, NO_TIMES, i, j)
    requires Effective(s, i, key) && Effective(s, j, key) && Writes(s.ops[i]) && Writes(s.ops[j])
    ensures s.ops[i].rev < s.ops[j].rev
  {
  }

  // ---------------------------------------------------------------- the theorems

  /** The order by revision is a linearization exactly when every accepted conditional create is
      the next published revision after the one it assumed. */
  lemma RevisionOrderIsExact(place: Placement, s: State, key: Key)
    requires Inv(place, s) && DistinctRevisions(s)
    ensures IsRegisterOrder(s, key, RevisionOrder(s, key))
    ensures IsLinearization(s, key, RevisionOrder(s, key)) <==> UpdatesAreNext(s, key)
  {
    hide Inv, DistinctRevisions, RevisionOrder, IsInOrder, IsRegisterOrder, ConditionFits, Register;
    var lin := RevisionOrder(s, key);
    InvariantIsRegister(place, s, key, lin);
    if UpdatesAreNext(s, key) {
      ConditionsAreExplained(place, s, key, lin);
    }
    if IsLinearization(s, key, lin) {
      forall u | IsUpdate(s, key, u)
        ensures s.ops[u].assumed.value < s.ops[u].rev
        ensures forall w :: !IsBetween(s, key, s.ops[u].assumed.value, s.ops[u].rev, w)
      {
        var p := PlaceOf(s, key, lin, u);
        ExplainedIsNext(s, key, lin, p);
      }
    }
  }

  lemma PlaceOf(s: State, key: Key, lin: seq<nat>, u: nat) returns (p: nat)
    requires IsInOrder(s, key, lin) && u < |s.ops| && Effective(s, u, key)
    ensures p < |lin| && lin[p] == u
  {
    assert u in lin;
    p :| 0 <= p < |lin| && lin[p] == u;
  }

  /** Any interleaving, any failures of stores, any key: reads are those of a register that creates,
      conditional or not, write to. */
  lemma EveryRunIsRegister(place: Placement, steps: seq<Step>, key: Key)
    requires RunOf(place, steps).Some? && DistinctRevisions(RunOf(place, steps).value)
    ensures IsRegister(RunOf(place, steps).value, key)
  {
    hide *;
    RunKeeps(place, steps);
    RevisionOrderIsExact(place, RunOf(place, steps).value, key);
    RegisterExists(RunOf(place, steps).value, key, RevisionOrder(RunOf(place, steps).value, key));
  }

  /** With conditional creates explained as well, where each is the next after what it assumed. */
  lemma EveryRunIsLinearizable(place: Placement, steps: seq<Step>, key: Key)
    requires RunOf(place, steps).Some? && DistinctRevisions(RunOf(place, steps).value)
    requires UpdatesAreNext(RunOf(place, steps).value, key)
    ensures Linearizable(RunOf(place, steps).value, key)
  {
    hide *;
    RunKeeps(place, steps);
    RevisionOrderIsExact(place, RunOf(place, steps).value, key);
    LinearizationExists(RunOf(place, steps).value, key, RevisionOrder(RunOf(place, steps).value, key));
  }

  /** Which holds for every key that has only unconditional creates. */
  ghost predicate Unconditional(s: State, key: Key) {
    forall i :: 0 <= i < |s.ops| && s.ops[i].Write? && s.ops[i].key == key ==> s.ops[i].assumed.None?
  }

  lemma UnconditionalIsNext(s: State, key: Key)
    requires Unconditional(s, key)
    ensures UpdatesAreNext(s, key)
  {
  }

  lemma RegisterExists(s: State, key: Key, lin: seq<nat>)
    requires IsRegisterOrder(s, key, lin)
    ensures IsRegister(s, key)
  {
  }

  lemma LinearizationExists(s: State, key: Key, lin: seq<nat>)
    requires IsLinearization(s, key, lin)
    ensures Linearizable(s, key)
  {
  }

  /** As long as no put on a sync store failed and revisions have a first sync store, no read fails. */
  lemma NoFailuresNoErrors(place: Placement, steps: seq<Step>, i: nat)
    requires RunOf(place, steps).Some?
    requires var s := RunOf(place, steps).value;
             && !s.failed && i < |s.ops| && s.ops[i].Read?
             && forall main :: 1 <= main <= s.counter ==>
                  SyncNodes(place(main)) != [] && SyncNodes(place(main))[0] != ""
    ensures !RunOf(place, steps).value.ops[i].rphase.GotError?
  {
    RunKeeps(place, steps);
    var s := RunOf(place, steps).value;
    assert OpOk(place, s, s.ops[i]);
  }
}

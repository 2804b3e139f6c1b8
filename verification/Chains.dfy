/**
 Chain replication (pkg/consistent/chain) as interleaved steps: any number of writes in flight,
 each putting its pair on the head and then on one node after another. A linearizable write does
 this before it answers, a sequential one answers after the head and goes on in the background;
 either way its puts are the same steps. A put may fail, which ends the write.
 */
module Chains {
  import opened Options


  type Db = map<string, string>

  datatype Request = Request(key: string, val: string)

  /** Where a write stands: the number of nodes it has been put on, and whether a put failed. */
  datatype Progress = Progress(pos: nat, failed: bool)

  datatype State = State(dbs: seq<Db>, writes: seq<Progress>)

  /** The next put of write i, and whether it succeeds. */
  datatype Step = Put(i: nat, ok: bool)

  function Start(n: nat, reqs: seq<Request>): State {
    State(seq(n, _ => map[]), seq(|reqs|, _ => Progress(0, false)))
  }

  predicate Enabled(s: State, st: Step) {
    st.i < |s.writes| && !s.writes[st.i].failed && s.writes[st.i].pos < |s.dbs|
  }

  function Do(reqs: seq<Request>, s: State, st: Step): State
    requires Enabled(s, st) && |reqs| == |s.writes|
  {
    var i, w := st.i, s.writes[st.i];
    if st.ok then
      State(s.dbs[w.pos := s.dbs[w.pos][reqs[i].key := reqs[i].val]], s.writes[i := Progress(w.pos + 1, false)])
    else s.(writes := s.writes[i := w.(failed := true)])
  }

  /** The state of n nodes after a run that serves the requests, if all its steps were enabled. */
  function RunOf(n: nat, reqs: seq<Request>, steps: seq<Step>): (r: Option<State>)
    ensures r.Some? ==> |r.value.dbs| == n && |r.value.writes| == |reqs|
  {
    if steps == [] then Some(Start(n, reqs))
    else
      match RunOf(n, reqs, steps[..|steps| - 1])
      case None => None
      case Some(s) => if Enabled(s, steps[|steps| - 1]) then Some(Do(reqs, s, steps[|steps| - 1])) else None
  }

  ghost predicate Within(later: Db, earlier: Db) {
    forall key :: key in later ==> key in earlier && earlier[key] == later[key]
  }

  /** What a node holds, every node before it holds too, with the same value. */
  ghost predicate PrefixHolds(s: State) {
    forall j, k :: 0 <= j < k < |s.dbs| ==> Within(s.dbs[k], s.dbs[j])
  }

  /** No two requests give one key different values; keys that are revisions are written once. */
  ghost predicate Consistent(reqs: seq<Request>) {
    forall i, j :: 0 <= i < |reqs| && 0 <= j < |reqs| && reqs[i].key == reqs[j].key ==> reqs[i].val == reqs[j].val
  }

  // ---------------------------------------------------------------- what the nodes hold

  ghost predicate PutBy(reqs: seq<Request>, s: State, j: nat, key: string, i: int) {
    0 <= i < |reqs| == |s.writes| && reqs[i].key == key && s.writes[i].pos > j
  }

  /** A node holds exactly the keys of the writes that have got past it, with their values. */
  ghost predicate Exact(reqs: seq<Request>, s: State) {
    && |s.writes| == |reqs|
    && (forall i :: 0 <= i < |reqs| ==> s.writes[i].pos <= |s.dbs|)
    && (forall j, key :: 0 <= j < |s.dbs| && key in s.dbs[j] ==> exists i :: PutBy(reqs, s, j, key, i))
    && (forall j, i :: 0 <= j < |s.dbs| && 0 <= i < |reqs| && s.writes[i].pos > j ==>
          reqs[i].key in s.dbs[j] && s.dbs[j][reqs[i].key] == reqs[i].val)
  }

  lemma StepIsExact(reqs: seq<Request>, s: State, st: Step)
    requires Consistent(reqs) && Exact(reqs, s) && Enabled(s, st)
    ensures Exact(reqs, Do(reqs, s, st))
  {
    StepKeepsOrigin(reqs, s, st);
    StepKeepsPuts(reqs, s, st);
  }

  /** Whatever a node holds after a step, some write has put there. */
  lemma StepKeepsOrigin(reqs: seq<Request>, s: State, st: Step)
    requires Exact(reqs, s) && Enabled(s, st)
    ensures var s' := Do(reqs, s, st);
            forall j, key :: 0 <= j < |s'.dbs| && key in s'.dbs[j] ==> exists i :: PutBy(reqs, s', j, key, i)
  {
    var s', c := Do(reqs, s, st), st.i;
    forall j, key | 0 <= j < |s'.dbs| && key in s'.dbs[j]
      ensures exists i :: PutBy(reqs, s', j, key, i)
    {
      if key in s.dbs[j] {
        var i :| PutBy(reqs, s, j, key, i);
        assert PutBy(reqs, s', j, key, i);
      } else {
        assert PutBy(reqs, s', j, key, c);
      }
    }
  }

  /** What a write has put on a node stays, as writes to a key agree. */
  lemma StepKeepsPuts(reqs: seq<Request>, s: State, st: Step)
    requires Consistent(reqs) && Exact(reqs, s) && Enabled(s, st)
    ensures var s' := Do(reqs, s, st);
            forall j, i :: 0 <= j < |s'.dbs| && 0 <= i < |reqs| && s'.writes[i].pos > j ==>
              reqs[i].key in s'.dbs[j] && s'.dbs[j][reqs[i].key] == reqs[i].val
  {
    var s', c := Do(reqs, s, st), st.i;
    forall j, i | 0 <= j < |s'.dbs| && 0 <= i < |reqs| && s'.writes[i].pos > j
      ensures reqs[i].key in s'.dbs[j] && s'.dbs[j][reqs[i].key] == reqs[i].val
    {
      assert s.writes[i].pos > j || (i == c && j == s.writes[c].pos);
    }
  }

  lemma {:induction false} RunIsExact(n: nat, reqs: seq<Request>, steps: seq<Step>)
    requires Consistent(reqs) && RunOf(n, reqs, steps).Some?
    ensures Exact(reqs, RunOf(n, reqs, steps).value)
  {
    if steps != [] {
      RunIsExact(n, reqs, steps[..|steps| - 1]);
      StepIsExact(reqs, RunOf(n, reqs, steps[..|steps| - 1]).value, steps[|steps| - 1]);
    }
  }

  // ---------------------------------------------------------------- the prefix invariant

  lemma ExactHasPrefix(reqs: seq<Request>, s: State)
    requires Exact(reqs, s)
    ensures PrefixHolds(s)
  {
  }

  lemma RunExtends(n: nat, reqs: seq<Request>, steps: seq<Step>, s: State, st: Step)
    requires RunOf(n, reqs, steps) == Some(s) && Enabled(s, st)
    ensures RunOf(n, reqs, steps + [st]) == Some(Do(reqs, s, st))
  {
    assert (steps + [st])[..|steps|] == steps;
  }

  /** A second value for a key: once the first is on two nodes, the head runs away from the next. */
  lemma ConflictBreaksPrefix(n: nat, reqs: seq<Request>, i: nat, j: nat) returns (steps: seq<Step>)
    requires n >= 2 && i < |reqs| && j < |reqs| && reqs[i].key == reqs[j].key && reqs[i].val != reqs[j].val
    ensures RunOf(n, reqs, steps).Some? && !PrefixHolds(RunOf(n, reqs, steps).value)
  {
    var s0 := Start(n, reqs);
    var s1 := Do(reqs, s0, Put(i, true));
    RunExtends(n, reqs, [], s0, Put(i, true));
    var s2 := Do(reqs, s1, Put(i, true));
    RunExtends(n, reqs, [] + [Put(i, true)], s1, Put(i, true));
    var s := Do(reqs, s2, Put(j, true));
    steps := [] + [Put(i, true)] + [Put(i, true)] + [Put(j, true)];
    RunExtends(n, reqs, [] + [Put(i, true)] + [Put(i, true)], s2, Put(j, true));
    assert s.dbs[1][reqs[i].key] == reqs[i].val && s.dbs[0][reqs[i].key] == reqs[j].val;
    assert !Within(s.dbs[1], s.dbs[0]);
  }

  /** The invariant in every state of every run of the requests. */
  ghost predicate AlwaysPrefix(n: nat, reqs: seq<Request>) {
    forall steps :: RunOf(n, reqs, steps).Some? ==> PrefixHolds(RunOf(n, reqs, steps).value)
  }

  /** On two or more nodes, every run keeps the prefix invariant exactly when the requests agree. */
  lemma PrefixIsExact(n: nat, reqs: seq<Request>)
    requires n >= 2
    ensures AlwaysPrefix(n, reqs) <==> Consistent(reqs)
  {
    if Consistent(reqs) {
      forall steps | RunOf(n, reqs, steps).Some?
        ensures PrefixHolds(RunOf(n, reqs, steps).value)
      {
        RunIsExact(n, reqs, steps);
        ExactHasPrefix(reqs, RunOf(n, reqs, steps).value);
      }
    } else {
      var i, j :| 0 <= i < |reqs| && 0 <= j < |reqs| && reqs[i].key == reqs[j].key && reqs[i].val != reqs[j].val;
      var steps := ConflictBreaksPrefix(n, reqs, i, j);
    }
  }

  // ---------------------------------------------------------------- what an answer means

  /** A linearizable write answers nil when it got past the tail, and an error when a put failed. */
  predicate AnswersNil(s: State, i: nat)
    requires i < |s.writes|
  {
    s.writes[i].pos == |s.dbs|
  }

  /** nil means that every node, the tail included, holds the pair. */
  lemma NilMeansEverywhere(n: nat, reqs: seq<Request>, steps: seq<Step>, i: nat)
    requires Consistent(reqs) && RunOf(n, reqs, steps).Some? && i < |reqs|
    requires AnswersNil(RunOf(n, reqs, steps).value, i)
    ensures var s := RunOf(n, reqs, steps).value;
            forall j :: 0 <= j < n ==> reqs[i].key in s.dbs[j] && s.dbs[j][reqs[i].key] == reqs[i].val
  {
    RunIsExact(n, reqs, steps);
  }

  /** A write that failed at a node left that node and all after it without its key. */
  lemma ErrorLeavesTheRest(n: nat, reqs: seq<Request>, steps: seq<Step>, i: nat)
    requires Consistent(reqs) && RunOf(n, reqs, steps).Some? && i < |reqs|
    requires forall j :: 0 <= j < |reqs| && j != i ==> reqs[j].key != reqs[i].key
    requires RunOf(n, reqs, steps).value.writes[i].failed
    ensures var s := RunOf(n, reqs, steps).value;
            && s.writes[i].pos < n
            && forall j :: 0 <= j < n ==> (reqs[i].key in s.dbs[j] <==> j < s.writes[i].pos)
  {
    var s := RunOf(n, reqs, steps).value;
    RunIsExact(n, reqs, steps);
    FailedIsShort(n, reqs, steps, i);
    forall j | 0 <= j < n
      ensures reqs[i].key in s.dbs[j] <==> j < s.writes[i].pos
    {
      assert reqs[i].key in s.dbs[j] ==> exists w :: PutBy(reqs, s, j, reqs[i].key, w);
    }
  }

  lemma {:induction false} FailedIsShort(n: nat, reqs: seq<Request>, steps: seq<Step>, i: nat)
    requires RunOf(n, reqs, steps).Some? && i < |reqs|
    ensures RunOf(n, reqs, steps).value.writes[i].failed ==> RunOf(n, reqs, steps).value.writes[i].pos < n
  {
    if steps != [] {
      FailedIsShort(n, reqs, steps[..|steps| - 1], i);
    }
  }

  /** Once every write has got past the tail, all replicas are equal. */
  lemma QuiescenceMakesEqual(n: nat, reqs: seq<Request>, steps: seq<Step>)
    requires Consistent(reqs) && RunOf(n, reqs, steps).Some?
    requires forall i :: 0 <= i < |reqs| ==> RunOf(n, reqs, steps).value.writes[i].pos == n
    ensures var s := RunOf(n, reqs, steps).value;
            forall j, k :: 0 <= j < n && 0 <= k < n ==> s.dbs[j] == s.dbs[k]
  {
    var s := RunOf(n, reqs, steps).value;
    RunIsExact(n, reqs, steps);
    forall j, k | 0 <= j < n && 0 <= k < n
      ensures s.dbs[j] == s.dbs[k]
    {
      SameContents(reqs, s, j, k);
      SameContents(reqs, s, k, j);
    }
  }

  lemma SameContents(reqs: seq<Request>, s: State, j: nat, k: nat)
    requires Exact(reqs, s) && j < |s.dbs| && k < |s.dbs|
    requires forall i :: 0 <= i < |reqs| ==> s.writes[i].pos == |s.dbs|
    ensures Within(s.dbs[j], s.dbs[k])
  {
  }

  /** What a read of a node returns is what a write that got past the node brought. */
  lemma ReadsAreWritten(n: nat, reqs: seq<Request>, steps: seq<Step>, j: nat, key: string)
    requires Consistent(reqs) && RunOf(n, reqs, steps).Some? && j < n
    ensures var s := RunOf(n, reqs, steps).value;
            && (key in s.dbs[j] <==> exists i :: PutBy(reqs, s, j, key, i))
            && (forall i :: PutBy(reqs, s, j, key, i) ==> s.dbs[j][key] == reqs[i].val)
  {
    RunIsExact(n, reqs, steps);
  }

  // ---------------------------------------------------------------- one write on its own

  /** The nodes after one write that was put on the first `stop` of them. */
  function WriteUpTo(dbs: seq<Db>, key: string, val: string, stop: nat): (r: seq<Db>)
    requires stop <= |dbs|
    ensures |r| == |dbs|
    ensures forall j :: 0 <= j < |dbs| ==> r[j] == if j < stop then dbs[j][key := val] else dbs[j]
  {
    seq(|dbs|, j requires 0 <= j < |dbs| => if j < stop then dbs[j][key := val] else dbs[j])
  }

  /** A write with nothing else in flight is a run of its own puts, up to the first that fails. */
  lemma {:induction false} LoneWrite(reqs: seq<Request>, s: State, i: nat, stop: nat) returns (s': State)
    requires i < |reqs| == |s.writes| && s.writes[i] == Progress(0, false) && stop <= |s.dbs|
    ensures s'.dbs == WriteUpTo(s.dbs, reqs[i].key, reqs[i].val, stop)
    ensures s'.writes == s.writes[i := Progress(stop, false)]
    ensures RunPuts(reqs, s, i, stop) == Some(s')
    decreases stop
  {
    if stop == 0 {
      s' := s;
      assert WriteUpTo(s.dbs, reqs[i].key, reqs[i].val, 0) == s.dbs;
    } else {
      var s0 := LoneWrite(reqs, s, i, stop - 1);
      s' := Do(reqs, s0, Put(i, true));
    }
  }

  /** `count` successful puts of write i, one after another. */
  function RunPuts(reqs: seq<Request>, s: State, i: nat, count: nat): (r: Option<State>)
    ensures r.Some? ==> |r.value.writes| == |s.writes|
  {
    if count == 0 then Some(s)
    else
      match RunPuts(reqs, s, i, count - 1)
      case None => None
      case Some(s0) =>
        if Enabled(s0, Put(i, true)) && |reqs| == |s0.writes| then Some(Do(reqs, s0, Put(i, true))) else None
  }
}

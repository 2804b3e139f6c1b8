/**
 The create and read protocol of the service (cmd/http/main.go) over the sync-async piping, as
 interleaved steps of any number of clients.

 createKV increments the global counter, then loads it, puts the value on every sync store,
 and only then publishes the revision in the index, by Put or, when the client named the
 revision it builds on, by Update. Async stores are written at any time once the revision is
 known, even after the reply. getKV looks up the latest revision and then reads its first sync
 store. A put on a store may fail, which the source only records.

 The parameter `place` is the node list that the hashing manager gives each revision.
 */
module Protocol {
  import opened Bytes
  import opened Options
  import opened Revisions
  import opened KeyStates
  import opened Histories
  import opened NodeLists

  type Placement = int -> seq<string>

  /** Refused by the index for its assumed revision; Aborted before anything was put. */
  datatype WritePhase = Asked | Incremented | Drawn | Published | Refused | Aborted

  datatype ReadPhase = Asking | Missing | LookedUp | GotValue | GotError

  /** A call by a client. `inv` and `resp` are the moments it began and was answered; `own` is what
      a create incremented the counter to, `rev` what it then loaded, `seen` the latest main number
      in the index when it was refused. */
  datatype Op =
    | Write(key: Key, value: string, assumed: Option<int>, inv: nat, resp: Option<nat>,
            wphase: WritePhase, own: nat, rev: nat, done: set<nat>, seen: int)
    | Read(key: Key, inv: nat, resp: Option<nat>, rphase: ReadPhase, found: Revision, result: string)

  /** `failed` remembers whether any put on a sync store has failed. */
  datatype State = State(
    clock: nat, counter: nat, stores: map<string, map<int, string>>,
    index: map<Key, KeyState>, ops: seq<Op>, failed: bool)

  const INIT := State(0, 0, map[], map[], [], false)

  datatype Step =
    | BeginWrite(key: Key, value: string, assumed: Option<int>)
    | BeginRead(key: Key)
    | Increment(i: nat)
    | Load(i: nat)
    | PutSync(i: nat, n: nat, ok: bool)
    | PutAsync(i: nat, name: string)
    | Publish(i: nat)
    | Abort(i: nat)
    | LookUp(i: nat)
    | Fetch(i: nat)
    | Respond(i: nat)

  // ---------------------------------------------------------------- steps

  function SyncNodes(nodes: seq<string>): seq<string> {
    match SplitStores(nodes)
    case None => []
    case Some(stores) => stores.sync
  }

  function AsyncNodes(nodes: seq<string>): seq<string> {
    match SplitStores(nodes)
    case None => []
    case Some(stores) => stores.async
  }

  predicate HasRev(op: Op) {
    op.Write? && !op.wphase.Asked? && !op.wphase.Incremented?
  }

  predicate Finished(op: Op) {
    if op.Write? then op.wphase.Published? || op.wphase.Refused? || op.wphase.Aborted?
    else op.rphase.Missing? || op.rphase.GotValue? || op.rphase.GotError?
  }

  function StateOf(s: State, key: Key): KeyState {
    if key in s.index then s.index[key] else FRESH
  }

  function RevisionAt(place: Placement, main: int): Revision {
    Revision(main, 0, place(main))
  }

  function Stored(s: State, name: string, main: int): Option<string> {
    if name in s.stores && main in s.stores[name] then Some(s.stores[name][main]) else None
  }

  function Store(s: State, name: string, main: int, value: string): State {
    var db := if name in s.stores then s.stores[name] else map[];
    s.(stores := s.stores[name := db[main := value]])
  }

  function SetOp(s: State, i: nat, op: Op): State
    requires i < |s.ops|
  {
    s.(ops := s.ops[i := op])
  }

  /** The newest main number that the index shows for a key; 0 for none. */
  function Latest(s: State, key: Key): int {
    if key in s.index then s.index[key].modified.main else 0
  }

  /** The index call that ends createKV. */
  function PublishEvent(place: Placement, s: State, op: Op): Event
    requires op.Write?
  {
    Event(if op.assumed.None? then PutKind else UpdateKind(op.assumed.value), RevisionAt(place, op.rev), s.counter + 1)
  }

  predicate Enabled(place: Placement, s: State, st: Step) {
    match st
    case BeginWrite(_, _, _) => true
    case BeginRead(_) => true
    case Increment(i) => i < |s.ops| && s.ops[i].Write? && s.ops[i].wphase.Asked?
    case Load(i) => i < |s.ops| && s.ops[i].Write? && s.ops[i].wphase.Incremented?
    case PutSync(i, n, _) =>
      i < |s.ops| && s.ops[i].Write? && s.ops[i].wphase.Drawn? &&
      n < |SyncNodes(place(s.ops[i].rev))| && n !in s.ops[i].done
    case PutAsync(i, name) => i < |s.ops| && HasRev(s.ops[i]) && name != "" && name in AsyncNodes(place(s.ops[i].rev))
    case Publish(i) =>
      i < |s.ops| && s.ops[i].Write? && s.ops[i].wphase.Drawn? && place(s.ops[i].rev) != [] &&
      forall n :: 0 <= n < |SyncNodes(place(s.ops[i].rev))| ==> n in s.ops[i].done
    case Abort(i) => i < |s.ops| && s.ops[i].Write? && s.ops[i].wphase.Drawn? && s.ops[i].done == {}
    case LookUp(i) => i < |s.ops| && s.ops[i].Read? && s.ops[i].rphase.Asking?
    case Fetch(i) => i < |s.ops| && s.ops[i].Read? && s.ops[i].rphase.LookedUp?
    case Respond(i) => i < |s.ops| && Finished(s.ops[i]) && s.ops[i].resp.None?
  }

  function DoPublish(place: Placement, s: State, i: nat): State
    requires Enabled(place, s, Publish(i))
  {
    var op := s.ops[i];
    var k, e := StateOf(s, op.key), PublishEvent(place, s, op);
    if Accepts(k, e) then
      SetOp(s, i, op.(wphase := Published)).(
        index := s.index[op.key := Apply(k, e)],
        counter := if Current(k) == [] then s.counter + 1 else s.counter)
    else SetOp(s, i, op.(wphase := Refused, seen := Latest(s, op.key)))
  }

  /** The first half of getKV: the index is asked for the latest revision. */
  function AfterLookUp(s: State, op: Op): Op
    requires op.Read?
  {
    if op.key !in s.index then op.(rphase := Missing)
    else
      match Get(s.index[op.key], s.index[op.key].modified.main)
      case Found(rev, _, _) => op.(rphase := LookedUp, found := rev)
      case _ => op.(rphase := Missing)
  }

  /** The second half: its first sync store is read. */
  function AfterFetch(s: State, op: Op): Op
    requires op.Read?
  {
    var sync := SyncNodes(op.found.nodes);
    match if sync == [] then None else Stored(s, sync[0], op.found.main)
    case Some(value) => op.(rphase := GotValue, result := value)
    case None => op.(rphase := GotError)
  }

  function DoPutSync(place: Placement, s: State, i: nat, n: nat, ok: bool): State
    requires Enabled(place, s, PutSync(i, n, ok))
  {
    var op := s.ops[i];
    var name := SyncNodes(place(op.rev))[n];
    var s' := SetOp(s, i, op.(done := op.done + {n}));
    if name == "" then s'
    else if ok then Store(s', name, op.rev, op.value)
    else s'.(failed := true)
  }

  function Do(place: Placement, s: State, st: Step): State
    requires Enabled(place, s, st)
  {
    match st
    case BeginWrite(key, value, assumed) =>
      s.(ops := s.ops + [Write(key, value, assumed, s.clock, None, Asked, 0, 0, {}, 0)], clock := s.clock + 1)
    case BeginRead(key) => s.(ops := s.ops + [Read(key, s.clock, None, Asking, ZERO, "")], clock := s.clock + 1)
    case Increment(i) => SetOp(s, i, s.ops[i].(wphase := Incremented, own := s.counter + 1)).(counter := s.counter + 1)
    case Load(i) => SetOp(s, i, s.ops[i].(wphase := Drawn, rev := s.counter))
    case PutSync(i, n, ok) => DoPutSync(place, s, i, n, ok)
    case PutAsync(i, name) => Store(s, name, s.ops[i].rev, s.ops[i].value)
    case Publish(i) => DoPublish(place, s, i)
    case Abort(i) => SetOp(s, i, s.ops[i].(wphase := Aborted))
    case LookUp(i) => SetOp(s, i, AfterLookUp(s, s.ops[i]))
    case Fetch(i) => SetOp(s, i, AfterFetch(s, s.ops[i]))
    case Respond(i) => SetOp(s, i, s.ops[i].(resp := Some(s.clock))).(clock := s.clock + 1)
  }

  /** The state after a run, if every step of it was enabled. */
  function RunOf(place: Placement, steps: seq<Step>): Option<State> {
    if steps == [] then Some(INIT)
    else
      match RunOf(place, steps[..|steps| - 1])
      case None => None
      case Some(s) => if Enabled(place, s, steps[|steps| - 1]) then Some(Do(place, s, steps[|steps| - 1])) else None
  }

  // ---------------------------------------------------------------- linearizability

  /** The first call was answered before the second began. */
  predicate Precedes(s: State, i: nat, j: nat)
    requires i < |s.ops| && j < |s.ops|
  {
    s.ops[i].resp.Some? && s.ops[i].resp.value < s.ops[j].inv
  }

  /** Creates that change the register. */
  predicate Writes(op: Op) {
    op.Write? && !op.wphase.Refused?
  }

  /** Calls that must be explained: published and refused creates, and answered reads that did not fail. */
  predicate Effective(s: State, i: nat, key: Key)
    requires i < |s.ops|
  {
    var op := s.ops[i];
    && op.key == key
    && if op.Write? then op.wphase.Published? || op.wphase.Refused?
       else op.resp.Some? && (op.rphase.Missing? || op.rphase.GotValue?)
  }

  /** A create still under way that has its revision may take effect as well. */
  predicate MayTakeEffect(s: State, i: nat, key: Key)
    requires i < |s.ops|
  {
    Effective(s, i, key) || (s.ops[i].key == key && s.ops[i].Write? && s.ops[i].wphase.Drawn?)
  }

  /** The register after the given calls: the last create that changed it. */
  function Register(s: State, lin: seq<nat>): Option<Op>
    requires forall p :: 0 <= p < |lin| ==> lin[p] < |s.ops|
  {
    if lin == [] then None
    else if Writes(s.ops[lin[|lin| - 1]]) then Some(s.ops[lin[|lin| - 1]])
    else Register(s, lin[..|lin| - 1])
  }

  predicate IsAt(register: Option<Op>, main: int) {
    register.Some? && register.value.Write? && register.value.rev == main
  }

  /** A read returns value and revision of the register, or that there is none. */
  predicate ReadFits(op: Op, register: Option<Op>)
    requires op.Read?
  {
    if op.rphase.GotValue? then IsAt(register, op.found.main) && register.value.value == op.result
    else register.None?
  }

  /** A conditional create succeeds on its assumed revision and is refused on any other. */
  predicate ConditionFits(op: Op, register: Option<Op>)
    requires op.Write?
  {
    op.assumed.Some? ==> (IsAt(register, op.assumed.value) <==> !op.wphase.Refused?)
  }

  /** One order of the calls on a key in real time, all the effective and answered ones among them. */
  ghost predicate IsOrder(s: State, key: Key, lin: seq<nat>) {
    && (forall p :: 0 <= p < |lin| ==> lin[p] < |s.ops| && MayTakeEffect(s, lin[p], key))
    && (forall p, q :: 0 <= p < q < |lin| ==> lin[p] != lin[q])
    && (forall i :: 0 <= i < |s.ops| && s.ops[i].resp.Some? && Effective(s, i, key) ==> i in lin)
    && (forall p, q :: 0 <= p < q < |lin| ==> !Precedes(s, lin[q], lin[p]))
  }

  /** The order explains what every reader saw. */
  ghost predicate IsRegisterOrder(s: State, key: Key, lin: seq<nat>) {
    && IsOrder(s, key, lin)
    && forall p :: 0 <= p < |lin| && s.ops[lin[p]].Read? ==> ReadFits(s.ops[lin[p]], Register(s, lin[..p]))
  }

  /** It also explains why each conditional create succeeded or was refused. */
  ghost predicate IsLinearization(s: State, key: Key, lin: seq<nat>) {
    && IsRegisterOrder(s, key, lin)
    && forall p :: 0 <= p < |lin| && s.ops[lin[p]].Write? ==> ConditionFits(s.ops[lin[p]], Register(s, lin[..p]))
  }

  /** The key behaves as a versioned register with creates as plain writes. */
  ghost predicate IsRegister(s: State, key: Key) {
    exists lin :: IsRegisterOrder(s, key, lin)
  }

  /** The key behaves as a versioned register with compare-and-swap. */
  ghost predicate Linearizable(s: State, key: Key) {
    exists lin :: IsLinearization(s, key, lin)
  }

  /** No two create calls loaded the same number from the counter. */
  ghost predicate DistinctRevisions(s: State) {
    forall i, j :: 0 <= i < j < |s.ops| && HasRev(s.ops[i]) && HasRev(s.ops[j]) ==> s.ops[i].rev != s.ops[j].rev
  }
}

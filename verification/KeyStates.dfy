/**
 The key index as a value: what put, tombstone, update, get and since of
 pkg/index/key_index.go do to the generations of one key.

 A put into an empty generation draws its `created` number from the global revision
 counter; the number drawn is the parameter `draw`.
 */
module KeyStates {
  import opened Revisions

  datatype Generation = Generation(ver: int, created: Revision, revs: seq<Revision>)

  datatype KeyState = KeyState(modified: Revision, generations: seq<Generation>)

  datatype GetResult =
    | Found(rev: Revision, created: Revision, ver: int)
    | NotFound
    | GetPanics

  datatype SinceResult = Listed(revs: seq<Revision>) | SincePanics

  const EMPTY_GENERATION := Generation(0, ZERO, [])

  /** The key index that the tree allocates before its first put. */
  const FRESH := KeyState(ZERO, [])

  /** The source's isEmpty, the condition under which get, since and tombstone panic. */
  predicate IsEmpty(k: KeyState) {
    |k.generations| == 1 && k.generations[0].revs == []
  }

  /** The revision list of the generation that the next put goes to. */
  function Current(k: KeyState): seq<Revision> {
    if k.generations == [] then [] else k.generations[|k.generations| - 1].revs
  }

  // ---------------------------------------------------------------- updates

  /** The generations that a put sees: the first put creates one. */
  function Opened(k: KeyState): (gens: seq<Generation>)
    ensures gens != []
  {
    if k.generations == [] then [EMPTY_GENERATION] else k.generations
  }

  /** A generation after one more revision; only one that is newer than all counts as a version. */
  function Grown(g: Generation, rev: Revision, newer: bool, draw: int): Generation {
    Generation(
      if newer then g.ver + 1 else g.ver,
      if g.revs == [] then Revision(draw, 0, []) else g.created,
      Insert(g.revs, rev))
  }

  function Put(k: KeyState, rev: Revision, draw: int): KeyState {
    var gens := Opened(k);
    var last := |gens| - 1;
    var newer := GreaterThan(rev, k.modified);
    KeyState(if newer then rev else k.modified, gens[last := Grown(gens[last], rev, newer, draw)])
  }

  /** Whether a tombstone is accepted: the current generation holds something. */
  predicate CanTombstone(k: KeyState) {
    Current(k) != []
  }

  function Tombstone(k: KeyState, main: int, sub: int, draw: int): KeyState {
    var k' := Put(k, Revision(main, sub, []), draw);
    k'.(generations := k'.generations + [EMPTY_GENERATION])
  }

  // ---------------------------------------------------------------- queries

  predicate Started(g: Generation, at: int) {
    g.revs != [] && g.revs[0].main <= at
  }

  /** The latest generation whose first revision is at or before `at`, or -1. */
  function LatestStarted(gens: seq<Generation>, at: int): (i: int)
    ensures -1 <= i < |gens|
    ensures i >= 0 ==> Started(gens[i], at)
    ensures forall j :: i < j < |gens| ==> !Started(gens[j], at)
  {
    if gens == [] then -1
    else if Started(gens[|gens| - 1], at) then |gens| - 1
    else LatestStarted(gens[..|gens| - 1], at)
  }

  /** The latest position whose main number is at or before `at`, or -1. */
  function LastAtOrBefore(revs: seq<Revision>, at: int): (n: int)
    ensures -1 <= n < |revs|
    ensures n >= 0 ==> revs[n].main <= at
    ensures forall j :: n < j < |revs| ==> revs[j].main > at
  {
    if revs == [] then -1
    else if revs[|revs| - 1].main <= at then |revs| - 1
    else LastAtOrBefore(revs[..|revs| - 1], at)
  }

  /** The position in the last generation is never a tombstone; elsewhere the final one is. */
  predicate IsClosing(k: KeyState, i: nat, n: int) {
    i < |k.generations| - 1 && n == |k.generations[i].revs| - 1
  }

  function Get(k: KeyState, at: int): GetResult {
    if IsEmpty(k) then GetPanics
    else
      var i := LatestStarted(k.generations, at);
      if i < 0 then NotFound
      else
        var g := k.generations[i];
        var n := LastAtOrBefore(g.revs, at);
        if n < 0 || IsClosing(k, i, n) then NotFound
        else Found(g.revs[n], g.created, g.ver - (|g.revs| - n - 1))
  }

  /** All revisions from the given generations, in storage order. */
  function Flatten(gens: seq<Generation>): seq<Revision> {
    if gens == [] then []
    else Flatten(gens[..|gens| - 1]) + gens[|gens| - 1].revs
  }

  /** The generation at which since starts to look. */
  function StartGeneration(gens: seq<Generation>, since: int): (gi: nat)
    requires gens != []
    ensures gi < |gens|
    ensures gi > 0 ==> gens[gi].revs != [] && GreaterThan(Revision(since, 0, []), gens[gi].created)
  {
    var gi := |gens| - 1;
    if gi == 0 then 0
    else if gens[gi].revs != [] && GreaterThan(Revision(since, 0, []), gens[gi].created) then gi
    else StartGeneration(gens[..gi], since)
  }

  /** One revision enters the answer of since: dropped, appended, or put in place of the last. */
  function Report(acc: SinceResult, since: int, r: Revision): SinceResult {
    match acc
    case SincePanics => SincePanics
    case Listed(revs) =>
      if GreaterThan(Revision(since, 0, []), r) then acc
      else if revs == [] then if r.main == 0 then SincePanics else Listed([r])
      else if revs[|revs| - 1].main == r.main then Listed(revs[..|revs| - 1] + [r])
      else Listed(revs + [r])
  }

  function ReportAll(acc: SinceResult, since: int, revs: seq<Revision>): SinceResult {
    if revs == [] then acc
    else Report(ReportAll(acc, since, revs[..|revs| - 1]), since, revs[|revs| - 1])
  }

  function Since(k: KeyState, since: int): SinceResult {
    if k.generations == [] || IsEmpty(k) then SincePanics
    else ReportAll(Listed([]), since, Flatten(k.generations[StartGeneration(k.generations, since)..]))
  }

  lemma {:induction false} ReportAllConcat(acc: SinceResult, since: int, a: seq<Revision>, b: seq<Revision>)
    ensures ReportAll(acc, since, a + b) == ReportAll(ReportAll(acc, since, a), since, b)
  {
    if b == [] {
      assert a + b == a;
    } else {
      assert (a + b)[..|a + b| - 1] == a + b[..|b| - 1];
      ReportAllConcat(acc, since, a, b[..|b| - 1]);
    }
  }

  /** A panic is final. */
  lemma {:induction false} PanicStays(since: int, revs: seq<Revision>)
    ensures ReportAll(SincePanics, since, revs) == SincePanics
  {
    if revs != [] {
      PanicStays(since, revs[..|revs| - 1]);
    }
  }

  lemma {:induction false} FlattenConcat(a: seq<Generation>, b: seq<Generation>)
    ensures Flatten(a + b) == Flatten(a) + Flatten(b)
  {
    if b == [] {
      assert a + b == a;
    } else {
      assert (a + b)[..|a + b| - 1] == a + b[..|b| - 1];
      FlattenConcat(a, b[..|b| - 1]);
    }
  }

  // ---------------------------------------------------------------- structure

  ghost predicate Holds(k: KeyState, r: Revision) {
    exists i :: 0 <= i < |k.generations| && r in k.generations[i].revs
  }

  /** What the loops rely on: sorted generations, and `modified` at least as new as everything. */
  ghost predicate Ordered(k: KeyState) {
    && (forall i :: 0 <= i < |k.generations| ==> Sorted(k.generations[i].revs))
    && (forall i :: 0 <= i < |k.generations| ==> NoneNewer(k.generations[i].revs, k.modified))
  }

  /** Only the last generation can be empty, and never when it is the only one. */
  ghost predicate Shaped(k: KeyState) {
    && (forall i :: 0 <= i < |k.generations| - 1 ==> k.generations[i].revs != [])
    && !IsEmpty(k)
  }

  /** `modified` is the newest revision present, or zero where none is newer than zero. */
  ghost predicate ModifiedIsMax(k: KeyState) {
    k.modified == ZERO || Holds(k, k.modified)
  }

  ghost predicate Valid(k: KeyState) {
    Ordered(k) && Shaped(k) && ModifiedIsMax(k)
  }

  /** A revision newer than `modified` goes to the end, which is where the source appends it. */
  lemma NewestGoesLast(revs: seq<Revision>, modified: Revision, rev: Revision)
    requires NoneNewer(revs, modified)
    requires GreaterThan(rev, modified)
    ensures Insert(revs, rev) == revs + [rev]
  {
    if revs != [] {
      assert revs[|revs| - 1] in revs;
      assert GreaterThan(rev, revs[|revs| - 1]);
    }
    assert Position(revs, rev) == |revs|;
  }

  lemma PutHolds(k: KeyState, rev: Revision, draw: int)
    ensures forall r :: Holds(Put(k, rev, draw), r) <==> Holds(k, r) || r == rev
  {
    var k' := Put(k, rev, draw);
    var gens, last := Opened(k), |Opened(k)| - 1;
    var revs := k'.generations[last].revs;
    InsertContents(gens[last].revs, rev);
    forall r
      ensures Holds(k', r) <==> Holds(k, r) || r == rev
    {
      assert r in revs ==> Holds(k', r);
      if Holds(k, r) {
        var i :| 0 <= i < |k.generations| && r in k.generations[i].revs;
        assert r in k'.generations[i].revs;
      }
      if Holds(k', r) {
        var i :| 0 <= i < |k'.generations| && r in k'.generations[i].revs;
        assert i < last ==> r in k.generations[i].revs;
      }
    }
  }

  lemma PutKeepsOrdered(k: KeyState, rev: Revision, draw: int)
    requires Ordered(k)
    ensures Ordered(Put(k, rev, draw))
  {
    var k' := Put(k, rev, draw);
    PutHolds(k, rev, draw);
    InsertKeepsSorted(Opened(k)[|Opened(k)| - 1].revs, rev);
    forall i, r | 0 <= i < |k'.generations| && r in k'.generations[i].revs
      ensures !GreaterThan(r, k'.modified)
    {
      assert Holds(k', r);
      if r != rev {
        var j :| 0 <= j < |k.generations| && r in k.generations[j].revs;
        assert NoneNewer(k.generations[j].revs, k.modified);
      }
    }
  }

  lemma PutKeepsValid(k: KeyState, rev: Revision, draw: int)
    requires Valid(k)
    ensures Valid(Put(k, rev, draw))
    ensures !GreaterThan(k.modified, Put(k, rev, draw).modified)
    ensures !GreaterThan(rev, Put(k, rev, draw).modified)
  {
    PutKeepsOrdered(k, rev, draw);
    PutHolds(k, rev, draw);
  }

  lemma TombstoneKeepsValid(k: KeyState, main: int, sub: int, draw: int)
    requires Valid(k) && CanTombstone(k)
    ensures Valid(Tombstone(k, main, sub, draw))
  {
    var rev := Revision(main, sub, []);
    PutKeepsValid(k, rev, draw);
    var p, k' := Put(k, rev, draw), Tombstone(k, main, sub, draw);
    if Holds(p, p.modified) {
      var i :| 0 <= i < |p.generations| && p.modified in p.generations[i].revs;
      assert p.modified in k'.generations[i].revs;
    }
  }
}

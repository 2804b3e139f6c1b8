/**
 Laws of the key index over whole histories: arrival order does not matter between tombstones,
 versions are conserved, and no revision that an update assumes is consumed twice.
 */
module KeyIndexLaws {
  import opened Revisions
  import opened KeyStates
  import opened Histories

  // ---------------------------------------------------------------- arrival order

  datatype Arrival = Arrival(rev: Revision, draw: int)

  function PutAll(k: KeyState, puts: seq<Arrival>): KeyState {
    if puts == [] then k
    else Put(PutAll(k, puts[..|puts| - 1]), puts[|puts| - 1].rev, puts[|puts| - 1].draw)
  }

  function Revs(puts: seq<Arrival>): (revs: seq<Revision>)
    ensures |revs| == |puts|
  {
    seq(|puts|, i requires 0 <= i < |puts| => puts[i].rev)
  }

  lemma PutAllNone(k: KeyState)
    ensures PutAll(k, []) == k
  {
  }

  /** Two key indexes that no query of revisions can tell apart. */
  ghost predicate SameRevisions(k1: KeyState, k2: KeyState) {
    && k1.modified == k2.modified
    && |k1.generations| == |k2.generations|
    && forall i :: 0 <= i < |k1.generations| ==> k1.generations[i].revs == k2.generations[i].revs
  }

  lemma RevsSnoc(puts: seq<Arrival>)
    requires puts != []
    ensures Revs(puts) == Revs(puts[..|puts| - 1]) + [puts[|puts| - 1].rev]
    ensures multiset(Revs(puts)) == multiset(Revs(puts[..|puts| - 1])) + multiset{puts[|puts| - 1].rev}
  {
    assert Revs(puts) == Revs(puts[..|puts| - 1]) + [puts[|puts| - 1].rev];
  }

  /** The generations that a put leaves alone. */
  function Closed(k: KeyState): seq<Generation> {
    Opened(k)[..|Opened(k)| - 1]
  }

  lemma PutContents(k: KeyState, rev: Revision, draw: int)
    ensures var k' := Put(k, rev, draw);
            && multiset(Current(k')) == multiset(Current(k)) + multiset{rev}
            && |k'.generations| == |Opened(k)| && Closed(k') == Closed(k)
  {
    var k' := Put(k, rev, draw);
    InsertContents(Current(k), rev);
    assert Current(k') == Insert(Current(k), rev);
    assert Closed(k') == Closed(k);
  }

  /** All puts go to the one generation, whose contents grow by exactly these revisions. */
  lemma {:induction false} PutAllContents(k: KeyState, puts: seq<Arrival>)
    requires Valid(k)
    ensures Valid(PutAll(k, puts))
    ensures multiset(Current(PutAll(k, puts))) == multiset(Current(k)) + multiset(Revs(puts))
    ensures |Opened(PutAll(k, puts))| == |Opened(k)| && Closed(PutAll(k, puts)) == Closed(k)
    ensures puts != [] ==> PutAll(k, puts).generations != []
  {
    if puts == [] {
      assert Revs(puts) == [];
    } else {
      var before, a := puts[..|puts| - 1], puts[|puts| - 1];
      PutAllContents(k, before);
      PutKeepsValid(PutAll(k, before), a.rev, a.draw);
      PutContents(PutAll(k, before), a.rev, a.draw);
      RevsSnoc(puts);
    }
  }

  /** `modified` ends as the start value or as the newest put, whichever is newer. */
  ghost predicate IsNewestOf(m: Revision, start: Revision, revs: seq<Revision>) {
    && (m == start || (GreaterThan(m, start) && m in revs))
    && NoneNewer(revs, m)
  }

  lemma {:induction false} PutAllModified(k: KeyState, puts: seq<Arrival>)
    ensures IsNewestOf(PutAll(k, puts).modified, k.modified, Revs(puts))
  {
    if puts != [] {
      var before, a := puts[..|puts| - 1], puts[|puts| - 1];
      PutAllModified(k, before);
      RevsSnoc(puts);
      NewestOfSnoc(PutAll(k, before).modified, k.modified, Revs(before), a.rev);
    }
  }

  lemma NewestOfSnoc(m: Revision, start: Revision, revs: seq<Revision>, r: Revision)
    requires IsNewestOf(m, start, revs)
    ensures IsNewestOf(if GreaterThan(r, m) then r else m, start, revs + [r])
  {
  }

  /** Only one revision can be the newest of given ones. */
  lemma NewestOfUnique(m: Revision, m': Revision, start: Revision, p: seq<Revision>, q: seq<Revision>)
    requires IsNewestOf(m, start, p) && IsNewestOf(m', start, q)
    requires multiset(p) == multiset(q) && AgesIdentify(p)
    ensures m == m'
  {
    assert forall r :: r in p <==> r in multiset(p);
    assert forall r :: r in q <==> r in multiset(q);
    assert forall r :: r in p <==> r in q;
    if m in p && m' in p {
      assert SameAge(m, m');
      var x :| 0 <= x < |p| && p[x] == m;
      var y :| 0 <= y < |p| && p[y] == m';
      assert SameAge(p[x], p[y]);
    }
  }

  /** Any two arrival orders of the same puts, with no tombstone between, end alike. */
  lemma ArrivalOrderIrrelevant(k: KeyState, p: seq<Arrival>, q: seq<Arrival>)
    requires Valid(k)
    requires multiset(Revs(p)) == multiset(Revs(q))
    requires AgesIdentify(Current(k) + Revs(p))
    ensures SameRevisions(PutAll(k, p), PutAll(k, q))
  {
    hide Sorted, AgesIdentify, PutAll;
    var k1, k2 := PutAll(k, p), PutAll(k, q);
    assert |p| == |q| by {
      assert |multiset(Revs(p))| == |p| && |multiset(Revs(q))| == |q|;
    }
    PutAllNone(k);
    if p != [] {
      PutAllContents(k, p);
      PutAllContents(k, q);
      SameContentsSameList(Current(k) + Revs(p), Current(k1), Current(k2));
      SameModified(k, p, q);
      forall i | 0 <= i < |k1.generations|
        ensures k1.generations[i].revs == k2.generations[i].revs
      {
        if i < |k1.generations| - 1 {
          assert k1.generations[i] == Closed(k1)[i] && k2.generations[i] == Closed(k2)[i];
        }
      }
    }
  }

  lemma SameContentsSameList(all: seq<Revision>, a: seq<Revision>, b: seq<Revision>)
    requires AgesIdentify(all) && Sorted(a) && Sorted(b)
    requires multiset(a) == multiset(b) == multiset(all)
    ensures a == b
  {
    forall i, j | 0 <= i < j < |a| && SameAge(a[i], a[j])
      ensures a[i] == a[j]
    {
      assert a[i] in multiset(all) && a[j] in multiset(all);
      var x :| 0 <= x < |all| && all[x] == a[i];
      var y :| 0 <= y < |all| && all[y] == a[j];
      assert SameAge(all[x], all[y]);
    }
    SortedUnique(a, b);
  }

  lemma SameModified(k: KeyState, p: seq<Arrival>, q: seq<Arrival>)
    requires multiset(Revs(p)) == multiset(Revs(q))
    requires AgesIdentify(Current(k) + Revs(p))
    ensures PutAll(k, p).modified == PutAll(k, q).modified
  {
    PutAllModified(k, p);
    PutAllModified(k, q);
    var n, all := |Current(k)|, Current(k) + Revs(p);
    forall i, j | 0 <= i < j < |p| && SameAge(Revs(p)[i], Revs(p)[j])
      ensures Revs(p)[i] == Revs(p)[j]
    {
      assert all[n + i] == Revs(p)[i] && all[n + j] == Revs(p)[j];
    }
    NewestOfUnique(PutAll(k, p).modified, PutAll(k, q).modified, k.modified, Revs(p), Revs(q));
  }

  lemma {:induction false} SameStarted(g1: seq<Generation>, g2: seq<Generation>, at: int)
    requires |g1| == |g2| && forall i :: 0 <= i < |g1| ==> g1[i].revs == g2[i].revs
    ensures LatestStarted(g1, at) == LatestStarted(g2, at)
  {
  }

  function RunFrom(k: KeyState, h: seq<Event>): KeyState {
    if h == [] then k else Apply(RunFrom(k, h[..|h| - 1]), h[|h| - 1])
  }

  lemma ApplyKeepsAlike(k1: KeyState, k2: KeyState, e: Event)
    requires SameRevisions(k1, k2)
    ensures SameRevisions(Apply(k1, e), Apply(k2, e))
  {
    assert Accepts(k1, e) <==> Accepts(k2, e);
    var rev := EntryOf(e).rev;
    assert SameRevisions(Put(k1, rev, e.draw), Put(k2, rev, e.draw));
  }

  lemma AlikeAnswers(k1: KeyState, k2: KeyState, at: int)
    requires SameRevisions(k1, k2)
    ensures Answer(Get(k1, at)) == Answer(Get(k2, at))
  {
    SameStarted(k1.generations, k2.generations, at);
  }

  /** Alike stays alike under every further call, so every later get answers the same revision. */
  lemma {:induction false} AlikeForever(k1: KeyState, k2: KeyState, h: seq<Event>, at: int)
    requires SameRevisions(k1, k2)
    ensures SameRevisions(RunFrom(k1, h), RunFrom(k2, h))
    ensures Answer(Get(RunFrom(k1, h), at)) == Answer(Get(RunFrom(k2, h), at))
  {
    if h != [] {
      AlikeForever(k1, k2, h[..|h| - 1], at);
      ApplyKeepsAlike(RunFrom(k1, h[..|h| - 1]), RunFrom(k2, h[..|h| - 1]), h[|h| - 1]);
    }
    AlikeAnswers(RunFrom(k1, h), RunFrom(k2, h), at);
  }

  // ---------------------------------------------------------------- versions

  /** A call counts as stale if something newer, or as new, was already there. */
  function StaleAfter(stale: seq<nat>, k: KeyState, e: Event): (r: seq<nat>)
    requires |stale| == |k.generations|
    ensures |r| == |Apply(k, e).generations|
  {
    if !Accepts(k, e) then stale
    else
      var open := if stale == [] then [0] else stale;
      var last := |open| - 1;
      var put := open[last := open[last] + if GreaterThan(EntryOf(e).rev, k.modified) then 0 else 1];
      if e.kind.TombstoneKind? then put + [0] else put
  }

  /** How many stale calls went into each generation. */
  function StaleInserts(h: seq<Event>): (stale: seq<nat>)
    ensures |stale| == |Run(h).generations|
  {
    if h == [] then []
    else StaleAfter(StaleInserts(h[..|h| - 1]), Run(h[..|h| - 1]), h[|h| - 1])
  }

  /** Every revision of a generation was either counted in `ver` or inserted stale. */
  lemma {:induction false} VersionsConserved(h: seq<Event>)
    ensures forall i :: 0 <= i < |Run(h).generations| ==>
              Run(h).generations[i].ver + StaleInserts(h)[i] == |Run(h).generations[i].revs|
  {
    hide Insert;
    if h != [] {
      VersionsConserved(h[..|h| - 1]);
    }
  }

  /** The version that get reports is the position, less the stale inserts of the generation. */
  lemma VersionOfGet(h: seq<Event>, at: int)
    requires Get(Run(h), at).Found?
    ensures var k := Run(h);
            var i := LatestStarted(k.generations, at);
            var n := LastAtOrBefore(k.generations[i].revs, at);
            Get(k, at).ver == n + 1 - StaleInserts(h)[i]
  {
    VersionsConserved(h);
  }

  /** Everything that was accepted was newer than all before it. */
  ghost predicate InOrder(h: seq<Event>) {
    forall i :: 0 <= i < |h| && Accepts(Run(h[..i]), h[i]) ==> GreaterThan(EntryOf(h[i]).rev, Run(h[..i]).modified)
  }

  lemma InOrderSnoc(h: seq<Event>)
    requires h != []
    ensures var n := |h| - 1;
            InOrder(h) <==>
            InOrder(h[..n]) && (Accepts(Run(h[..n]), h[n]) ==> GreaterThan(EntryOf(h[n]).rev, Run(h[..n]).modified))
  {
    var n := |h| - 1;
    hide Run, Accepts;
    forall i | 0 <= i < n
      ensures h[..i] == h[..n][..i] && h[i] == h[..n][i]
    {
    }
  }

  ghost predicate AllZero(s: seq<nat>) {
    forall i :: 0 <= i < |s| ==> s[i] == 0
  }

  lemma StaleAfterZero(stale: seq<nat>, k: KeyState, e: Event)
    requires |stale| == |k.generations|
    ensures AllZero(StaleAfter(stale, k, e)) <==>
            AllZero(stale) && (Accepts(k, e) ==> GreaterThan(EntryOf(e).rev, k.modified))
  {
    hide Accepts, GreaterThan;
    var after := StaleAfter(stale, k, e);
    if Accepts(k, e) {
      var last := if stale == [] then 0 else |stale| - 1;
      assert forall i :: 0 <= i < |stale| && i != last ==> after[i] == stale[i];
      assert after[last] == (if stale == [] then 0 else stale[last]) +
                            if GreaterThan(EntryOf(e).rev, k.modified) then 0 else 1;
      assert forall i :: last < i < |after| ==> after[i] == 0;
    }
  }

  /** Exactly the histories in order have no stale inserts, so that versions are positions. */
  lemma {:induction false} InOrderIsExact(h: seq<Event>)
    ensures InOrder(h) <==> AllZero(StaleInserts(h))
  {
    if h != [] {
      hide InOrder, AllZero, StaleAfter, Accepts, GreaterThan;
      var before := h[..|h| - 1];
      InOrderSnoc(h);
      InOrderIsExact(before);
      StaleAfterZero(StaleInserts(before), Run(before), h[|h| - 1]);
    } else {
      assert InOrder(h) && AllZero(StaleInserts(h));
    }
  }

  // ---------------------------------------------------------------- creation

  /** The accepted call that put the first revision into a generation. */
  ghost predicate IsOpener(h: seq<Event>, g: int, i: int) {
    && 0 <= i < |h| && Accepts(Run(h[..i]), h[i])
    && Current(Run(h[..i])) == [] && g == |Opened(Run(h[..i]))| - 1
  }

  ghost predicate CreatedBy(h: seq<Event>, g: int, created: Revision) {
    exists i :: IsOpener(h, g, i) && created == Revision(h[i].draw, 0, [])
  }

  lemma OpenerStays(h: seq<Event>, e: Event, g: int, created: Revision)
    requires CreatedBy(h, g, created)
    ensures CreatedBy(h + [e], g, created)
  {
    var i :| IsOpener(h, g, i) && created == Revision(h[i].draw, 0, []);
    assert (h + [e])[..i] == h[..i] && (h + [e])[i] == h[i];
    assert IsOpener(h + [e], g, i);
  }

  lemma OpensNow(h: seq<Event>, e: Event)
    requires Accepts(Run(h), e) && Current(Run(h)) == []
    ensures CreatedBy(h + [e], |Opened(Run(h))| - 1, Revision(e.draw, 0, []))
  {
    assert (h + [e])[..|h|] == h && (h + [e])[|h|] == e;
    assert IsOpener(h + [e], |Opened(Run(h))| - 1, |h|);
  }

  /** Only a call that opens a generation sets what it was created at. */
  lemma CreatedStays(k: KeyState, e: Event, g: nat)
    requires g < |Apply(k, e).generations| && Apply(k, e).generations[g].revs != []
    ensures if Accepts(k, e) && g == |Opened(k)| - 1 && Current(k) == []
            then Apply(k, e).generations[g].created == Revision(e.draw, 0, [])
            else g < |k.generations| && k.generations[g].revs != [] &&
                 Apply(k, e).generations[g].created == k.generations[g].created
  {
    hide Insert;
  }

  /** Every generation that holds something carries the number drawn by the call that opened it. */
  lemma {:induction false} CreatedIsDrawn(h: seq<Event>, g: nat)
    requires g < |Run(h).generations| && Run(h).generations[g].revs != []
    ensures CreatedBy(h, g, Run(h).generations[g].created)
  {
    var before, e := h[..|h| - 1], h[|h| - 1];
    assert h == before + [e];
    var k := Run(before);
    CreatedStays(k, e, g);
    hide Apply, Accepts, CreatedBy;
    if Accepts(k, e) && g == |Opened(k)| - 1 && Current(k) == [] {
      OpensNow(before, e);
    } else {
      CreatedIsDrawn(before, g);
      OpenerStays(before, e, g, k.generations[g].created);
    }
  }

  /** There is one such call for each generation. */
  lemma {:induction false} GenerationStays(h: seq<Event>, n: nat, g: nat)
    requires n <= |h| && g < |Run(h[..n]).generations| && Run(h[..n]).generations[g].revs != []
    ensures g < |Run(h).generations| && Run(h).generations[g].revs != []
    decreases |h|
  {
    if n == |h| {
      assert h[..n] == h;
    } else {
      assert h[..|h| - 1][..n] == h[..n];
      GenerationStays(h[..|h| - 1], n, g);
    }
  }

  lemma OpenedHolds(h: seq<Event>, g: nat, i: nat)
    requires IsOpener(h, g, i)
    ensures g < |Run(h[..i + 1]).generations| && Run(h[..i + 1]).generations[g].revs != []
  {
    assert h[..i + 1][..i] == h[..i];
  }

  /** A generation that holds something cannot be opened again. */
  lemma OpenedOnce(h: seq<Event>, g: nat, i: nat, j: nat)
    requires IsOpener(h, g, i) && IsOpener(h, g, j)
    ensures j <= i
  {
    if i < j {
      OpenedHolds(h, g, i);
      assert h[..j][..i + 1] == h[..i + 1];
      hide Run, Accepts;
      GenerationStays(h[..j], i + 1, g);
    }
  }

  lemma OpenerIsUnique(h: seq<Event>, g: nat, i: nat, j: nat)
    requires IsOpener(h, g, i) && IsOpener(h, g, j)
    ensures i == j
  {
    hide IsOpener;
    OpenedOnce(h, g, i, j);
    OpenedOnce(h, g, j, i);
  }

  /** What get reports as `created`. */
  lemma CreatedOfGet(h: seq<Event>, at: int)
    requires Get(Run(h), at).Found?
    ensures CreatedBy(h, LatestStarted(Run(h).generations, at), Get(Run(h), at).created)
    ensures Get(Run(h), at).rev in Run(h).generations[LatestStarted(Run(h).generations, at)].revs
  {
    CreatedIsDrawn(h, LatestStarted(Run(h).generations, at));
  }

  // ---------------------------------------------------------------- update

  ghost predicate Succeeds(h: seq<Event>, i: int) {
    0 <= i < |h| && h[i].kind.UpdateKind? && Accepts(Run(h[..i]), h[i])
  }

  /** New main numbers are above the assumed ones. A counter gives this to callers that assume a revision
      they have seen; the source accepts any other number as well. */
  ghost predicate UpdatesMoveForward(h: seq<Event>) {
    forall i :: Succeeds(h, i) ==> h[i].rev.main > h[i].kind.assumed
  }

  /** Whatever else arrives in between, a later success assumes at least the earlier one's result. */
  lemma UpdateIsCompareAndSwap(h: seq<Event>, i: nat, j: nat)
    requires UpdatesMoveForward(h) && Succeeds(h, i) && Succeeds(h, j) && i < j
    ensures h[i].kind.assumed < h[i].rev.main <= h[j].kind.assumed < h[j].rev.main
  {
    assert h[..j][..i] == h[..i] && h[..j][i] == h[i];
    ModifiedNeverDecreases(h[..j], i);
  }

  /** Without a newer main number the same assumption succeeds again. */
  lemma UpdateAgain(k: KeyState, e: Event, again: Event)
    requires Valid(k) && e.kind.UpdateKind? && Accepts(k, e)
    requires again.kind == e.kind
    ensures Accepts(Apply(k, e), again) <==> e.rev.main <= e.kind.assumed
  {
  }
}

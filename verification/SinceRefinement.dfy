/**
 since(rev) against the log: which revisions it reports although it skips whole generations by
 their creation number, when it panics, and for which numbers it is exactly what it promises.
 */
module SinceRefinement {
  import opened Revisions
  import opened KeyStates
  import opened Histories
  import opened Refinement
  import opened Sequences

  /** A generation draws its creation number after everything in earlier generations was drawn. */
  ghost predicate DrawsAhead(h: seq<Event>) {
    h == [] ||
    var before, e := h[..|h| - 1], h[|h| - 1];
    && DrawsAhead(before)
    && (Accepts(Run(before), e) && Current(Run(before)) == [] ==>
          forall j :: 0 <= j < |Log(before)| ==> Log(before)[j].rev.main < e.draw)
  }

  /** The answer that the log gives: for each main number from `since` on, the newest entry. */
  ghost predicate IsSince(log: seq<Entry>, since: int, out: seq<Revision>) {
    && MainsIncrease(out)
    && (forall i :: 0 <= i < |out| ==>
          && since <= out[i].main
          && NewestAt(log, out[i].main).Some?
          && NewestAt(log, out[i].main).value.rev == out[i])
    && (forall j :: 0 <= j < |log| && log[j].rev.main >= since ==> Reports(out, log[j].rev.main))
  }

  ghost predicate MainsIncrease(out: seq<Revision>) {
    forall i, j :: 0 <= i < j < |out| ==> out[i].main < out[j].main
  }

  ghost predicate Reports(out: seq<Revision>, main: int) {
    exists i :: 0 <= i < |out| && out[i].main == main
  }

  // ---------------------------------------------------------------- collapsing a sorted list

  /** Not older than since.0: at its own main number a negative sub is dropped. */
  predicate Kept(since: int, r: Revision) {
    !GreaterThan(Revision(since, 0, []), r)
  }

  /** What the loops make of a sorted list of revisions. */
  ghost predicate IsCollapse(s: seq<Revision>, since: int, out: seq<Revision>) {
    && MainsIncrease(out)
    && (forall i :: 0 <= i < |out| ==> Kept(since, out[i]) && IsLastWith(s, out[i]))
    && (forall j :: 0 <= j < |s| && Kept(since, s[j]) ==> Reports(out, s[j].main))
  }

  ghost predicate IsLastWith(s: seq<Revision>, r: Revision) {
    var n := LastAtOrBefore(s, r.main);
    n >= 0 && s[n] == r
  }

  lemma SortedPrefix(s: seq<Revision>)
    requires Sorted(s) && s != []
    ensures Sorted(s[..|s| - 1])
  {
  }

  lemma {:induction false} ReportCollapses(s: seq<Revision>, since: int)
    requires Sorted(s) && ReportAll(Listed([]), since, s).Listed?
    ensures IsCollapse(s, since, ReportAll(Listed([]), since, s).revs)
  {
    if s == [] {
      assert IsCollapse(s, since, []);
    } else {
      var n := |s| - 1;
      var before, r := s[..n], s[n];
      assert s == before + [r];
      hide IsCollapse, Sorted;
      SortedPrefix(s);
      ReportCollapses(before, since);
      CollapseStep(before, r, since, ReportAll(Listed([]), since, before).revs);
    }
  }

  ghost predicate IsFirstKept(s: seq<Revision>, since: int, i: int) {
    && 0 <= i < |s| && Kept(since, s[i])
    && forall j :: 0 <= j < i ==> !Kept(since, s[j])
  }

  ghost predicate FirstIsZero(s: seq<Revision>, since: int) {
    exists i :: IsFirstKept(s, since, i) && s[i].main == 0
  }

  /** The loops panic exactly when the first revision to report has main number 0. */
  lemma {:induction false} ReportPanics(s: seq<Revision>, since: int)
    ensures ReportAll(Listed([]), since, s).SincePanics? <==> FirstIsZero(s, since)
    ensures ReportAll(Listed([]), since, s) == Listed([]) <==> forall j :: 0 <= j < |s| ==> !Kept(since, s[j])
  {
    if s != [] {
      var n := |s| - 1;
      ReportPanics(s[..n], since);
      if i :| IsFirstKept(s[..n], since, i) && s[i].main == 0 {
        assert IsFirstKept(s, since, i);
      }
      if i :| IsFirstKept(s, since, i) && s[i].main == 0 {
        assert i < n ==> IsFirstKept(s[..n], since, i);
      }
      if forall j :: 0 <= j < n ==> !Kept(since, s[..n][j]) {
        assert forall j :: 0 <= j < n ==> s[..n][j] == s[j];
        assert Kept(since, s[n]) ==> IsFirstKept(s, since, n);
      }
    }
  }

  lemma LastWithSnoc(before: seq<Revision>, r: Revision, x: Revision)
    ensures IsLastWith(before, x) && x.main < r.main ==> IsLastWith(before + [r], x)
    ensures IsLastWith(before + [r], r)
  {
  }

  lemma CollapseStep(before: seq<Revision>, r: Revision, since: int, out: seq<Revision>)
    requires Sorted(before + [r])
    requires IsCollapse(before, since, out) && Report(Listed(out), since, r).Listed?
    ensures IsCollapse(before + [r], since, Report(Listed(out), since, r).revs)
  {
    forall i | 0 <= i < |out|
      ensures out[i].main <= r.main
    {
      assert IsLastWith(before, out[i]);
      SortedBound(before, r, LastAtOrBefore(before, out[i].main));
    }
    if !Kept(since, r) {
      NothingKept(before, r, since);
      assert out != [] ==> IsLastWith(before, out[0]);
    }
    ReportIncreases(out, since, r);
    forall i | 0 <= i < |Report(Listed(out), since, r).revs|
      ensures Kept(since, Report(Listed(out), since, r).revs[i])
      ensures IsLastWith(before + [r], Report(Listed(out), since, r).revs[i])
    {
      LastWithSnoc(before, r, Report(Listed(out), since, r).revs[i]);
    }
    CollapseCovers(before, r, since, out);
  }

  /** In a sorted list nothing is kept before something that is dropped. */
  lemma NothingKept(before: seq<Revision>, r: Revision, since: int)
    requires Sorted(before + [r]) && !Kept(since, r)
    ensures forall j :: 0 <= j < |before| ==> !Kept(since, before[j])
  {
    forall j | 0 <= j < |before|
      ensures !Kept(since, before[j])
    {
      assert !GreaterThan((before + [r])[j], (before + [r])[|before|]);
    }
  }

  lemma SortedBound(before: seq<Revision>, r: Revision, j: nat)
    requires Sorted(before + [r]) && j < |before|
    ensures before[j].main <= r.main
  {
    assert !GreaterThan((before + [r])[j], (before + [r])[|before|]);
  }

  /** Old positions keep their revision, except that the last may be replaced; main numbers increase. */
  lemma ReportIncreases(out: seq<Revision>, since: int, r: Revision)
    requires MainsIncrease(out) && Report(Listed(out), since, r).Listed?
    requires forall i :: 0 <= i < |out| ==> Kept(since, out[i]) && out[i].main <= r.main
    requires !Kept(since, r) ==> out == []
    ensures var out' := Report(Listed(out), since, r).revs;
            && MainsIncrease(out')
            && (forall i :: 0 <= i < |out'| ==> Kept(since, out'[i]))
            && (forall i :: 0 <= i < |out'| ==>
                  out'[i] == r || (i < |out| && out'[i] == out[i] && out[i].main < r.main))
  {
  }

  lemma CollapseCovers(before: seq<Revision>, r: Revision, since: int, out: seq<Revision>)
    requires Report(Listed(out), since, r).Listed?
    requires forall j :: 0 <= j < |before| && Kept(since, before[j]) ==> Reports(out, before[j].main)
    ensures var s, out' := before + [r], Report(Listed(out), since, r).revs;
            forall j :: 0 <= j < |s| && Kept(since, s[j]) ==> Reports(out', s[j].main)
  {
    var s, out' := before + [r], Report(Listed(out), since, r).revs;
    forall j | 0 <= j < |s| && Kept(since, s[j])
      ensures Reports(out', s[j].main)
    {
      if j < |before| {
        assert Reports(out, before[j].main);
        var i :| 0 <= i < |out| && out[i].main == before[j].main;
        assert out'[i].main == out[i].main;
      } else {
        assert out'[|out'| - 1].main == r.main;
      }
    }
  }

  // ---------------------------------------------------------------- the generations as one list

  lemma {:induction false} FlattenContains(gens: seq<Generation>, r: Revision)
    ensures r in Flatten(gens) <==> exists i :: 0 <= i < |gens| && r in gens[i].revs
  {
    if gens != [] {
      var n := |gens| - 1;
      FlattenContains(gens[..n], r);
      if i :| 0 <= i < |gens| && r in gens[i].revs {
        assert i < n ==> r in gens[..n][i].revs;
      }
      if i :| 0 <= i < n && r in gens[..n][i].revs {
        assert r in gens[i].revs;
      }
      assert r in gens[n].revs ==> exists i :: 0 <= i < |gens| && r in gens[i].revs;
    }
  }

  lemma {:induction false} FlattenSorted(k: KeyState)
    requires Ordered(k) && CrossOrdered(k)
    ensures Sorted(Flatten(k.generations))
    decreases |k.generations|
  {
    if k.generations != [] {
      var n := |k.generations| - 1;
      var front := k.(generations := k.generations[..n]);
      assert CrossOrdered(front) by {
        forall i, j, m | 0 <= i < j < n && 0 <= m < |front.generations[j].revs|
          ensures Below(front.generations[i].revs, front.generations[j].revs[m])
        {
          assert Below(k.generations[i].revs, k.generations[j].revs[m]);
        }
      }
      FlattenSorted(front);
      var a, b := Flatten(front.generations), k.generations[n].revs;
      forall i, j | 0 <= i < |a| && 0 <= j < |b|
        ensures GreaterThan(b[j], a[i])
      {
        FlattenContains(front.generations, a[i]);
        var g :| 0 <= g < n && a[i] in front.generations[g].revs;
        assert Below(k.generations[g].revs, k.generations[n].revs[j]);
      }
      SortedConcat(a, b);
    }
  }

  lemma SortedConcat(a: seq<Revision>, b: seq<Revision>)
    requires Sorted(a) && Sorted(b)
    requires forall i, j :: 0 <= i < |a| && 0 <= j < |b| ==> GreaterThan(b[j], a[i])
    ensures Sorted(a + b)
  {
  }

  /** The newest at or before `at` is the same in the list as across generations. */
  lemma {:induction false} FlattenView(gens: seq<Generation>, at: int)
    requires forall i :: 0 <= i < |gens| ==> Sorted(gens[i].revs)
    ensures var i, n := LatestStarted(gens, at), LastAtOrBefore(Flatten(gens), at);
            && (i < 0 <==> n < 0)
            && (i >= 0 ==> Flatten(gens)[n] == gens[i].revs[LastAtOrBefore(gens[i].revs, at)])
  {
    if gens != [] {
      var front, revs := gens[..|gens| - 1], gens[|gens| - 1].revs;
      FlattenView(front, at);
      var a, b := Flatten(front), revs;
      if Started(gens[|gens| - 1], at) {
        LastAtConcat(a, b, at);
      } else {
        NotStarted(revs, at);
        LastAtConcat(a, b, at);
      }
    }
  }

  lemma LastAtConcat(a: seq<Revision>, b: seq<Revision>, at: int)
    ensures LastAtOrBefore(a + b, at) ==
            if LastAtOrBefore(b, at) >= 0 then |a| + LastAtOrBefore(b, at) else LastAtOrBefore(a, at)
  {
    var n := if LastAtOrBefore(b, at) >= 0 then |a| + LastAtOrBefore(b, at) else LastAtOrBefore(a, at);
    assert n >= 0 ==> (a + b)[n].main <= at;
    forall j | n < j < |a + b|
      ensures (a + b)[j].main > at
    {
      if j >= |a| {
        assert (a + b)[j] == b[j - |a|];
      } else {
        assert (a + b)[j] == a[j];
      }
    }
  }

  // ---------------------------------------------------------------- the skip is sound

  /** Every revision in generations before a non-empty one is older than its creation. */
  ghost predicate CreatedAhead(k: KeyState) {
    forall j :: 0 < j < |k.generations| && k.generations[j].revs != [] ==>
      && k.generations[j].created.sub == 0
      && MainsBelow(Flatten(k.generations[..j]), k.generations[j].created.main)
  }

  ghost predicate MainsBelow(revs: seq<Revision>, main: int) {
    forall i :: 0 <= i < |revs| ==> revs[i].main < main
  }

  lemma {:induction false} DrawsAheadCreates(h: seq<Event>)
    requires DrawsAhead(h)
    ensures CreatedAhead(Run(h))
  {
    if h != [] {
      var before, e := h[..|h| - 1], h[|h| - 1];
      DrawsAheadCreates(before);
      var k := Run(before);
      if Accepts(k, e) {
        RunIsValid(before);
        var rev := EntryOf(e).rev;
        if Current(k) == [] {
          HeldBelow(k, before, e.draw);
        }
        PutKeepsCreated(k, rev, e.draw);
        if e.kind.TombstoneKind? {
          CloseKeepsCreated(Put(k, rev, e.draw));
        }
      }
    }
  }

  lemma HeldBelow(k: KeyState, before: seq<Event>, draw: int)
    requires k == Run(before)
    requires forall j :: 0 <= j < |Log(before)| ==> Log(before)[j].rev.main < draw
    ensures MainsBelow(Flatten(k.generations), draw)
  {
    RunIsValid(before);
    var all := Flatten(k.generations);
    forall i | 0 <= i < |all|
      ensures all[i].main < draw
    {
      FlattenContains(k.generations, all[i]);
      assert Holds(k, all[i]);
    }
  }

  lemma PutKeepsCreated(k: KeyState, rev: Revision, draw: int)
    requires CreatedAhead(k)
    requires Current(k) == [] ==> MainsBelow(Flatten(k.generations), draw)
    ensures CreatedAhead(Put(k, rev, draw))
  {
    var gens, k' := Opened(k), Put(k, rev, draw);
    var last := |gens| - 1;
    forall j | 0 < j < |k'.generations| && k'.generations[j].revs != []
      ensures k'.generations[j].created.sub == 0 &&
              MainsBelow(Flatten(k'.generations[..j]), k'.generations[j].created.main)
    {
      assert k'.generations[..j] == k.generations[..j];
      if j == last && Current(k) == [] {
        assert Flatten(k.generations) == Flatten(k.generations[..j]) + k.generations[j].revs ==
               Flatten(k.generations[..j]);
      } else {
        assert MainsBelow(Flatten(k.generations[..j]), k.generations[j].created.main);
      }
    }
  }

  lemma CloseKeepsCreated(p: KeyState)
    requires CreatedAhead(p)
    ensures CreatedAhead(p.(generations := p.generations + [EMPTY_GENERATION]))
  {
    var k' := p.(generations := p.generations + [EMPTY_GENERATION]);
    forall j | 0 < j < |k'.generations| && k'.generations[j].revs != []
      ensures k'.generations[j].created.sub == 0 &&
              MainsBelow(Flatten(k'.generations[..j]), k'.generations[j].created.main)
    {
      assert k'.generations[..j] == p.generations[..j];
    }
  }

  lemma {:induction false} OldNotReported(revs: seq<Revision>, since: int)
    requires MainsBelow(revs, since)
    ensures ReportAll(Listed([]), since, revs) == Listed([])
  {
    if revs != [] {
      OldNotReported(revs[..|revs| - 1], since);
    }
  }

  /** Starting at the chosen generation reports the same as starting at the first. */
  lemma SkipIsSound(k: KeyState, since: int)
    requires k.generations != [] && !IsEmpty(k) && CreatedAhead(k)
    ensures Since(k, since) == ReportAll(Listed([]), since, Flatten(k.generations))
  {
    var gens := k.generations;
    var gi := StartGeneration(gens, since);
    assert gens == gens[..gi] + gens[gi..];
    FlattenConcat(gens[..gi], gens[gi..]);
    ReportAllConcat(Listed([]), since, Flatten(gens[..gi]), Flatten(gens[gi..]));
    if gi > 0 {
      assert MainsBelow(Flatten(gens[..gi]), gens[gi].created.main);
      OldNotReported(Flatten(gens[..gi]), since);
    }
  }

  // ---------------------------------------------------------------- when since panics

  /** For every key index: since panics without a generation, on an empty one, or when the first
      revision that it would report, from the generation where it starts, has main number 0. */
  lemma SincePanicsExactly(k: KeyState, since: int)
    ensures Since(k, since).SincePanics? <==>
            || k.generations == [] || IsEmpty(k)
            || FirstIsZero(Flatten(k.generations[StartGeneration(k.generations, since)..]), since)
  {
    if k.generations != [] {
      ReportPanics(Flatten(k.generations[StartGeneration(k.generations, since)..]), since);
    }
  }

  // ---------------------------------------------------------------- the theorems

  /** Some entry with main number 0 is to be reported, and none with a negative one before it. */
  ghost predicate StartsAtZero(log: seq<Entry>, since: int) {
    && (exists j :: 0 <= j < |log| && Kept(since, log[j].rev) && log[j].rev.main == 0)
    && (forall j :: 0 <= j < |log| && Kept(since, log[j].rev) ==> log[j].rev.main >= 0)
  }

  /** The answer keeps what is not older than since.0, one revision for each main number, the newest. */
  ghost predicate IsSinceKept(log: seq<Entry>, since: int, out: seq<Revision>) {
    && MainsIncrease(out)
    && (forall i :: 0 <= i < |out| ==>
          && Kept(since, out[i])
          && NewestAt(log, out[i].main).Some?
          && NewestAt(log, out[i].main).value.rev == out[i])
    && (forall j :: 0 <= j < |log| && Kept(since, log[j].rev) ==> Reports(out, log[j].rev.main))
  }

  /** Whatever the numbers: when since panics, and what it reports otherwise. */
  lemma SinceRefinesLog(h: seq<Event>, since: int)
    requires WellOrdered(h) && DrawsAhead(h) && Log(h) != []
    ensures Since(Run(h), since).SincePanics? <==> StartsAtZero(Log(h), since)
    ensures Since(Run(h), since).Listed? ==> IsSinceKept(Log(h), since, Since(Run(h), since).revs)
  {
    var k, all := Run(h), Flatten(Run(h).generations);
    RunIsValid(h);
    WellOrderedRefines(h);
    DrawsAheadCreates(h);
    SkipIsSound(k, since);
    FlattenSorted(k);
    ReportPanics(all, since);
    hide Since, Run, Log, Valid, WellOrdered, DrawsAhead, CreatedAhead, Flatten;
    FirstIsLogged(h, since);
    if Since(k, since).Listed? {
      ReportCollapses(all, since);
      CollapseIsSince(h, since, Since(k, since).revs);
    }
  }

  /** The log holds what the generations hold. */
  lemma FlattenIsLogged(h: seq<Event>, r: Revision)
    ensures r in Flatten(Run(h).generations) <==> exists j :: 0 <= j < |Log(h)| && Log(h)[j].rev == r
  {
    RunIsValid(h);
    FlattenContains(Run(h).generations, r);
    assert r in Flatten(Run(h).generations) <==> Holds(Run(h), r);
  }

  /** In a sorted list the first to report has main number 0 exactly if some has and none is below. */
  lemma FirstIsLogged(h: seq<Event>, since: int)
    requires Sorted(Flatten(Run(h).generations))
    ensures FirstIsZero(Flatten(Run(h).generations), since) <==> StartsAtZero(Log(h), since)
  {
    hide Run, Log, Flatten;
    var all, log := Flatten(Run(h).generations), Log(h);
    if i :| IsFirstKept(all, since, i) && all[i].main == 0 {
      FlattenIsLogged(h, all[i]);
      forall j | 0 <= j < |log| && Kept(since, log[j].rev)
        ensures log[j].rev.main >= 0
      {
        FlattenIsLogged(h, log[j].rev);
        var m :| 0 <= m < |all| && all[m] == log[j].rev;
        assert i <= m;
      }
    }
    if StartsAtZero(log, since) {
      var j :| 0 <= j < |log| && Kept(since, log[j].rev) && log[j].rev.main == 0;
      FlattenIsLogged(h, log[j].rev);
      var m :| 0 <= m < |all| && all[m] == log[j].rev;
      var i := FirstKept(all, since, m);
      FlattenIsLogged(h, all[i]);
      assert i < m ==> !GreaterThan(all[i], all[m]);
    }
  }

  lemma {:induction false} FirstKept(s: seq<Revision>, since: int, m: nat) returns (i: nat)
    requires m < |s| && Kept(since, s[m])
    ensures i <= m && IsFirstKept(s, since, i)
  {
    if j: nat :| j < m && Kept(since, s[j]) {
      i := FirstKept(s, since, j);
    } else {
      i := m;
    }
  }

  lemma CollapseIsSince(h: seq<Event>, since: int, out: seq<Revision>)
    requires Refines(Run(h), Log(h)) && Valid(Run(h))
    requires IsCollapse(Flatten(Run(h).generations), since, out)
    ensures IsSinceKept(Log(h), since, out)
  {
    var k, log, all := Run(h), Log(h), Flatten(Run(h).generations);
    forall i | 0 <= i < |out|
      ensures NewestAt(log, out[i].main).Some? && NewestAt(log, out[i].main).value.rev == out[i]
    {
      assert IsLastWith(all, out[i]);
      FlattenView(k.generations, out[i].main);
      assert View(k, out[i].main) == NewestAt(log, out[i].main);
    }
    hide Run, Log, Flatten;
    forall j | 0 <= j < |log| && Kept(since, log[j].rev)
      ensures Reports(out, log[j].rev.main)
    {
      FlattenIsLogged(h, log[j].rev);
      var m :| 0 <= m < |all| && all[m] == log[j].rev;
      assert Reports(out, all[m].main);
    }
  }

  // ---------------------------------------------------------------- for which numbers it is exact

  /** The newest entry of a main number, which the promise says is the one to report. */
  function NewestSub(log: seq<Entry>, main: int): int {
    if NewestAt(log, main).Some? then NewestAt(log, main).value.rev.sub else 0
  }

  ghost predicate Logged(log: seq<Entry>, main: int) {
    exists j :: 0 <= j < |log| && log[j].rev.main == main
  }

  lemma NewestOfMain(log: seq<Entry>, j: nat)
    requires j < |log|
    ensures NewestAt(log, log[j].rev.main).Some?
    ensures var r := NewestAt(log, log[j].rev.main).value.rev;
            r.main == log[j].rev.main && r.sub >= log[j].rev.sub
    ensures exists i :: 0 <= i < |log| && log[i] == NewestAt(log, log[j].rev.main).value
  {
    NewestAtMeaning(log, log[j].rev.main);
    var i :| IsNewestAt(log, log[j].rev.main, i) && log[i] == NewestAt(log, log[j].rev.main).value;
    assert !GreaterThan(log[j].rev, log[i].rev);
  }

  /** At one revision the promise is kept exactly if its own newest sub is not negative. */
  lemma KeptIsSince(log: seq<Entry>, since: int, out: seq<Revision>)
    requires IsSinceKept(log, since, out)
    ensures IsSince(log, since, out) <==> (Logged(log, since) ==> NewestSub(log, since) >= 0)
  {
    hide NewestAt, Reports;
    if Logged(log, since) ==> NewestSub(log, since) >= 0 {
      forall j | 0 <= j < |log| && log[j].rev.main >= since
        ensures Reports(out, log[j].rev.main)
      {
        NewestOfMain(log, j);
        var i :| 0 <= i < |log| && log[i] == NewestAt(log, log[j].rev.main).value;
        assert Logged(log, log[j].rev.main);
        assert Kept(since, log[i].rev);
      }
    }
    if IsSince(log, since, out) && Logged(log, since) {
      var j :| 0 <= j < |log| && log[j].rev.main == since;
      ReportedIsKept(log, since, out, j);
    }
  }

  lemma ReportedIsKept(log: seq<Entry>, since: int, out: seq<Revision>, j: nat)
    requires IsSinceKept(log, since, out) && j < |log| && log[j].rev.main == since && Reports(out, since)
    ensures NewestSub(log, since) >= 0
  {
    var i :| 0 <= i < |out| && out[i].main == since;
  }

  /** Main numbers are not 0, and the newest sub of each is not negative. */
  ghost predicate Proper(log: seq<Entry>) {
    forall j :: 0 <= j < |log| ==> log[j].rev.main != 0 && NewestSub(log, log[j].rev.main) >= 0
  }

  ghost predicate KeepsPromise(h: seq<Event>, since: int) {
    Since(Run(h), since).Listed? && IsSince(Log(h), since, Since(Run(h), since).revs)
  }

  /** since keeps its promise at every revision exactly for proper numbers. */
  lemma SinceIsExact(h: seq<Event>)
    requires WellOrdered(h) && DrawsAhead(h) && Log(h) != []
    ensures (forall since :: KeepsPromise(h, since)) <==> Proper(Log(h))
  {
    hide Run, Log, WellOrdered, DrawsAhead, NewestSub, IsSince, IsSinceKept;
    var log := Log(h);
    if Proper(log) {
      forall since
        ensures KeepsPromise(h, since)
      {
        SinceRefinesLog(h, since);
        KeptIsSince(log, since, Since(Run(h), since).revs);
      }
    }
    if forall since :: KeepsPromise(h, since) {
      forall j | 0 <= j < |log|
        ensures log[j].rev.main != 0 && NewestSub(log, log[j].rev.main) >= 0
      {
        PromiseIsProper(h, j);
      }
    }
  }

  lemma PromiseIsProper(h: seq<Event>, j: nat)
    requires WellOrdered(h) && DrawsAhead(h) && j < |Log(h)| && KeepsPromise(h, Log(h)[j].rev.main)
    ensures Log(h)[j].rev.main != 0 && NewestSub(Log(h), Log(h)[j].rev.main) >= 0
  {
    hide Run, Log, WellOrdered, DrawsAhead, NewestAt;
    var log, since := Log(h), Log(h)[j].rev.main;
    SinceRefinesLog(h, since);
    KeptIsSince(log, since, Since(Run(h), since).revs);
    assert Logged(log, since);
    NewestOfMain(log, j);
    var i :| 0 <= i < |log| && log[i] == NewestAt(log, since).value;
    assert Kept(since, log[i].rev);
  }

  /** A put at main number 0 makes since(0) panic. */
  lemma ZeroPanics(sub: int, nodes: seq<string>, draw: int)
    requires sub >= 0
    ensures Since(Run([Event(PutKind, Revision(0, sub, nodes), draw)]), 0) == SincePanics
  {
    var e := Event(PutKind, Revision(0, sub, nodes), draw);
    assert [e][..0] == [];
    assert Run([e]).generations[0].revs == [e.rev];
    var k := Run([e]);
    assert Flatten(k.generations[0..]) == [e.rev] by {
      assert k.generations[0..][..0] == [];
    }
    assert IsFirstKept([e.rev], 0, 0);
    SincePanicsExactly(k, 0);
  }

  /** A put with a negative sub is missing from since at its own main number. */
  lemma NegativeSubIsDropped(main: int, sub: int, nodes: seq<string>, draw: int)
    requires sub < 0
    ensures Since(Run([Event(PutKind, Revision(main, sub, nodes), draw)]), main) == Listed([])
  {
    var e := Event(PutKind, Revision(main, sub, nodes), draw);
    assert [e][..0] == [];
    assert Run([e]).generations[0].revs == [e.rev];
    var k := Run([e]);
    assert Flatten(k.generations[0..]) == [e.rev] by {
      assert k.generations[0..][..0] == [];
    }
    ReportPanics([e.rev], main);
  }

  /** The log determines the answer: there is only one list that IsSince accepts. */
  lemma {:induction false} SinceUnique(log: seq<Entry>, since: int, a: seq<Revision>, b: seq<Revision>)
    requires IsSince(log, since, a) && IsSince(log, since, b)
    ensures a == b
  {
    SinceCovers(log, since, a, b);
    SinceCovers(log, since, b, a);
    SameMains(a, b);
    forall i | 0 <= i < |a|
      ensures a[i] == b[i]
    {
      assert NewestAt(log, a[i].main).value.rev == a[i];
    }
  }

  lemma SinceCovers(log: seq<Entry>, since: int, a: seq<Revision>, b: seq<Revision>)
    requires IsSince(log, since, a) && IsSince(log, since, b)
    ensures forall i :: 0 <= i < |a| ==> Reports(b, a[i].main)
  {
    forall i | 0 <= i < |a|
      ensures Reports(b, a[i].main)
    {
      NewestAtMeaning(log, a[i].main);
      var j :| IsNewestAt(log, a[i].main, j) && log[j] == NewestAt(log, a[i].main).value;
      assert log[j].rev.main >= since;
    }
  }

  function Mains(a: seq<Revision>): (x: seq<int>)
    ensures |x| == |a| && forall i :: 0 <= i < |a| ==> x[i] == a[i].main
  {
    seq(|a|, i requires 0 <= i < |a| => a[i].main)
  }

  lemma MainsAmong(a: seq<Revision>, b: seq<Revision>)
    requires forall i :: 0 <= i < |a| ==> Reports(b, a[i].main)
    ensures forall v :: v in Mains(a) ==> v in Mains(b)
  {
    forall v | v in Mains(a)
      ensures v in Mains(b)
    {
      var i :| 0 <= i < |a| && Mains(a)[i] == v;
      assert Reports(b, a[i].main);
      var j :| 0 <= j < |b| && b[j].main == v;
      assert Mains(b)[j] == v;
    }
  }

  lemma SameMains(a: seq<Revision>, b: seq<Revision>)
    requires MainsIncrease(a) && MainsIncrease(b)
    requires forall i :: 0 <= i < |a| ==> Reports(b, a[i].main)
    requires forall i :: 0 <= i < |b| ==> Reports(a, b[i].main)
    ensures |a| == |b|
    ensures forall i :: 0 <= i < |a| ==> a[i].main == b[i].main
  {
    MainsAmong(a, b);
    MainsAmong(b, a);
    hide Reports;
    IncreasingUnique(Mains(a), Mains(b));
  }
}

/**
 get refines the log on the well-ordered histories (GetRefinesLog) and, where main numbers are
 distinct, on no others (RefinementIsExact).
 */
module Refinement {
  import opened Options
  import opened Revisions
  import opened KeyStates
  import opened Histories

  // ---------------------------------------------------------------- invariants of well-ordered runs

  /** Newer than the last tombstone means newer than every closed generation. */
  lemma AboveClosed(k: KeyState, log: seq<Entry>, rev: Revision)
    requires Valid(k) && CrossOrdered(k) && TombEndsGeneration(k, log)
    requires LastTomb(log).Some? ==> GreaterThan(rev, LastTomb(log).value)
    ensures forall i :: 0 <= i < |k.generations| - 1 ==> Below(k.generations[i].revs, rev)
  {
  }

  lemma PutKeepsCross(k: KeyState, rev: Revision, draw: int)
    requires CrossOrdered(k)
    requires forall i :: 0 <= i < |k.generations| - 1 ==> Below(k.generations[i].revs, rev)
    ensures CrossOrdered(Put(k, rev, draw))
  {
  }

  /** A tombstone that is newer than the whole log is newer than every generation. */
  lemma AboveAll(h: seq<Event>, rev: Revision)
    requires forall j :: 0 <= j < |Log(h)| ==> GreaterThan(rev, Log(h)[j].rev)
    ensures forall i :: 0 <= i < |Run(h).generations| ==> Below(Run(h).generations[i].revs, rev)
  {
    var k := Run(h);
    RunIsValid(h);
    forall i, a | 0 <= i < |k.generations| && a in k.generations[i].revs
      ensures GreaterThan(rev, a)
    {
      assert Holds(k, a);
    }
  }

  ghost predicate Refines(k: KeyState, log: seq<Entry>) {
    && CrossOrdered(k)
    && TombEndsGeneration(k, log)
    && forall at :: View(k, at) == NewestAt(log, at)
  }

  lemma {:induction false} WellOrderedRefines(h: seq<Event>)
    requires WellOrdered(h)
    ensures Refines(Run(h), Log(h))
  {
    if h == [] {
      return;
    }
    var before, e := h[..|h| - 1], h[|h| - 1];
    WellOrderedRefines(before);
    RunIsValid(before);
    if Accepts(Run(before), e) {
      if e.kind.TombstoneKind? {
        AboveAll(before, EntryOf(e).rev);
        TombstoneRefines(Run(before), Log(before), e);
      } else {
        PutRefines(Run(before), Log(before), e);
      }
    }
  }

  lemma PutRefines(k: KeyState, log: seq<Entry>, e: Event)
    requires Valid(k) && Refines(k, log)
    requires !e.kind.TombstoneKind? && Admissible(log, EntryOf(e))
    ensures Refines(Put(k, e.rev, e.draw), log + [EntryOf(e)])
  {
    AboveClosed(k, log, e.rev);
    PutKeepsCross(k, e.rev, e.draw);
    PutKeepsTombEnds(k, log, e);
    forall at
      ensures View(Put(k, e.rev, e.draw), at) == NewestAt(log + [EntryOf(e)], at)
    {
      PutView(k, e.rev, e.draw, at);
      NewestAtSnoc(log, EntryOf(e), at);
    }
  }

  lemma NewestAtSnoc(log: seq<Entry>, e: Entry, at: int)
    ensures NewestAt(log + [e], at) == Newer(NewestAt(log, at), e, at)
  {
    assert (log + [e])[..|log|] == log;
  }

  lemma PutKeepsTombEnds(k: KeyState, log: seq<Entry>, e: Event)
    requires TombEndsGeneration(k, log) && !e.kind.TombstoneKind?
    ensures TombEndsGeneration(Put(k, e.rev, e.draw), log + [EntryOf(e)])
  {
    assert (log + [EntryOf(e)])[..|log|] == log;
  }

  lemma TombstoneRefines(k: KeyState, log: seq<Entry>, e: Event)
    requires Valid(k) && Refines(k, log)
    requires e.kind.TombstoneKind? && Accepts(k, e)
    requires forall i :: 0 <= i < |k.generations| ==> Below(k.generations[i].revs, EntryOf(e).rev)
    ensures Refines(Tombstone(k, e.rev.main, e.rev.sub, e.draw), log + [EntryOf(e)])
  {
    var rev := EntryOf(e).rev;
    var k', log' := Tombstone(k, rev.main, rev.sub, e.draw), log + [EntryOf(e)];
    PutKeepsCross(k, rev, e.draw);
    CloseKeepsCross(Put(k, rev, e.draw));
    assert TombEndsGeneration(k', log') by {
      assert Below(k.generations[|k.generations| - 1].revs, rev);
      NewestCloses(k, rev);
    }
    forall at
      ensures View(k', at) == NewestAt(log', at)
    {
      TombstoneView(k, rev.main, rev.sub, e.draw, at);
      NewestAtSnoc(log, EntryOf(e), at);
    }
  }

  lemma CloseKeepsCross(p: KeyState)
    requires CrossOrdered(p)
    ensures CrossOrdered(p.(generations := p.generations + [EMPTY_GENERATION]))
  {
  }

  // ---------------------------------------------------------------- get

  /** On a well-ordered history get answers what the log says, at every revision. */
  lemma GetRefinesLog(h: seq<Event>, at: int)
    requires WellOrdered(h)
    ensures Answer(Get(Run(h), at)) == LogGet(Log(h), at)
  {
    WellOrderedRefines(h);
    NoEmptyPanics(h, at);
    GetFromView(Run(h), at);
    assert View(Run(h), at) == NewestAt(Log(h), at);
  }

  ghost predicate DistinctMains(log: seq<Entry>) {
    forall i, j :: 0 <= i < j < |log| ==> log[i].rev.main != log[j].rev.main
  }

  ghost predicate AgreesAt(h: seq<Event>, at: int) {
    Answer(Get(Run(h), at)) == LogGet(Log(h), at)
  }

  /** After every call of the history, get agrees with the log at every revision. */
  ghost predicate AlwaysAgrees(h: seq<Event>) {
    forall n, at :: 0 <= n <= |h| ==> AgreesAt(h[..n], at)
  }

  /** With main numbers from a counter, the well-ordered histories are all the good ones. */
  lemma RefinementIsExact(h: seq<Event>)
    requires DistinctMains(Log(h))
    ensures AlwaysAgrees(h) <==> WellOrdered(h)
  {
    if WellOrdered(h) {
      forall n, at | 0 <= n <= |h|
        ensures AgreesAt(h[..n], at)
      {
        WellOrderedPrefix(h, n);
        GetRefinesLog(h[..n], at);
      }
    }
    if AlwaysAgrees(h) {
      AgreesImpliesOrdered(h);
    }
  }

  lemma {:induction false} WellOrderedPrefix(h: seq<Event>, n: nat)
    requires WellOrdered(h) && n <= |h|
    ensures WellOrdered(h[..n])
  {
    if n == |h| {
      assert h[..n] == h;
    } else {
      assert h[..|h| - 1][..n] == h[..n];
      WellOrderedPrefix(h[..|h| - 1], n);
    }
  }

  lemma {:induction false} LastTombAt(log: seq<Entry>) returns (m: nat)
    requires LastTomb(log).Some?
    ensures m < |log| && log[m] == Entry(LastTomb(log).value, true)
  {
    m := |log| - 1;
    if !log[m].tomb {
      m := LastTombAt(log[..m]);
    }
  }

  lemma TombIsNewest(log: seq<Entry>)
    requires LastTomb(log).Some? && DistinctMains(log)
    ensures NewestAt(log, LastTomb(log).value.main) == Some(Entry(LastTomb(log).value, true))
  {
    var at := LastTomb(log).value.main;
    var m := LastTombAt(log);
    NewestAtMeaning(log, at);
    var i :| IsNewestAt(log, at, i) && log[i] == NewestAt(log, at).value;
    assert !GreaterThan(log[m].rev, log[i].rev);
    assert i == m;
  }

  /** A put older than the last tombstone brings the key back at the tombstone's own revision. */
  lemma StalePutShows(before: seq<Event>, e: Event) returns (at: int)
    requires !e.kind.TombstoneKind? && Accepts(Run(before), e)
    requires !Admissible(Log(before), EntryOf(e))
    requires DistinctMains(Log(before))
    ensures !AgreesAt(before + [e], at)
  {
    var k, log := Run(before), Log(before);
    RunIsValid(before);
    at := LastTomb(log).value.main;
    TombIsNewest(log);
    NewestAtSnoc(log, EntryOf(e), at);
    PutIsSeen(k, e.rev, e.draw, at);
    assert (before + [e])[..|before|] == before;
  }

  lemma PutIsSeen(k: KeyState, rev: Revision, draw: int, at: int)
    requires Valid(k) && rev.main <= at
    ensures Get(Put(k, rev, draw), at).Found?
  {
  }

  /** Where the current generation holds something, its newest is the newest of all. */
  lemma CurrentNewest(k: KeyState, rev: Revision)
    requires Ordered(k) && CrossOrdered(k) && Current(k) != [] && Holds(k, rev)
    ensures !GreaterThan(rev, Current(k)[|Current(k)| - 1])
  {
  }

  /** A tombstone that is not the newest hides the newest put instead. */
  lemma StaleTombstoneShows(before: seq<Event>, e: Event) returns (at: int)
    requires WellOrdered(before)
    requires e.kind.TombstoneKind? && Accepts(Run(before), e)
    requires !Admissible(Log(before), EntryOf(e))
    requires DistinctMains(Log(before) + [EntryOf(e)])
    ensures !AgreesAt(before + [e], at)
  {
    var k, log, rev := Run(before), Log(before), EntryOf(e).rev;
    RunIsValid(before);
    WellOrderedRefines(before);
    at := Current(k)[|Current(k)| - 1].main;
    StaleTombstoneOlder(before, e);
    StaleTombstoneHides(k, rev, e.draw, at);
    CurrentView(k, at);
    assert View(k, at) == NewestAt(log, at);
    NewestAtSnoc(log, EntryOf(e), at);
    assert (before + [e])[..|before|] == before;
  }

  lemma StaleTombstoneOlder(before: seq<Event>, e: Event)
    requires e.kind.TombstoneKind? && Accepts(Run(before), e)
    requires Valid(Run(before)) && CrossOrdered(Run(before))
    requires !Admissible(Log(before), EntryOf(e))
    requires DistinctMains(Log(before) + [EntryOf(e)])
    ensures var revs := Current(Run(before)); EntryOf(e).rev.main < revs[|revs| - 1].main
  {
    hide Run, Log, Sorted, CrossOrdered;
    var k, log, rev := Run(before), Log(before), EntryOf(e).rev;
    var newest := Current(k)[|Current(k)| - 1];
    var stale :| 0 <= stale < |log| && !GreaterThan(rev, log[stale].rev);
    LogIsHeld(before, stale);
    CurrentNewest(k, log[stale].rev);
    assert newest in k.generations[|k.generations| - 1].revs;
    var j := HeldIsLogged(before, newest);
    assert (log + [EntryOf(e)])[j].rev.main != (log + [EntryOf(e)])[|log|].rev.main;
  }

  lemma CurrentView(k: KeyState, at: int)
    requires Valid(k) && Current(k) != []
    requires at == Current(k)[|Current(k)| - 1].main
    ensures View(k, at) == Some(Entry(Current(k)[|Current(k)| - 1], false))
  {
  }

  lemma StaleTombstoneHides(k: KeyState, rev: Revision, draw: int, at: int)
    requires Valid(k) && Current(k) != []
    requires at == Current(k)[|Current(k)| - 1].main && rev.main <= at
    ensures Answer(Get(Tombstone(k, rev.main, rev.sub, draw), at)) == None
  {
    hide Insert, Sorted, View;
    var rev' := Revision(rev.main, rev.sub, []);
    var last, p := |k.generations| - 1, Put(k, rev', draw);
    assert Sorted(k.generations[last].revs);
    assert LastAtOrBefore(Current(k), at) == |Current(k)| - 1;
    InsertEarlier(Current(k), rev', at);
    assert Started(p.generations[last], at);
    CloseView(p, at);
    TombstoneKeepsValid(k, rev.main, rev.sub, draw);
    GetFromView(Tombstone(k, rev.main, rev.sub, draw), at);
  }

  lemma {:induction false} AgreesImpliesOrdered(h: seq<Event>)
    requires DistinctMains(Log(h)) && AlwaysAgrees(h)
    ensures WellOrdered(h)
  {
    if h == [] {
      return;
    }
    var before, e := h[..|h| - 1], h[|h| - 1];
    assert AlwaysAgrees(before) by {
      forall n, at | 0 <= n <= |before|
        ensures AgreesAt(before[..n], at)
      {
        assert before[..n] == h[..n];
      }
    }
    assert DistinctMains(Log(before)) by {
      assert Log(before) == Log(h)[..|Log(before)|];
    }
    AgreesImpliesOrdered(before);
    if Accepts(Run(before), e) && !Admissible(Log(before), EntryOf(e)) {
      assert h == before + [e] && h[..|h|] == h;
      if e.kind.TombstoneKind? {
        var at := StaleTombstoneShows(before, e);
      } else {
        var at := StalePutShows(before, e);
      }
    }
  }
}

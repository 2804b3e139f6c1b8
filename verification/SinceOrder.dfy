/**
 Which histories since needs: with proper and distinct main numbers it gives its documented answer
 at every revision exactly if later generations are newer. This is less than get needs; a
 tombstone that is not the newest does no harm here.
 */
module SinceOrder {
  import opened Sequences
  import opened Revisions
  import opened KeyStates
  import opened Histories
  import opened Refinement
  import opened SinceRefinement

  // ---------------------------------------------------------------- the generations hold the log

  function RevsOf(log: seq<Entry>): (revs: seq<Revision>)
    ensures |revs| == |log| && forall j :: 0 <= j < |log| ==> revs[j] == log[j].rev
  {
    seq(|log|, j requires 0 <= j < |log| => log[j].rev)
  }

  lemma PutAddsOne(k: KeyState, rev: Revision, draw: int)
    ensures multiset(Flatten(Put(k, rev, draw).generations)) == multiset(Flatten(k.generations)) + multiset{rev}
  {
    hide Insert;
    var gens, gens' := Opened(k), Put(k, rev, draw).generations;
    var last := |gens| - 1;
    assert gens'[..last] == gens[..last] && gens'[last].revs == Insert(gens[last].revs, rev);
    InsertContents(gens[last].revs, rev);
    assert Flatten(gens) == Flatten(k.generations) by {
      if k.generations == [] {
        assert gens[..0] == [];
      }
    }
  }

  lemma CloseAddsNone(k: KeyState)
    ensures Flatten(k.generations + [EMPTY_GENERATION]) == Flatten(k.generations)
  {
    assert (k.generations + [EMPTY_GENERATION])[..|k.generations|] == k.generations;
  }

  lemma LogAddsOne(log: seq<Entry>, e: Entry)
    ensures multiset(RevsOf(log + [e])) == multiset(RevsOf(log)) + multiset{e.rev}
  {
    assert RevsOf(log + [e]) == RevsOf(log) + [e.rev];
  }

  lemma ApplyAddsOne(k: KeyState, e: Event)
    requires Accepts(k, e)
    ensures multiset(Flatten(Apply(k, e).generations)) == multiset(Flatten(k.generations)) + multiset{EntryOf(e).rev}
  {
    PutAddsOne(k, EntryOf(e).rev, e.draw);
    CloseAddsNone(Put(k, EntryOf(e).rev, e.draw));
    hide Put, Flatten;
  }

  lemma {:induction false} FlattenIsLog(h: seq<Event>)
    ensures multiset(Flatten(Run(h).generations)) == multiset(RevsOf(Log(h)))
  {
    if h == [] {
      assert RevsOf(Log(h)) == [];
    } else {
      var before, e := h[..|h| - 1], h[|h| - 1];
      hide Apply, Accepts, Flatten, RevsOf;
      FlattenIsLog(before);
      if Accepts(Run(before), e) {
        ApplyAddsOne(Run(before), e);
        LogAddsOne(Log(before), EntryOf(e));
      } else {
        RefusedIsSame(Run(before), e);
      }
    }
  }

  lemma RefusedIsSame(k: KeyState, e: Event)
    requires !Accepts(k, e)
    ensures Apply(k, e) == k
  {
  }

  /** With distinct main numbers in the log, they are distinct in the generations. */
  lemma FlattenIsDistinct(h: seq<Event>, p: nat, q: nat)
    requires DistinctMains(Log(h)) && p < q < |Flatten(Run(h).generations)|
    ensures Flatten(Run(h).generations)[p].main != Flatten(Run(h).generations)[q].main
  {
    var all, revs := Flatten(Run(h).generations), RevsOf(Log(h));
    FlattenIsLog(h);
    hide Run, Log, Flatten;
    PermutationNoDuplicates(revs, all);
    assert all[p] in multiset(revs) && all[q] in multiset(revs);
    var i :| 0 <= i < |revs| && revs[i] == all[p];
    var j :| 0 <= j < |revs| && revs[j] == all[q];
    assert all[p] != all[q];
  }

  // ---------------------------------------------------------------- ordered generations suffice

  /** With distinct main numbers an entry is the newest at its own. */
  lemma DistinctIsNewest(log: seq<Entry>, j: nat)
    requires DistinctMains(log) && j < |log|
    ensures NewestAt(log, log[j].rev.main).Some? && NewestAt(log, log[j].rev.main).value.rev == log[j].rev
  {
    NewestOfMain(log, j);
    var i :| 0 <= i < |log| && log[i] == NewestAt(log, log[j].rev.main).value;
    assert i == j;
  }

  lemma CollapseKeepsPromise(h: seq<Event>, since: int, out: seq<Revision>)
    requires DistinctMains(Log(h)) && Proper(Log(h)) && IsCollapse(Flatten(Run(h).generations), since, out)
    ensures IsSince(Log(h), since, out)
  {
    var all, log := Flatten(Run(h).generations), Log(h);
    hide Run, Log, Flatten, NewestAt;
    forall i | 0 <= i < |out|
      ensures since <= out[i].main && NewestAt(log, out[i].main).Some? && NewestAt(log, out[i].main).value.rev == out[i]
    {
      assert IsLastWith(all, out[i]);
      FlattenIsLogged(h, out[i]);
      var j :| 0 <= j < |log| && log[j].rev == out[i];
      DistinctIsNewest(log, j);
    }
    forall j | 0 <= j < |log| && log[j].rev.main >= since
      ensures Reports(out, log[j].rev.main)
    {
      DistinctIsNewest(log, j);
      FlattenIsLogged(h, log[j].rev);
      var m :| 0 <= m < |all| && all[m] == log[j].rev;
      assert Kept(since, all[m]);
    }
  }

  lemma NoPanic(h: seq<Event>, since: int)
    requires Proper(Log(h))
    ensures ReportAll(Listed([]), since, Flatten(Run(h).generations)).Listed?
  {
    var all := Flatten(Run(h).generations);
    ReportPanics(all, since);
    hide Run, Log, Flatten;
    if i :| IsFirstKept(all, since, i) && all[i].main == 0 {
      FlattenIsLogged(h, all[i]);
    }
  }

  lemma OrderedKeepsPromise(h: seq<Event>, since: int)
    requires DrawsAhead(h) && DistinctMains(Log(h)) && Proper(Log(h)) && Log(h) != [] && CrossOrdered(Run(h))
    ensures KeepsPromise(h, since)
  {
    var k := Run(h);
    RunIsValid(h);
    DrawsAheadCreates(h);
    SkipIsSound(k, since);
    FlattenSorted(k);
    NoPanic(h, since);
    hide Run, Log, Flatten, DrawsAhead, CrossOrdered, Since;
    ReportCollapses(Flatten(k.generations), since);
    CollapseKeepsPromise(h, since, Since(k, since).revs);
  }

  // ---------------------------------------------------------------- and are needed

  ghost predicate MainsRise(s: seq<Revision>) {
    forall p, q :: 0 <= p < q < |s| ==> s[p].main <= s[q].main
  }

  lemma ReportShows(out: seq<Revision>, since: int, r: Revision)
    requires Kept(since, r) && Report(Listed(out), since, r).Listed?
    requires MainsIncrease(Report(Listed(out), since, r).revs)
    ensures MainsIncrease(out) && (out != [] ==> out[|out| - 1].main <= r.main)
    ensures var out' := Report(Listed(out), since, r).revs; out' != [] && out'[|out'| - 1] == r
  {
    var out' := Report(Listed(out), since, r).revs;
    assert forall i :: 0 <= i < |out| ==> out'[i].main == out[i].main;
    if out != [] && |out'| == |out| + 1 {
      assert out'[|out| - 1].main < out'[|out|].main;
    }
  }

  /** If all are reported and come out in order, they went in in order. */
  lemma {:induction false} OrderShows(s: seq<Revision>, since: int)
    requires forall j :: 0 <= j < |s| ==> Kept(since, s[j])
    requires ReportAll(Listed([]), since, s).Listed? && MainsIncrease(ReportAll(Listed([]), since, s).revs)
    ensures MainsRise(s)
    ensures var out := ReportAll(Listed([]), since, s).revs;
            |s| > 0 ==> |out| > 0 && out[|out| - 1].main == s[|s| - 1].main
  {
    if s != [] {
      var n := |s| - 1;
      ReportShows(ReportAll(Listed([]), since, s[..n]).revs, since, s[n]);
      hide MainsIncrease, Kept;
      OrderShows(s[..n], since);
      RiseSnoc(s);
    }
  }

  lemma RiseSnoc(s: seq<Revision>)
    requires s != [] && MainsRise(s[..|s| - 1]) && (|s| > 1 ==> s[|s| - 2].main <= s[|s| - 1].main)
    ensures MainsRise(s)
  {
    var n := |s| - 1;
    forall p | 0 <= p < n
      ensures s[p].main <= s[n].main
    {
      assert p < n - 1 ==> s[..n][p].main <= s[..n][n - 1].main;
    }
    assert s == s[..n] + [s[n]];
  }

  lemma {:induction false} LowestMain(log: seq<Entry>) returns (low: int)
    ensures forall j :: 0 <= j < |log| ==> low <= log[j].rev.main
  {
    if log == [] {
      low := 0;
    } else {
      var n := |log| - 1;
      low := LowestMain(log[..n]);
      if log[n].rev.main < low {
        low := log[n].rev.main;
      }
    }
  }

  /** Everything is reported from the lowest main number on, so the order of the generations shows. */
  lemma PromiseShowsOrder(h: seq<Event>, low: int)
    requires DrawsAhead(h) && DistinctMains(Log(h)) && Proper(Log(h)) && Log(h) != [] && KeepsPromise(h, low)
    requires forall j :: 0 <= j < |Log(h)| ==> low <= Log(h)[j].rev.main
    ensures MainsRise(Flatten(Run(h).generations))
  {
    var k, log, all := Run(h), Log(h), Flatten(Run(h).generations);
    RunIsValid(h);
    DrawsAheadCreates(h);
    SkipIsSound(k, low);
    hide Run, Log, Flatten, DrawsAhead, Since;
    forall p | 0 <= p < |all|
      ensures Kept(low, all[p])
    {
      FlattenIsLogged(h, all[p]);
      var j :| 0 <= j < |log| && log[j].rev == all[p];
      DistinctIsNewest(log, j);
    }
    OrderShows(all, low);
  }

  /** Revisions of different generations are in their order in the list. */
  lemma Positions(gens: seq<Generation>, i: nat, j: nat, a: Revision, b: Revision) returns (p: nat, q: nat)
    requires i < j < |gens| && a in gens[i].revs && b in gens[j].revs
    ensures p < q < |Flatten(gens)| && Flatten(gens)[p] == a && Flatten(gens)[q] == b
  {
    var front, back := gens[..j], gens[j..];
    assert gens == front + back;
    FlattenConcat(front, back);
    assert front[i] == gens[i] && back[0] == gens[j];
    FlattenContains(front, a);
    FlattenContains(back, b);
    hide Flatten;
    var x :| 0 <= x < |Flatten(front)| && Flatten(front)[x] == a;
    var y :| 0 <= y < |Flatten(back)| && Flatten(back)[y] == b;
    p, q := x, |Flatten(front)| + y;
  }

  lemma RiseIsCross(h: seq<Event>, i: nat, j: nat, a: Revision, b: Revision)
    requires DistinctMains(Log(h)) && MainsRise(Flatten(Run(h).generations))
    requires i < j < |Run(h).generations| && a in Run(h).generations[i].revs && b in Run(h).generations[j].revs
    ensures GreaterThan(b, a)
  {
    hide Run, Log, Flatten, DistinctMains;
    var p, q := Positions(Run(h).generations, i, j, a, b);
    FlattenIsDistinct(h, p, q);
  }

  /** The history condition of since, exactly. */
  lemma SinceOrderIsExact(h: seq<Event>)
    requires DrawsAhead(h) && DistinctMains(Log(h)) && Proper(Log(h)) && Log(h) != []
    ensures (forall since :: KeepsPromise(h, since)) <==> CrossOrdered(Run(h))
  {
    if CrossOrdered(Run(h)) {
      hide *;
      forall since
        ensures KeepsPromise(h, since)
      {
        OrderedKeepsPromise(h, since);
      }
    }
    if forall since :: KeepsPromise(h, since) {
      var k := Run(h);
      var low := LowestMain(Log(h));
      PromiseShowsOrder(h, low);
      hide Run, Log, Flatten, DrawsAhead, KeepsPromise, MainsRise, DistinctMains, Proper;
      forall i, j, n | 0 <= i < j < |k.generations| && 0 <= n < |k.generations[j].revs|
        ensures Below(k.generations[i].revs, k.generations[j].revs[n])
      {
        forall a | a in k.generations[i].revs
          ensures GreaterThan(k.generations[j].revs[n], a)
        {
          RiseIsCross(h, i, j, a, k.generations[j].revs[n]);
        }
      }
    }
  }
}

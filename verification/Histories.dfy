/**
 The key index against a plain log of what happened to the key.

 A history is any sequence of put, update and tombstone calls, in arrival order and with
 revisions in any order. The log keeps the accepted ones. Here are the structure that every
 history leaves, the reference queries on the log, and what one call does to what is in sight.
 */
module Histories {
  import opened Options
  import opened Revisions
  import opened KeyStates

  datatype Kind = PutKind | UpdateKind(assumed: int) | TombstoneKind

  datatype Event = Event(kind: Kind, rev: Revision, draw: int)

  /** An accepted call: its revision, and whether it deleted the key. */
  datatype Entry = Entry(rev: Revision, tomb: bool)

  /** The tree rejects an update or tombstone of an unknown key before it reaches the key index. */
  predicate Accepts(k: KeyState, e: Event) {
    match e.kind
    case PutKind => true
    case UpdateKind(assumed) => k.generations != [] && k.modified.main == assumed
    case TombstoneKind => CanTombstone(k)
  }

  function EntryOf(e: Event): Entry {
    if e.kind.TombstoneKind? then Entry(Revision(e.rev.main, e.rev.sub, []), true) else Entry(e.rev, false)
  }

  function Apply(k: KeyState, e: Event): KeyState {
    if !Accepts(k, e) then k
    else if e.kind.TombstoneKind? then Tombstone(k, e.rev.main, e.rev.sub, e.draw)
    else Put(k, e.rev, e.draw)
  }

  function Run(h: seq<Event>): KeyState {
    if h == [] then FRESH else Apply(Run(h[..|h| - 1]), h[|h| - 1])
  }

  function Log(h: seq<Event>): seq<Entry> {
    if h == [] then []
    else
      var before, e := h[..|h| - 1], h[|h| - 1];
      if Accepts(Run(before), e) then Log(before) + [EntryOf(e)] else Log(before)
  }

  // ---------------------------------------------------------------- structure over all runs

  /** Every history, stale arrivals included, leaves a well-formed key index. */
  lemma {:induction false} RunIsValid(h: seq<Event>)
    ensures Valid(Run(h))
    ensures Run(h).generations == [] <==> Log(h) == []
    ensures forall r :: Holds(Run(h), r) <==> exists j :: 0 <= j < |Log(h)| && Log(h)[j].rev == r
  {
    if h != [] {
      var before, e := h[..|h| - 1], h[|h| - 1];
      RunIsValid(before);
      var k, k', log, log' := Run(before), Run(h), Log(before), Log(h);
      if Accepts(k, e) {
        var rev := EntryOf(e).rev;
        PutKeepsValid(k, rev, e.draw);
        PutHolds(k, rev, e.draw);
        var p := Put(k, rev, e.draw);
        if e.kind.TombstoneKind? {
          TombstoneKeepsValid(k, rev.main, rev.sub, e.draw);
          SameHolds(p);
        }
        assert forall r :: Holds(k', r) <==> Holds(p, r);
        assert log' == log + [EntryOf(e)];
        forall r
          ensures Holds(k', r) <==> exists j :: 0 <= j < |log'| && log'[j].rev == r
        {
          assert log'[|log|].rev == rev;
          if Holds(k, r) {
            var j :| 0 <= j < |log| && log[j].rev == r;
            assert log'[j].rev == r;
          }
          if j :| 0 <= j < |log'| && log'[j].rev == r {
            assert j < |log| ==> log[j].rev == r;
          }
        }
      }
    }
  }

  lemma LogIsHeld(h: seq<Event>, j: nat)
    requires j < |Log(h)|
    ensures Holds(Run(h), Log(h)[j].rev)
  {
    RunIsValid(h);
  }

  lemma HeldIsLogged(h: seq<Event>, r: Revision) returns (j: nat)
    requires Holds(Run(h), r)
    ensures j < |Log(h)| && Log(h)[j].rev == r
  {
    RunIsValid(h);
    j :| 0 <= j < |Log(h)| && Log(h)[j].rev == r;
  }

  /** The empty generation that a tombstone opens holds nothing. */
  lemma SameHolds(p: KeyState)
    ensures forall r :: Holds(p, r) <==> Holds(p.(generations := p.generations + [EMPTY_GENERATION]), r)
  {
    var k' := p.(generations := p.generations + [EMPTY_GENERATION]);
    forall r
      ensures Holds(p, r) <==> Holds(k', r)
    {
      if Holds(p, r) {
        var i :| 0 <= i < |p.generations| && r in p.generations[i].revs;
        assert r in k'.generations[i].revs;
      }
      if Holds(k', r) {
        var i :| 0 <= i < |k'.generations| && r in k'.generations[i].revs;
        assert r in p.generations[i].revs;
      }
    }
  }

  /** `modified` never goes back, and a revision that was accepted is never newer than it. */
  lemma {:induction false} ModifiedNeverDecreases(h: seq<Event>, n: nat)
    requires n <= |h|
    ensures !GreaterThan(Run(h[..n]).modified, Run(h).modified)
    ensures n < |h| && Accepts(Run(h[..n]), h[n]) ==> !GreaterThan(EntryOf(h[n]).rev, Run(h).modified)
    decreases |h| - n
  {
    if n == |h| {
      assert h[..n] == h;
    } else {
      ModifiedNeverDecreases(h, n + 1);
      assert h[..n + 1][..n] == h[..n];
      RunIsValid(h[..n]);
      PutKeepsValid(Run(h[..n]), EntryOf(h[n]).rev, h[n].draw);
    }
  }

  /** The source's "empty keyIndex" panics cannot happen to a key that the tree holds. */
  lemma NoEmptyPanics(h: seq<Event>, at: int)
    ensures Get(Run(h), at) != GetPanics
    ensures !IsEmpty(Run(h))
  {
    RunIsValid(h);
  }

  // ---------------------------------------------------------------- the log as the reference

  /** The newer of what is known and one more entry, looking no later than `at`; the earlier
      arrival wins among equal ages. */
  function Newer(best: Option<Entry>, e: Entry, at: int): Option<Entry> {
    if e.rev.main <= at && (best.None? || GreaterThan(e.rev, best.value.rev)) then Some(e) else best
  }

  /** The newest entry whose main number is at or before `at`. */
  function NewestAt(log: seq<Entry>, at: int): Option<Entry> {
    if log == [] then None
    else Newer(NewestAt(log[..|log| - 1], at), log[|log| - 1], at)
  }

  /** What NewestAt means, independently of how it is computed. */
  ghost predicate IsNewestAt(log: seq<Entry>, at: int, i: int) {
    && 0 <= i < |log|
    && log[i].rev.main <= at
    && (forall j :: 0 <= j < |log| && log[j].rev.main <= at ==> !GreaterThan(log[j].rev, log[i].rev))
    && (forall j :: 0 <= j < i && log[j].rev.main <= at ==> GreaterThan(log[i].rev, log[j].rev))
  }

  lemma {:induction false} NewestAtMeaning(log: seq<Entry>, at: int)
    ensures NewestAt(log, at) == None <==> forall j :: 0 <= j < |log| ==> log[j].rev.main > at
    ensures NewestAt(log, at).Some? ==> exists i :: IsNewestAt(log, at, i) && log[i] == NewestAt(log, at).value
  {
    if log != [] {
      var n := |log| - 1;
      var before, e := log[..n], log[n];
      NewestAtMeaning(before, at);
      assert log == before + [e];
      if NewestAt(before, at).Some? {
        var i :| IsNewestAt(before, at, i) && before[i] == NewestAt(before, at).value;
        NewestStep(before, e, at, i);
      } else if e.rev.main <= at {
        assert IsNewestAt(log, at, n);
      }
    }
  }

  lemma NewestStep(before: seq<Entry>, e: Entry, at: int, i: int)
    requires IsNewestAt(before, at, i)
    ensures var n := if e.rev.main <= at && GreaterThan(e.rev, before[i].rev) then |before| else i;
            IsNewestAt(before + [e], at, n)
  {
  }

  /** The answer that the log gives for the key at `at`. */
  function LogGet(log: seq<Entry>, at: int): Option<Revision> {
    var e := NewestAt(log, at);
    if e.Some? && !e.value.tomb then Some(e.value.rev) else None
  }

  function Answer(r: GetResult): Option<Revision> {
    if r.Found? then Some(r.rev) else None
  }

  // ---------------------------------------------------------------- well-ordered histories

  function LastTomb(log: seq<Entry>): Option<Revision> {
    if log == [] then None
    else if log[|log| - 1].tomb then Some(log[|log| - 1].rev)
    else LastTomb(log[..|log| - 1])
  }

  /** A put is newer than the last tombstone; a tombstone is newer than everything. */
  ghost predicate Admissible(log: seq<Entry>, e: Entry) {
    if e.tomb then forall j :: 0 <= j < |log| ==> GreaterThan(e.rev, log[j].rev)
    else LastTomb(log).Some? ==> GreaterThan(e.rev, LastTomb(log).value)
  }

  ghost predicate WellOrdered(h: seq<Event>) {
    h == [] ||
    var before, e := h[..|h| - 1], h[|h| - 1];
    WellOrdered(before) && (Accepts(Run(before), e) ==> Admissible(Log(before), EntryOf(e)))
  }

  ghost predicate Below(revs: seq<Revision>, r: Revision) {
    forall a :: a in revs ==> GreaterThan(r, a)
  }

  /** Everything in a later generation is newer than everything in an earlier one. */
  ghost predicate CrossOrdered(k: KeyState) {
    forall i, j, n :: 0 <= i < j < |k.generations| && 0 <= n < |k.generations[j].revs| ==>
      Below(k.generations[i].revs, k.generations[j].revs[n])
  }

  /** Closed generations end in their tombstones; the last of these is the last in the log. */
  ghost predicate TombEndsGeneration(k: KeyState, log: seq<Entry>) {
    var n := |k.generations|;
    && (LastTomb(log).Some? <==> n >= 2)
    && (n >= 2 ==> var revs := k.generations[n - 2].revs; revs != [] && revs[|revs| - 1] == LastTomb(log).value)
  }

  /** The newest revision at or before `at`, and whether it closes its generation. */
  function View(k: KeyState, at: int): Option<Entry> {
    var i := LatestStarted(k.generations, at);
    if i < 0 then None
    else
      var n := LastAtOrBefore(k.generations[i].revs, at);
      Some(Entry(k.generations[i].revs[n], IsClosing(k, i, n)))
  }

  lemma GetFromView(k: KeyState, at: int)
    requires !IsEmpty(k)
    ensures Answer(Get(k, at)) == (var e := View(k, at); if e.Some? && !e.value.tomb then Some(e.value.rev) else None)
  {
  }

  /** An insertion in front of position p shifts the rest; main numbers split at it. */
  lemma InsertShape(revs: seq<Revision>, rev: Revision)
    requires Sorted(revs)
    ensures var p, r := Position(revs, rev), Insert(revs, rev);
            && r[p] == rev
            && (forall j :: 0 <= j < p ==> r[j] == revs[j] && revs[j].main <= rev.main)
            && (forall j :: p < j < |r| ==> r[j] == revs[j - 1])
            && (forall j :: p <= j < |revs| ==> revs[j].main >= rev.main)
  {
    OlderBefore(revs, rev);
  }

  /** A revision later than `at` does not move the last position at or before `at`. */
  lemma InsertLater(revs: seq<Revision>, rev: Revision, at: int)
    requires Sorted(revs) && rev.main > at
    ensures var n, r := LastAtOrBefore(revs, at), Insert(revs, rev);
            LastAtOrBefore(r, at) == n && (n >= 0 ==> r[n] == revs[n])
    ensures Started(Generation(0, ZERO, Insert(revs, rev)), at) <==> Started(Generation(0, ZERO, revs), at)
  {
    InsertShape(revs, rev);
    var p, n, r := Position(revs, rev), LastAtOrBefore(revs, at), Insert(revs, rev);
    assert n < p;
    forall j | n < j < |r|
      ensures r[j].main > at
    {
      if j < p {
        assert r[j] == revs[j];
      } else if j > p {
        assert r[j] == revs[j - 1];
      }
    }
  }

  /** Any other moves it by one, to the newer of the two. */
  lemma InsertEarlier(revs: seq<Revision>, rev: Revision, at: int)
    requires Sorted(revs) && rev.main <= at
    ensures var n, r := LastAtOrBefore(revs, at), Insert(revs, rev);
            LastAtOrBefore(r, at) == n + 1 && r[n + 1] == if n >= 0 && !GreaterThan(rev, revs[n]) then revs[n] else rev
    ensures Started(Generation(0, ZERO, Insert(revs, rev)), at)
  {
    InsertShape(revs, rev);
    OlderBefore(revs, rev);
    var p, n, r := Position(revs, rev), LastAtOrBefore(revs, at), Insert(revs, rev);
    assert p <= n + 1;
    forall j | n + 1 < j < |r|
      ensures r[j].main > at
    {
      assert r[j] == revs[j - 1];
    }
    if p < n + 1 {
      assert r[n + 1] == revs[n];
    }
    assert r[0].main <= at by {
      if p > 0 {
        assert r[0] == revs[0];
      }
    }
  }

  lemma PutView(k: KeyState, rev: Revision, draw: int, at: int)
    requires Ordered(k)
    requires forall i :: 0 <= i < |k.generations| - 1 ==> Below(k.generations[i].revs, rev)
    ensures View(Put(k, rev, draw), at) == Newer(View(k, at), Entry(rev, false), at)
  {
    hide Put, View, Below;
    if rev.main > at {
      PutLaterView(k, rev, draw, at);
    } else {
      PutEarlierView(k, rev, draw, at);
    }
  }

  /** The view of generations that are all closed. */
  function ClosedPart(front: seq<Generation>, at: int): Option<Entry> {
    var i := LatestStarted(front, at);
    if i < 0 then None
    else
      var n := LastAtOrBefore(front[i].revs, at);
      if n < 0 then None else Some(Entry(front[i].revs[n], n == |front[i].revs| - 1))
  }

  /** A view is that of the current generation or, before it has started, of the closed ones. */
  lemma ViewSplits(k: KeyState, at: int)
    requires k.generations != []
    ensures var last := |k.generations| - 1;
            var revs := k.generations[last].revs;
            View(k, at) ==
            if Started(k.generations[last], at) then Some(Entry(revs[LastAtOrBefore(revs, at)], false))
            else ClosedPart(k.generations[..last], at)
  {
  }

  /** Only the last generation changes. */
  lemma PutShape(k: KeyState, rev: Revision, draw: int, at: int)
    requires Ordered(k)
    ensures var gens, gens' := Opened(k), Put(k, rev, draw).generations;
            var last := |gens| - 1;
            && |gens'| == |gens| && gens'[..last] == gens[..last] && gens'[last].revs == Insert(gens[last].revs, rev)
            && Sorted(gens[last].revs) && View(k.(generations := gens), at) == View(k, at)
  {
    hide Insert;
    SortedEmpty();
  }

  /** A revision later than `at` is not seen. */
  lemma PutLaterView(k: KeyState, rev: Revision, draw: int, at: int)
    requires Ordered(k) && rev.main > at
    ensures View(Put(k, rev, draw), at) == View(k, at)
  {
    PutShape(k, rev, draw, at);
    hide Put, Insert, Sorted, View, ClosedPart, Ordered;
    var gens := Opened(k);
    InsertLater(gens[|gens| - 1].revs, rev, at);
    ViewSplits(k.(generations := gens), at);
    ViewSplits(Put(k, rev, draw), at);
  }

  /** Any other is seen unless something newer is. */
  lemma PutEarlierView(k: KeyState, rev: Revision, draw: int, at: int)
    requires Ordered(k) && rev.main <= at
    requires forall i :: 0 <= i < |k.generations| - 1 ==> Below(k.generations[i].revs, rev)
    ensures View(Put(k, rev, draw), at) == Newer(View(k, at), Entry(rev, false), at)
  {
    PutShape(k, rev, draw, at);
    BelowOpened(k, rev, at);
    hide *;
    var gens, gens' := Opened(k), Put(k, rev, draw).generations;
    var last := |gens| - 1;
    ViewSplits(k.(generations := gens), at);
    ViewSplits(Put(k, rev, draw), at);
    NewerOfLast(gens[last], gens'[last], ClosedPart(gens[..last], at), rev, at);
  }

  /** What is in sight with the revision in the current generation, in terms of what was before. */
  lemma NewerOfLast(g: Generation, g': Generation, closed: Option<Entry>, rev: Revision, at: int)
    requires Sorted(g.revs) && rev.main <= at && g'.revs == Insert(g.revs, rev)
    requires closed.Some? ==> GreaterThan(rev, closed.value.rev)
    ensures Started(g', at)
    ensures var before := if Started(g, at) then Some(Entry(g.revs[LastAtOrBefore(g.revs, at)], false)) else closed;
            Some(Entry(g'.revs[LastAtOrBefore(g'.revs, at)], false)) == Newer(before, Entry(rev, false), at)
  {
    EarlierNewest(g, g', rev, at);
    hide Insert, Sorted, LastAtOrBefore, GreaterThan;
  }

  /** The newest of the current generation at or before `at`, once the revision is in it. */
  lemma EarlierNewest(g: Generation, g': Generation, rev: Revision, at: int)
    requires Sorted(g.revs) && rev.main <= at && g'.revs == Insert(g.revs, rev)
    ensures Started(g', at)
    ensures var r := g'.revs[LastAtOrBefore(g'.revs, at)];
            if Started(g, at) && !GreaterThan(rev, g.revs[LastAtOrBefore(g.revs, at)])
            then r == g.revs[LastAtOrBefore(g.revs, at)] else r == rev
  {
    InsertEarlier(g.revs, rev, at);
    if !Started(g, at) {
      NotStarted(g.revs, at);
    }
  }

  lemma BelowOpened(k: KeyState, rev: Revision, at: int)
    requires forall i :: 0 <= i < |k.generations| - 1 ==> Below(k.generations[i].revs, rev)
    ensures var front := Opened(k)[..|Opened(k)| - 1];
            ClosedPart(front, at).Some? ==> GreaterThan(rev, ClosedPart(front, at).value.rev)
  {
    ClosedBelow(Opened(k)[..|Opened(k)| - 1], rev, at);
  }

  lemma ClosedBelow(front: seq<Generation>, rev: Revision, at: int)
    requires forall i :: 0 <= i < |front| ==> Below(front[i].revs, rev)
    ensures ClosedPart(front, at).Some? ==> GreaterThan(rev, ClosedPart(front, at).value.rev)
  {
    var i := LatestStarted(front, at);
    assert i >= 0 ==> Below(front[i].revs, rev);
  }

  lemma SortedEmpty()
    ensures Sorted([])
  {
  }

  lemma NotStarted(revs: seq<Revision>, at: int)
    requires Sorted(revs)
    requires revs != [] ==> revs[0].main > at
    ensures LastAtOrBefore(revs, at) == -1
  {
  }

  lemma TombstoneView(k: KeyState, main: int, sub: int, draw: int, at: int)
    requires Ordered(k) && CanTombstone(k)
    requires forall i :: 0 <= i < |k.generations| ==> Below(k.generations[i].revs, Revision(main, sub, []))
    ensures View(Tombstone(k, main, sub, draw), at) == Newer(View(k, at), Entry(Revision(main, sub, []), true), at)
  {
    hide Insert, Sorted, Position, Below, View;
    var rev := Revision(main, sub, []);
    var p, last := Put(k, rev, draw), |k.generations| - 1;
    assert Below(k.generations[last].revs, rev);
    NewestCloses(k, rev);
    assert p.generations[last].revs == Current(k) + [rev];
    PutView(k, rev, draw, at);
    CloseView(p, at);
    if rev.main > at {
      UnclosedView(p, at);
    } else {
      PutKeepsOrdered(k, rev, draw);
      ClosedView(p, rev, at);
      ViewBelow(k, rev, at);
    }
  }

  /** Everything in sight is older than a revision that is newer than all. */
  lemma ViewBelow(k: KeyState, rev: Revision, at: int)
    requires forall i :: 0 <= i < |k.generations| ==> Below(k.generations[i].revs, rev)
    ensures View(k, at).Some? ==> GreaterThan(rev, View(k, at).value.rev)
  {
  }

  lemma UnclosedView(p: KeyState, at: int)
    requires p.generations != []
    requires var revs := p.generations[|p.generations| - 1].revs; revs != [] && revs[|revs| - 1].main > at
    ensures View(p.(generations := p.generations + [EMPTY_GENERATION]), at) == View(p, at)
  {
    CloseView(p, at);
  }

  lemma ClosedView(p: KeyState, rev: Revision, at: int)
    requires p.generations != []
    requires var revs := p.generations[|p.generations| - 1].revs;
             revs != [] && revs[|revs| - 1] == rev && rev.main <= at && Sorted(revs)
    ensures View(p.(generations := p.generations + [EMPTY_GENERATION]), at) == Some(Entry(rev, true))
  {
  }

  /** Opening an empty generation changes only whether the final revision closes. */
  lemma CloseView(p: KeyState, at: int)
    requires p.generations != []
    ensures var k', last := p.(generations := p.generations + [EMPTY_GENERATION]), |p.generations| - 1;
            var i := LatestStarted(p.generations, at);
            && (i < last ==> View(k', at) == View(p, at))
            && (i == last ==>
                  var n := LastAtOrBefore(p.generations[last].revs, at);
                  View(k', at) == Some(Entry(p.generations[last].revs[n], n == |p.generations[last].revs| - 1)))
  {
  }

  lemma NewestCloses(k: KeyState, rev: Revision)
    requires Current(k) != [] && Below(Current(k), rev)
    ensures Insert(Current(k), rev) == Current(k) + [rev]
  {
  }
}

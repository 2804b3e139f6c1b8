/** The mutable key index of pkg/index/key_index.go, method by method, against KeyStates. */
module KeyIndexes {
  import opened Bytes
  import opened Revisions
  import opened KeyStates

  datatype Status = Accepted | RevisionNotFound | NotLatest | TombstonePanics

  /** If the first generations already panic, the whole list does. */
  lemma PanicIsFinal(gens: seq<Generation>, n: nat, since: int)
    requires n <= |gens|
    requires ReportAll(Listed([]), since, Flatten(gens[..n])) == SincePanics
    ensures ReportAll(Listed([]), since, Flatten(gens)) == SincePanics
  {
    assert gens == gens[..n] + gens[n..];
    FlattenConcat(gens[..n], gens[n..]);
    ReportAllConcat(Listed([]), since, Flatten(gens[..n]), Flatten(gens[n..]));
    PanicStays(since, Flatten(gens[n..]));
  }

  class KeyIndex {
    const key: Key
    var modified: Revision
    var generations: seq<Generation>

    constructor (key: Key)
      ensures this.key == key && Value() == FRESH
    {
      this.key := key;
      modified := ZERO;
      generations := [];
    }

    ghost function Value(): KeyState
      reads this
    {
      KeyState(modified, generations)
    }

    /** The branch of put for a revision that is not the newest: search from the end, then insert. */
    static method InsertStale(revs: seq<Revision>, rev: Revision) returns (r: seq<Revision>)
      ensures r == Insert(revs, rev)
    {
      var i := |revs| - 1;
      while i >= 0 && !GreaterThan(rev, revs[i])
        invariant -1 <= i < |revs|
        invariant forall j :: i < j < |revs| ==> !GreaterThan(rev, revs[j])
      {
        i := i - 1;
      }
      assert Position(revs, rev) == i + 1;
      if i < 0 {
        r := [rev] + revs;
      } else {
        var tail := [rev] + revs[i + 1..];
        r := revs[..i + 1] + tail;
      }
    }

    /** Both branches of the source, append and search from the end, are one sorted insertion. */
    static method Grow(g: Generation, modified: Revision, rev: Revision, draw: int) returns (g': Generation)
      requires NoneNewer(g.revs, modified)
      ensures g' == Grown(g, rev, GreaterThan(rev, modified), draw)
    {
      g' := g;
      if |g.revs| == 0 {
        g' := g'.(created := Revision(draw, 0, []));
      }
      if !GreaterThan(rev, modified) {
        var revs := InsertStale(g.revs, rev);
        g' := g'.(revs := revs);
      } else {
        NewestGoesLast(g.revs, modified, rev);
        g' := g'.(revs := g.revs + [rev], ver := g.ver + 1);
      }
    }

    method Put(main: int, sub: int, nodes: seq<string>, draw: int)
      requires Ordered(Value())
      modifies this
      ensures Value() == KeyStates.Put(old(Value()), Revision(main, sub, nodes), draw)
    {
      var rev := Revision(main, sub, nodes);
      if |generations| == 0 {
        generations := generations + [EMPTY_GENERATION];
      }
      var last := |generations| - 1;
      var g := Grow(generations[last], modified, rev, draw);
      if GreaterThan(rev, modified) {
        modified := rev;
      }
      generations := generations[last := g];
    }

    /** Closes the current generation, or reports why it cannot. Without any generation the source
        indexes out of range. */
    method Tombstone(main: int, sub: int, draw: int) returns (status: Status)
      requires Ordered(Value())
      modifies this
      ensures status == TombstonePanics <==> old(generations == [] || IsEmpty(Value()))
      ensures status == Accepted <==> old(CanTombstone(Value()))
      ensures status == Accepted || status == TombstonePanics || status == RevisionNotFound
      ensures Value() == if status == Accepted then KeyStates.Tombstone(old(Value()), main, sub, draw) else old(Value())
    {
      if |generations| == 1 && |generations[0].revs| == 0 {
        return TombstonePanics;
      }
      if |generations| == 0 {
        return TombstonePanics;
      }
      if |generations[|generations| - 1].revs| == 0 {
        return RevisionNotFound;
      }
      Put(main, sub, [], draw);
      generations := generations + [EMPTY_GENERATION];
      status := Accepted;
    }

    /** A put that happens only when the latest main number is the assumed one. */
    method Update(main: int, sub: int, nodes: seq<string>, assumed: int, draw: int) returns (status: Status)
      requires Ordered(Value())
      modifies this
      ensures status == if old(modified).main == assumed then Accepted else NotLatest
      ensures Value() == if status == Accepted then KeyStates.Put(old(Value()), Revision(main, sub, nodes), draw)
                         else old(Value())
    {
      if modified.main != assumed {
        return NotLatest;
      }
      Put(main, sub, nodes, draw);
      status := Accepted;
    }

    /** The generation that `at` falls into; -1 before the first, in a gap, or after a tombstone. */
    method FindGeneration(at: int) returns (i: int)
      requires Ordered(Value())
      ensures -1 <= i < |generations|
      ensures i >= 0 ==> i == LatestStarted(generations, at) &&
                         !IsClosing(Value(), i, LastAtOrBefore(generations[i].revs, at))
      ensures i < 0 && LatestStarted(generations, at) >= 0 ==>
                var s := LatestStarted(generations, at);
                IsClosing(Value(), s, LastAtOrBefore(generations[s].revs, at))
    {
      var last := |generations| - 1;
      i := last;
      while i >= 0
        invariant -1 <= i <= last
        invariant forall j :: i < j <= last ==> !Started(generations[j], at)
      {
        var revs := generations[i].revs;
        if |revs| == 0 {
          i := i - 1;
          continue;
        }
        if i != last && revs[|revs| - 1].main <= at {
          assert Sorted(revs);
          return -1;
        }
        if revs[0].main <= at {
          return i;
        }
        i := i - 1;
      }
      i := -1;
    }

    /** walk with the predicate that get passes: the last position at or before `at`, or -1. */
    method Walk(g: Generation, at: int) returns (n: int)
      ensures n == LastAtOrBefore(g.revs, at)
    {
      var l := |g.revs|;
      for i := 0 to l
        invariant forall j :: l - i <= j < l ==> g.revs[j].main > at
      {
        if !(g.revs[l - i - 1].main > at) {
          return l - i - 1;
        }
      }
      n := -1;
    }

    method Get(at: int) returns (r: GetResult)
      requires Ordered(Value())
      ensures r == KeyStates.Get(Value(), at)
    {
      hide Ordered;
      if |generations| == 1 && |generations[0].revs| == 0 {
        return GetPanics;
      }
      var i := FindGeneration(at);
      if i < 0 {
        return NotFound;
      }
      var g := generations[i];
      var n := Walk(g, at);
      if n != -1 {
        return Found(g.revs[n], g.created, g.ver - (|g.revs| - n - 1));
      }
      r := NotFound;
    }

    /** The first loop of since: from the last generation down to one created before `rev`. */
    method FindStart(rev: int) returns (gi: nat)
      requires generations != []
      ensures gi == StartGeneration(generations, rev)
    {
      var since := Revision(rev, 0, []);
      gi := |generations| - 1;
      assert generations[..gi + 1] == generations;
      while gi > 0 && !(|generations[gi].revs| != 0 && GreaterThan(since, generations[gi].created))
        invariant 0 <= gi < |generations|
        invariant StartGeneration(generations[..gi + 1], rev) == StartGeneration(generations, rev)
      {
        assert generations[..gi + 1][..gi] == generations[..gi];
        gi := gi - 1;
      }
      assert generations[..gi + 1][gi] == generations[gi];
    }

    /** The inner loop of since over one generation; the source panics on revs[len(revs)-1] when
        the first revision it reports has main number 0. */
    static method Collect(soFar: seq<Revision>, rs: seq<Revision>, rev: int) returns (r: SinceResult)
      ensures r == ReportAll(Listed(soFar), rev, rs)
    {
      var since := Revision(rev, 0, []);
      var revs := soFar;
      var last := if soFar == [] then 0 else soFar[|soFar| - 1].main;
      for j := 0 to |rs|
        invariant last == if revs == [] then 0 else revs[|revs| - 1].main
        invariant Listed(revs) == ReportAll(Listed(soFar), rev, rs[..j])
      {
        var r := rs[j];
        assert rs[..j + 1][..j] == rs[..j];
        if GreaterThan(since, r) {
          continue;
        }
        if r.main == last {
          if |revs| == 0 {
            assert rs == rs[..j + 1] + rs[j + 1..];
            ReportAllConcat(Listed(soFar), rev, rs[..j + 1], rs[j + 1..]);
            PanicStays(rev, rs[j + 1..]);
            return SincePanics;
          }
          revs := revs[..|revs| - 1] + [r];
          continue;
        }
        revs := revs + [r];
        last := r.main;
      }
      assert rs[..|rs|] == rs;
      r := Listed(revs);
    }

    /** Without any generation the source indexes out of range. */
    method Since(rev: int) returns (r: SinceResult)
      ensures r == KeyStates.Since(Value(), rev)
    {
      if |generations| == 1 && |generations[0].revs| == 0 {
        return SincePanics;
      }
      if |generations| == 0 {
        return SincePanics;
      }
      var gi := FindStart(rev);
      ghost var gens := generations[gi..];
      ghost var start := gi;
      r := Listed([]);
      while gi < |generations|
        invariant start <= gi <= |generations|
        invariant r.Listed? && r == ReportAll(Listed([]), rev, Flatten(gens[..gi - start]))
      {
        ghost var n := gi - start;
        assert gens[..n + 1][..n] == gens[..n] && gens[n] == generations[gi];
        ReportAllConcat(Listed([]), rev, Flatten(gens[..n]), gens[n].revs);
        r := Collect(r.revs, generations[gi].revs, rev);
        gi := gi + 1;
        if r.SincePanics? {
          PanicIsFinal(gens, n + 1, rev);
          return;
        }
      }
      assert gens[..gi - start] == gens;
    }
  }
}

/**
 The index over all keys (pkg/index/index.go): an ordered tree of mutable key indexes. The
 B-tree is an ascending list of keys beside a map; each call is one atomic step.
 */
module TreeIndexes {
  import opened Bytes
  import opened Options
  import opened Revisions
  import opened KeyStates
  import opened Histories
  import opened KeyIndexes

  type Tree = map<Key, KeyState>

  function Lookup(t: Tree, key: Key): KeyState {
    if key in t then t[key] else FRESH
  }

  /** One call on one key; a rejected call changes nothing. */
  function TreeApply(t: Tree, key: Key, e: Event): Tree {
    if Accepts(Lookup(t, key), e) then t[key := Apply(Lookup(t, key), e)] else t
  }

  datatype Call = Call(key: Key, event: Event)

  function TreeRun(calls: seq<Call>): Tree {
    if calls == [] then map[]
    else TreeApply(TreeRun(calls[..|calls| - 1]), calls[|calls| - 1].key, calls[|calls| - 1].event)
  }

  lemma TreeRunSnoc(calls: seq<Call>, c: Call)
    ensures TreeRun(calls + [c]) == TreeApply(TreeRun(calls), c.key, c.event)
  {
    assert (calls + [c])[..|calls|] == calls;
  }

  function Project(calls: seq<Call>, key: Key): seq<Event> {
    if calls == [] then []
    else
      var before, c := Project(calls[..|calls| - 1], key), calls[|calls| - 1];
      if c.key == key then before + [c.event] else before
  }

  /** Keys do not interfere: each sees exactly the history of its own calls. */
  lemma {:induction false} TreeRunProjects(calls: seq<Call>, key: Key)
    ensures Lookup(TreeRun(calls), key) == Run(Project(calls, key))
    ensures key in TreeRun(calls) <==> Log(Project(calls, key)) != []
  {
    if calls != [] {
      var before, c := calls[..|calls| - 1], calls[|calls| - 1];
      TreeRunProjects(before, key);
      if c.key == key {
        assert Project(calls, key)[..|Project(before, key)|] == Project(before, key);
      }
    }
  }

  /** Through the tree no call ever meets an empty key index, so none of those panics happens. */
  lemma TreeNeverEmpty(calls: seq<Call>, key: Key)
    requires key in TreeRun(calls)
    ensures KeyStates.Valid(TreeRun(calls)[key]) && Ordered(TreeRun(calls)[key])
    ensures TreeRun(calls)[key].generations != [] && !IsEmpty(TreeRun(calls)[key])
  {
    TreeRunProjects(calls, key);
    RunIsValid(Project(calls, key));
  }

  lemma FreshIsOrdered()
    ensures Ordered(FRESH)
  {
  }

  // ---------------------------------------------------------------- ranges

  /** From `key` on and below `end`; an empty end is no bound. */
  predicate InRange(k: Key, key: Key, end: Key) {
    !Less(k, key) && (end == [] || Less(k, end))
  }

  /** From the key itself up to, but not including, the end. */
  lemma InRangeExactly(k: Key, key: Key, end: Key)
    ensures InRange(k, key, end) <==> (k == key || Less(key, k)) && (|end| > 0 ==> Less(k, end))
  {
    LessTotal(k, key);
  }

  ghost predicate Ascending(keys: seq<Key>) {
    forall i, j :: 0 <= i < j < |keys| ==> Less(keys[i], keys[j])
  }

  function SinceOf(t: Tree, k: Key, rev: int): SinceResult {
    Since(Lookup(t, k), rev)
  }

  /** Everything that since reports for the listed keys that are in range. */
  ghost function Combined(t: Tree, keys: seq<Key>, key: Key, end: Key, rev: int): multiset<Revision> {
    if keys == [] then multiset{}
    else
      var before, k := Combined(t, keys[..|keys| - 1], key, end, rev), keys[|keys| - 1];
      if InRange(k, key, end) && SinceOf(t, k, rev).Listed? then before + multiset(SinceOf(t, k, rev).revs) else before
  }

  lemma CombinedNone(t: Tree, key: Key, end: Key, rev: int)
    ensures Combined(t, [], key, end, rev) == multiset{}
  {
  }

  lemma CombinedNext(t: Tree, keys: seq<Key>, i: nat, key: Key, end: Key, rev: int)
    requires i < |keys|
    ensures Combined(t, keys[..i + 1], key, end, rev) ==
            Combined(t, keys[..i], key, end, rev) +
            if InRange(keys[i], key, end) && SinceOf(t, keys[i], rev).Listed?
            then multiset(SinceOf(t, keys[i], rev).revs) else multiset{}
  {
    assert keys[..i + 1][..i] == keys[..i];
  }

  lemma {:induction false} CombinedBeyond(t: Tree, keys: seq<Key>, n: nat, key: Key, end: Key, rev: int)
    requires n <= |keys|
    requires forall i :: n <= i < |keys| ==> !InRange(keys[i], key, end)
    ensures Combined(t, keys, key, end, rev) == Combined(t, keys[..n], key, end, rev)
    decreases |keys|
  {
    if n == |keys| {
      assert keys[..n] == keys;
    } else {
      assert keys[..|keys| - 1][..n] == keys[..n];
      CombinedBeyond(t, keys[..|keys| - 1], n, key, end, rev);
    }
  }

  /** sort.Sort with the order of revisions: some sorted permutation. */
  method SortRevisions(revs: seq<Revision>) returns (r: seq<Revision>)
    ensures Sorted(r) && multiset(r) == multiset(revs)
  {
    r := [];
    for i := 0 to |revs|
      invariant Sorted(r) && multiset(r) == multiset(revs[..i])
    {
      InsertKeepsSorted(r, revs[i]);
      InsertContents(r, revs[i]);
      assert revs[..i + 1] == revs[..i] + [revs[i]];
      r := Insert(r, revs[i]);
    }
    assert revs[..|revs|] == revs;
  }

  // ---------------------------------------------------------------- the tree

  class TreeIndex {
    var keys: seq<Key>
    var tree: map<Key, KeyIndex>

    /** Every call so far, accepted or not. */
    ghost var calls: seq<Call>

    constructor ()
      ensures Valid() && calls == [] && fresh(tree.Values)
    {
      keys := [];
      tree := map[];
      calls := [];
    }

    ghost predicate Valid()
      reads this, tree.Values
    {
      && Ascending(keys)
      && (forall k :: k in tree <==> k in keys)
      && tree.Keys == Value().Keys
      && (forall k :: k in tree ==> tree[k].key == k && tree[k].Value() == Value()[k])
    }

    /** What the tree holds is determined by the calls made on it. */
    ghost function Value(): Tree
      reads this
    {
      TreeRun(calls)
    }

    method Put(key: Key, rev: Revision, draw: int)
      requires Valid()
      modifies this, tree.Values
      ensures Valid() && fresh(tree.Values - old(tree.Values))
      ensures calls == old(calls) + [Call(key, Event(PutKind, rev, draw))]
    {
      hide KeyStates.Put, KeyStates.Valid, Ordered, Ascending, TreeRun;
      TreeRunSnoc(calls, Call(key, Event(PutKind, rev, draw)));
      if key !in tree {
        FreshIsOrdered();
        var ki := new KeyIndex(key);
        ki.Put(rev.main, rev.sub, rev.nodes, draw);
        Add(key, ki, Call(key, Event(PutKind, rev, draw)));
      } else {
        TreeNeverEmpty(calls, key);
        tree[key].Put(rev.main, rev.sub, rev.nodes, draw);
        calls := calls + [Call(key, Event(PutKind, rev, draw))];
      }
    }

    /** ReplaceOrInsert of a key index that is not in the tree yet. */
    method Add(key: Key, ki: KeyIndex, ghost call: Call)
      requires Valid() && key !in tree && ki.key == key
      requires TreeRun(calls + [call]) == Value()[key := ki.Value()]
      modifies this
      ensures Valid() && tree == old(tree)[key := ki]
      ensures calls == old(calls) + [call]
    {
      hide TreeRun, InsertKey, Ascending;
      keys := InsertKey(keys, key);
      tree := tree[key := ki];
      calls := calls + [call];
    }

    method Tombstone(key: Key, rev: Revision, draw: int) returns (status: Status)
      requires Valid()
      modifies this`calls, tree.Values
      ensures Valid()
      ensures calls == old(calls) + [Call(key, Event(TombstoneKind, rev, draw))]
      ensures status == if CanTombstone(Lookup(old(Value()), key)) then Accepted else RevisionNotFound
    {
      hide KeyStates.Tombstone, KeyStates.Valid, Ordered, Ascending, TreeRun;
      TreeRunSnoc(calls, Call(key, Event(TombstoneKind, rev, draw)));
      calls := calls + [Call(key, Event(TombstoneKind, rev, draw))];
      if key !in tree {
        return RevisionNotFound;
      }
      TreeNeverEmpty(old(calls), key);
      status := tree[key].Tombstone(rev.main, rev.sub, draw);
    }

    method Update(key: Key, rev: Revision, assumed: int, draw: int) returns (status: Status)
      requires Valid()
      modifies this`calls, tree.Values
      ensures Valid()
      ensures calls == old(calls) + [Call(key, Event(UpdateKind(assumed), rev, draw))]
      ensures status == RevisionNotFound <==> key !in old(Value())
      ensures status == Accepted <==> Accepts(Lookup(old(Value()), key), Event(UpdateKind(assumed), rev, draw))
    {
      hide KeyStates.Put, KeyStates.Valid, Ordered, Ascending, TreeRun;
      TreeRunSnoc(calls, Call(key, Event(UpdateKind(assumed), rev, draw)));
      calls := calls + [Call(key, Event(UpdateKind(assumed), rev, draw))];
      if key !in tree {
        return RevisionNotFound;
      }
      TreeNeverEmpty(old(calls), key);
      status := tree[key].Update(rev.main, rev.sub, rev.nodes, assumed, draw);
    }

    /** At 0 the latest revision is meant. */
    method Get(key: Key, at: int) returns (r: GetResult)
      requires Valid()
      ensures r != GetPanics
      ensures key !in Value() ==> r == NotFound
      ensures key in Value() ==> r == KeyStates.Get(Value()[key], if at == 0 then Value()[key].modified.main else at)
    {
      if key !in tree {
        return NotFound;
      }
      TreeNeverEmpty(calls, key);
      if at == 0 {
        r := tree[key].Get(tree[key].modified.main);
      } else {
        r := tree[key].Get(at);
      }
    }

    /** The callback of the ascending walk: appends one list per key, until the end is reached. */
    method CollectRange(key: Key, end: Key, rev: int) returns (r: SinceResult)
      requires Valid()
      ensures r.SincePanics? <==> exists k :: k in keys && InRange(k, key, end) && SinceOf(Value(), k, rev).SincePanics?
      ensures r.Listed? ==> multiset(r.revs) == Combined(Value(), keys, key, end, rev)
    {
      hide SinceOf, TreeRun, Less, Ascending, Combined;
      CombinedNone(Value(), key, end, rev);
      ghost var t := Value();
      var revs: seq<Revision> := [];
      var i := 0;
      while i < |keys|
        invariant 0 <= i <= |keys|
        invariant multiset(revs) == Combined(t, keys[..i], key, end, rev)
        invariant forall j :: 0 <= j < i && InRange(keys[j], key, end) ==> SinceOf(t, keys[j], rev).Listed?
      {
        var k := keys[i];
        CombinedNext(t, keys, i, key, end, rev);
        if !Less(k, key) {
          if end != [] && !Less(k, end) {
            BeyondEnd(keys, i, key, end);
            break;
          }
          var rs := SinceAt(k, rev);
          if rs.SincePanics? {
            assert k in keys;
            return SincePanics;
          }
          revs := revs + rs.revs;
        }
        i := i + 1;
      }
      CombinedBeyond(t, keys, i, key, end, rev);
      r := Listed(revs);
    }

    method SinceAt(key: Key, rev: int) returns (r: SinceResult)
      requires Valid() && key in keys
      ensures r == SinceOf(Value(), key, rev)
    {
      TreeNeverEmpty(calls, key);
      r := tree[key].Since(rev);
    }

    /** Without an end, one key's list; with one, the sorted combination over the range. */
    method RangeSince(key: Key, end: Option<Key>, rev: int) returns (r: SinceResult)
      requires Valid()
      ensures end.None? ==> r == if key in keys then SinceOf(Value(), key, rev) else Listed([])
      ensures end.Some? ==>
                (r.SincePanics? <==>
                 exists k :: k in keys && InRange(k, key, end.value) && SinceOf(Value(), k, rev).SincePanics?)
      ensures end.Some? && r.Listed? ==>
                Sorted(r.revs) && multiset(r.revs) == Combined(Value(), keys, key, end.value, rev)
    {
      if end.None? {
        if key !in tree {
          return Listed([]);
        }
        r := SinceAt(key, rev);
      } else {
        r := CollectRange(key, end.value, rev);
        if r.Listed? {
          var sorted := SortRevisions(r.revs);
          r := Listed(sorted);
        }
      }
    }
  }

  lemma BeyondEnd(keys: seq<Key>, i: nat, key: Key, end: Key)
    requires Ascending(keys) && i < |keys| && end != [] && !Less(keys[i], end)
    ensures forall j :: i <= j < |keys| ==> !InRange(keys[j], key, end)
  {
    forall j | i <= j < |keys|
      ensures !Less(keys[j], end)
    {
      if j > i && Less(keys[j], end) {
        LessTransitive(keys[i], keys[j], end);
      }
    }
  }

  /** ReplaceOrInsert of a new key. */
  function InsertKey(keys: seq<Key>, key: Key): (r: seq<Key>)
    requires Ascending(keys) && key !in keys
    ensures Ascending(r)
    ensures forall k :: k in r <==> k in keys || k == key
  {
    if keys == [] then [key]
    else
      var last := keys[|keys| - 1];
      LessTotal(last, key);
      if Less(last, key) then AscendingSnoc(keys, key); keys + [key]
      else
        var front := InsertKey(keys[..|keys| - 1], key);
        AscendingSnoc(front, last);
        assert keys == keys[..|keys| - 1] + [last];
        front + [last]
  }

  lemma AscendingSnoc(keys: seq<Key>, key: Key)
    requires Ascending(keys)
    requires keys != [] ==> Less(keys[|keys| - 1], key)
    ensures Ascending(keys + [key])
  {
    forall i | 0 <= i < |keys|
      ensures Less(keys[i], key)
    {
      if i < |keys| - 1 {
        LessTransitive(keys[i], keys[|keys| - 1], key);
      }
    }
  }
}

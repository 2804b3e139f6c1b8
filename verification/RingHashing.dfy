/** Ring hashing (pkg/partition/consistent/ring.go). */
module RingHashing {
  import opened Division
  import opened Mixing
  import opened Sequences
  import opened RendezvousHashing

  /** Nodes by name, their hashes in order, and nodes by hash. */
  datatype RingState = RingState(nodes: map<string, Node>, sorted: seq<int>, ring: map<int, Node>)

  const EMPTY_RING := RingState(map[], [], map[])

  function Spot(hash: Hasher, name: string): nat {
    Number(hash(name))
  }

  ghost predicate NonDecreasing(s: seq<int>) {
    forall i, j :: 0 <= i < j < |s| ==> s[i] <= s[j]
  }

  function InsertSorted(s: seq<int>, x: int): (r: seq<int>)
    ensures |r| == |s| + 1
    ensures forall y :: y in r <==> y in s || y == x
    ensures multiset(r) == multiset(s) + multiset{x}
  {
    if s == [] then [x]
    else
      var n := |s| - 1;
      assert s == s[..n] + [s[n]];
      if s[n] <= x then s + [x] else InsertSorted(s[..n], x) + [s[n]]
  }

  lemma AppendKeeps(s: seq<int>, x: int)
    requires NonDecreasing(s) && forall y :: y in s ==> y <= x
    ensures NonDecreasing(s + [x])
    ensures Increasing(s) && x !in s ==> Increasing(s + [x])
  {
    assert forall i :: 0 <= i < |s| ==> s[i] in s;
  }

  lemma {:induction false} InsertSortedKeeps(s: seq<int>, x: int)
    requires NonDecreasing(s)
    ensures NonDecreasing(InsertSorted(s, x))
    ensures Increasing(s) && x !in s ==> Increasing(InsertSorted(s, x))
  {
    if s != [] {
      var n := |s| - 1;
      DropKeeps(s);
      hide NonDecreasing, Increasing;
      if s[n] <= x {
        AppendKeeps(s, x);
      } else {
        InsertSortedKeeps(s[..n], x);
        AppendKeeps(InsertSorted(s[..n], x), s[n]);
      }
    }
  }

  lemma DropKeeps(s: seq<int>)
    requires NonDecreasing(s) && s != []
    ensures NonDecreasing(s[..|s| - 1]) && forall y :: y in s ==> y <= s[|s| - 1]
    ensures Increasing(s) ==> Increasing(s[..|s| - 1]) && s[|s| - 1] !in s[..|s| - 1]
    ensures forall y :: y in s <==> y in s[..|s| - 1] || y == s[|s| - 1]
  {
    assert s == s[..|s| - 1] + [s[|s| - 1]];
  }

  /** AddNode: a known name is ignored, whatever else it comes with. */
  function Add(hash: Hasher, r: RingState, node: Node): RingState {
    if node.name in r.nodes then r
    else
      var h := Spot(hash, node.name);
      RingState(r.nodes[node.name := node], InsertSorted(r.sorted, h), r.ring[h := node])
  }

  function AddAll(hash: Hasher, ns: seq<Node>): RingState {
    if ns == [] then EMPTY_RING else Add(hash, AddAll(hash, ns[..|ns| - 1]), ns[|ns| - 1])
  }

  /** What lookups rely on: as many hashes as names, in order, each with a node. */
  ghost predicate Covered(r: RingState) {
    && |r.sorted| == |r.nodes|
    && NonDecreasing(r.sorted)
    && forall h :: h in r.sorted ==> h in r.ring
  }

  lemma AddKeepsCovered(hash: Hasher, r: RingState, node: Node)
    requires Covered(r)
    ensures Covered(Add(hash, r, node))
  {
    InsertSortedKeeps(r.sorted, Spot(hash, node.name));
  }

  lemma {:induction false} AddAllIsCovered(hash: Hasher, ns: seq<Node>)
    ensures Covered(AddAll(hash, ns))
  {
    if ns != [] {
      AddAllIsCovered(hash, ns[..|ns| - 1]);
      AddKeepsCovered(hash, AddAll(hash, ns[..|ns| - 1]), ns[|ns| - 1]);
    }
  }

  function PartitionId(hash: Hasher, r: RingState, key: string): int {
    if |r.nodes| == 0 then -1 else Spot(hash, key) % |r.nodes|
  }

  lemma PartitionIsRemainder(hash: Hasher, r: RingState, key: string)
    requires |r.nodes| > 0
    ensures exists q :: IsRemainder(Spot(hash, key), |r.nodes|, PartitionId(hash, r, key), q)
  {
    hide Spot;
    var h, n := Spot(hash, key), |r.nodes|;
    assert IsRemainder(h, n, PartitionId(hash, r, key), h / n);
  }

  /** Keys share a partition exactly if the number of nodes divides the difference of their hashes. */
  lemma SamePartition(hash: Hasher, r: RingState, a: string, b: string)
    requires |r.nodes| > 0
    ensures PartitionId(hash, r, a) == PartitionId(hash, r, b) <==>
            exists d :: IsApart(Spot(hash, a), Spot(hash, b), |r.nodes|, d)
  {
    PartitionIsRemainder(hash, r, a);
    PartitionIsRemainder(hash, r, b);
    hide Spot, PartitionId, IsRemainder, IsApart;
    var p :| IsRemainder(Spot(hash, a), |r.nodes|, PartitionId(hash, r, a), p);
    var q :| IsRemainder(Spot(hash, b), |r.nodes|, PartitionId(hash, r, b), q);
    SameRemainder(Spot(hash, a), Spot(hash, b), |r.nodes|, PartitionId(hash, r, a), PartitionId(hash, r, b), p, q);
  }

  /** What LocateNodes returns: the nodes at consecutive hashes from the key's partition on. */
  function LocateOnRing(hash: Hasher, key: string, r: RingState, count: int): Located
    requires Covered(r)
  {
    if |r.nodes| < count || |r.nodes| == 0 then NilNodes
    else if count < 0 then LocatePanics
    else
      var spots := Around(r.sorted, PartitionId(hash, r, key), |r.nodes|, count);
      Nodes(seq(count, i requires 0 <= i < count => assert spots[i] in r.sorted; r.ring[spots[i]]))
  }

  // ---------------------------------------------------------------- placement laws

  /** Different names and different spots. */
  ghost predicate DistinctNodes(hash: Hasher, ns: seq<Node>) {
    forall i, j :: 0 <= i < j < |ns| ==>
      ns[i].name != ns[j].name && Spot(hash, ns[i].name) != Spot(hash, ns[j].name)
  }

  /** The ring that a set of distinct nodes determines. */
  ghost predicate IsRingOf(hash: Hasher, r: RingState, ns: set<Node>) {
    NamesAre(r, ns) && SpotsAre(hash, r, ns) && SortedIs(r)
  }

  ghost predicate NamesAre(r: RingState, ns: set<Node>) {
    && (forall name :: name in r.nodes ==> r.nodes[name] in ns && r.nodes[name].name == name)
    && (forall n :: n in ns ==> n.name in r.nodes && r.nodes[n.name] == n)
  }

  ghost predicate SpotsAre(hash: Hasher, r: RingState, ns: set<Node>) {
    && (forall h :: h in r.ring ==> r.ring[h] in ns && Spot(hash, r.ring[h].name) == h)
    && (forall n :: n in ns ==> Spot(hash, n.name) in r.ring && r.ring[Spot(hash, n.name)] == n)
  }

  ghost predicate SortedIs(r: RingState) {
    Increasing(r.sorted) && forall h :: h in r.sorted <==> h in r.ring
  }

  lemma {:induction false} AddAllIsRingOf(hash: Hasher, ns: seq<Node>)
    requires DistinctNodes(hash, ns)
    ensures IsRingOf(hash, AddAll(hash, ns), Elements(ns))
    ensures |AddAll(hash, ns).sorted| == |ns|
  {
    if ns != [] {
      var n := |ns| - 1;
      ElementsSnoc(ns);
      AddAllIsRingOf(hash, ns[..n]);
      AddAllIsCovered(hash, ns[..n]);
      assert NonDecreasing(AddAll(hash, ns[..n]).sorted);
      assert forall a :: a in ns[..n] ==> a.name != ns[n].name && Spot(hash, a.name) != Spot(hash, ns[n].name);
      hide IsRingOf, Add, Covered, DistinctNodes, NonDecreasing, Elements, Spot;
      AddIsRingOf(hash, AddAll(hash, ns[..n]), ns[..n], ns[n]);
    }
  }

  lemma ElementsSnoc(ns: seq<Node>)
    requires ns != []
    ensures Elements(ns) == Elements(ns[..|ns| - 1]) + {ns[|ns| - 1]}
  {
    assert ns == ns[..|ns| - 1] + [ns[|ns| - 1]];
  }

  lemma AddIsRingOf(hash: Hasher, r: RingState, ns: seq<Node>, node: Node)
    requires IsRingOf(hash, r, Elements(ns)) && NonDecreasing(r.sorted)
    requires forall n :: n in ns ==> n.name != node.name && Spot(hash, n.name) != Spot(hash, node.name)
    ensures IsRingOf(hash, Add(hash, r, node), Elements(ns) + {node})
    ensures |Add(hash, r, node).sorted| == |r.sorted| + 1
  {
    var h := Spot(hash, node.name);
    assert forall n :: n in Elements(ns) ==> n in ns;
    assert node.name !in r.nodes && h !in r.ring;
    hide Spot, Elements, SortedIs, NamesAre, SpotsAre;
    AddNames(hash, r, Elements(ns), node);
    AddSpots(hash, r, Elements(ns), node);
    AddSorted(hash, r, node);
  }

  lemma AddNames(hash: Hasher, r: RingState, ns: set<Node>, node: Node)
    requires NamesAre(r, ns) && node.name !in r.nodes
    ensures NamesAre(Add(hash, r, node), ns + {node})
  {
    hide InsertSorted, Spot;
  }

  lemma AddSpots(hash: Hasher, r: RingState, ns: set<Node>, node: Node)
    requires SpotsAre(hash, r, ns) && node.name !in r.nodes && Spot(hash, node.name) !in r.ring
    ensures SpotsAre(hash, Add(hash, r, node), ns + {node})
  {
    hide InsertSorted, Spot;
  }

  lemma AddSorted(hash: Hasher, r: RingState, node: Node)
    requires SortedIs(r) && NonDecreasing(r.sorted) && node.name !in r.nodes && Spot(hash, node.name) !in r.ring
    ensures SortedIs(Add(hash, r, node)) && |Add(hash, r, node).sorted| == |r.sorted| + 1
  {
    hide Spot, InsertSorted;
    InsertSortedKeeps(r.sorted, Spot(hash, node.name));
    hide Increasing, NonDecreasing;
  }

  /** The same nodes in any order make the same ring, and so every lookup the same answer. */
  lemma RingIgnoresOrder(hash: Hasher, ns: seq<Node>, ms: seq<Node>)
    requires DistinctNodes(hash, ns) && DistinctNodes(hash, ms) && Elements(ns) == Elements(ms)
    ensures AddAll(hash, ns) == AddAll(hash, ms)
  {
    AddAllIsRingOf(hash, ns);
    AddAllIsRingOf(hash, ms);
    hide AddAll, DistinctNodes, Elements;
    RingIsDetermined(hash, AddAll(hash, ns), AddAll(hash, ms), Elements(ns));
  }

  lemma RingIsDetermined(hash: Hasher, r: RingState, q: RingState, all: set<Node>)
    requires IsRingOf(hash, r, all) && IsRingOf(hash, q, all)
    ensures r == q
  {
    SameNames(hash, r, q, all);
    SameNames(hash, q, r, all);
    SameSpots(hash, r, q, all);
    SameSpots(hash, q, r, all);
    SortedIsRing(hash, r, all);
    SortedIsRing(hash, q, all);
    hide IsRingOf, Spot;
    SameMap(r.nodes, q.nodes);
    forall h | h in r.ring.Keys
      ensures r.ring[h] == q.ring[h]
    {
    }
    SameMap(r.ring, q.ring);
    IncreasingUnique(r.sorted, q.sorted);
  }

  lemma SortedIsRing(hash: Hasher, r: RingState, all: set<Node>)
    requires IsRingOf(hash, r, all)
    ensures Increasing(r.sorted) && forall h :: h in r.sorted <==> h in r.ring
  {
  }

  lemma SameNames(hash: Hasher, r: RingState, q: RingState, all: set<Node>)
    requires IsRingOf(hash, r, all) && IsRingOf(hash, q, all)
    ensures r.nodes.Keys <= q.nodes.Keys
    ensures forall name :: name in r.nodes.Keys ==> r.nodes[name] == q.nodes[name]
  {
  }

  lemma SameSpots(hash: Hasher, r: RingState, q: RingState, all: set<Node>)
    requires IsRingOf(hash, r, all) && IsRingOf(hash, q, all)
    ensures r.ring.Keys <= q.ring.Keys
    ensures forall h :: h in r.ring.Keys ==> r.ring[h] == q.ring[h]
  {
    forall h | h in r.ring
      ensures h in q.ring && r.ring[h] == q.ring[h]
    {
      assert r.ring[h] in all;
    }
  }

  /** Up to all nodes can be located, without repetition, also across the end of the ring. */
  lemma RingLocateIsDistinct(hash: Hasher, key: string, ns: seq<Node>, count: int)
    requires DistinctNodes(hash, ns) && 1 <= count <= |ns|
    ensures Covered(AddAll(hash, ns))
    ensures var r := LocateOnRing(hash, key, AddAll(hash, ns), count);
            && r.Nodes? && |r.nodes| == count && NoDuplicates(r.nodes)
            && forall i :: 0 <= i < count ==> r.nodes[i] in ns
  {
    AddAllIsCovered(hash, ns);
    AddAllIsRingOf(hash, ns);
    hide AddAll, DistinctNodes;
    LocatedAreDistinct(hash, key, AddAll(hash, ns), ns, count);
  }

  lemma LocatedAreDistinct(hash: Hasher, key: string, r: RingState, ns: seq<Node>, count: int)
    requires IsRingOf(hash, r, Elements(ns)) && Covered(r) && 1 <= count <= |r.sorted|
    ensures var l := LocateOnRing(hash, key, r, count);
            && l.Nodes? && |l.nodes| == count && NoDuplicates(l.nodes)
            && forall i :: 0 <= i < count ==> l.nodes[i] in ns
  {
    var p := PartitionId(hash, r, key);
    var spots, nodes := Around(r.sorted, p, |r.nodes|, count), LocateOnRing(hash, key, r, count).nodes;
    SpotsDiffer(r, p, count);
    forall i | 0 <= i < count
      ensures nodes[i] in ns && Spot(hash, nodes[i].name) == spots[i]
    {
      assert spots[i] in r.sorted;
      SpotOf(hash, r, ns, spots[i]);
    }
  }

  lemma SpotsDiffer(r: RingState, p: nat, count: nat)
    requires SortedIs(r) && 0 < |r.nodes| == |r.sorted| && p < |r.nodes| && count <= |r.nodes|
    ensures NoDuplicates(Around(r.sorted, p, |r.nodes|, count))
  {
    AroundNoDuplicates(r.sorted, p, |r.nodes|, count);
  }

  lemma SpotOf(hash: Hasher, r: RingState, ns: seq<Node>, h: int)
    requires IsRingOf(hash, r, Elements(ns)) && h in r.sorted
    ensures h in r.ring && r.ring[h] in ns && Spot(hash, r.ring[h].name) == h
  {
    hide Spot, NamesAre;
    assert r.ring[h] in Elements(ns);
  }

  // ---------------------------------------------------------------- which nodes they are

  /** The hashes of nodes below h. */
  ghost function SmallerSpots(hash: Hasher, ns: seq<Node>, h: int): set<int> {
    set n | n in ns && Spot(hash, n.name) < h :: Spot(hash, n.name)
  }

  /** In ascending order the element at position p has p smaller ones. */
  lemma SmallerCount(s: seq<int>, p: nat)
    requires Increasing(s) && p < |s|
    ensures |set h | h in s && h < s[p]| == p
  {
    assert (set h | h in s && h < s[p]) == Elements(s[..p]) by {
      forall h | h in s && h < s[p]
        ensures h in s[..p]
      {
        var i :| 0 <= i < |s| && s[i] == h;
        assert i < p;
      }
    }
    assert NoDuplicates(s[..p]);
    ElementsCount(s[..p]);
  }

  lemma SortedSpots(hash: Hasher, r: RingState, ns: seq<Node>, h: int)
    requires IsRingOf(hash, r, Elements(ns))
    ensures h in r.sorted <==> exists n :: n in ns && Spot(hash, n.name) == h
  {
    hide Spot, NamesAre;
    if h in r.sorted {
      SpotOf(hash, r, ns, h);
    }
    if n :| n in ns && Spot(hash, n.name) == h {
      assert n in Elements(ns);
    }
  }

  lemma SmallerIsPosition(hash: Hasher, r: RingState, ns: seq<Node>, p: nat)
    requires IsRingOf(hash, r, Elements(ns)) && p < |r.sorted|
    ensures |SmallerSpots(hash, ns, r.sorted[p])| == p
  {
    SmallerCount(r.sorted, p);
    hide Spot, NamesAre, SpotsAre;
    var below := set h | h in r.sorted && h < r.sorted[p];
    forall h
      ensures h in SmallerSpots(hash, ns, r.sorted[p]) <==> h in below
    {
      hide SortedIs;
      SortedSpots(hash, r, ns, h);
    }
    assert SmallerSpots(hash, ns, r.sorted[p]) == below;
  }

  lemma FirstIsAtPartition(hash: Hasher, key: string, r: RingState, ns: seq<Node>, count: int)
    requires IsRingOf(hash, r, Elements(ns)) && Covered(r) && 1 <= count <= |r.nodes|
    ensures LocateOnRing(hash, key, r, count).Nodes? && |LocateOnRing(hash, key, r, count).nodes| == count
    ensures var p := PartitionId(hash, r, key);
            0 <= p < |r.sorted| && Spot(hash, LocateOnRing(hash, key, r, count).nodes[0].name) == r.sorted[p]
  {
    hide *;
    FoundAt(hash, key, r, ns, count, 0);
    TurnNone(PartitionId(hash, r, key), |r.nodes|);
  }

  lemma TurnNone(p: nat, n: nat)
    requires p < n
    ensures Turn(p, 0, n) == p
  {
    WrapAround(p, 0, n);
  }

  /** The first node of a key has as many hashes below it as its own hash leaves over the number of nodes. */
  lemma RingFirst(hash: Hasher, key: string, ns: seq<Node>, count: int)
    requires DistinctNodes(hash, ns) && 1 <= count <= |ns|
    ensures Covered(AddAll(hash, ns)) && LocateOnRing(hash, key, AddAll(hash, ns), count).Nodes?
    ensures |LocateOnRing(hash, key, AddAll(hash, ns), count).nodes| == count
    ensures var first := LocateOnRing(hash, key, AddAll(hash, ns), count).nodes[0];
            exists q :: IsRemainder(Spot(hash, key), |ns|, |SmallerSpots(hash, ns, Spot(hash, first.name))|, q)
  {
    AddAllIsCovered(hash, ns);
    AddAllIsRingOf(hash, ns);
    hide AddAll, DistinctNodes, Spot, IsRingOf, SmallerSpots, LocateOnRing, IsRemainder, PartitionId;
    var r := AddAll(hash, ns);
    FirstIsAtPartition(hash, key, r, ns, count);
    PartitionIsRemainder(hash, r, key);
    SmallerIsPosition(hash, r, ns, PartitionId(hash, r, key));
  }

  /** The next hash on the ring, after the largest the smallest. */
  ghost predicate IsNextSpot(hash: Hasher, ns: seq<Node>, h: int, next: int) {
    || (h < next && forall n :: n in ns ==> !(h < Spot(hash, n.name) < next))
    || (forall n :: n in ns ==> next <= Spot(hash, n.name) <= h)
  }

  lemma NextInOrder(s: seq<int>, p: nat)
    requires Increasing(s) && p < |s|
    ensures var next := s[Turn(p, 1, |s|)];
            || (s[p] < next && forall h :: h in s ==> !(s[p] < h < next))
            || (forall h :: h in s ==> next <= h <= s[p])
  {
    WrapAround(p, if |s| == 1 then 0 else 1, |s|);
  }

  /** And each further node is at the next hash. */
  lemma RingFollows(hash: Hasher, key: string, ns: seq<Node>, count: int, i: nat)
    requires DistinctNodes(hash, ns) && i + 1 < count <= |ns|
    ensures Covered(AddAll(hash, ns)) && LocateOnRing(hash, key, AddAll(hash, ns), count).Nodes?
    ensures |LocateOnRing(hash, key, AddAll(hash, ns), count).nodes| == count
    ensures var r := LocateOnRing(hash, key, AddAll(hash, ns), count).nodes;
            IsNextSpot(hash, ns, Spot(hash, r[i].name), Spot(hash, r[i + 1].name))
  {
    AddAllIsCovered(hash, ns);
    AddAllIsRingOf(hash, ns);
    hide AddAll, DistinctNodes, Spot, IsRingOf, IsNextSpot;
    FollowsOnRing(hash, key, AddAll(hash, ns), ns, count, i);
  }

  lemma FollowsOnRing(hash: Hasher, key: string, r: RingState, ns: seq<Node>, count: int, i: nat)
    requires IsRingOf(hash, r, Elements(ns)) && Covered(r) && i + 1 < count <= |r.nodes|
    ensures LocateOnRing(hash, key, r, count).Nodes? && |LocateOnRing(hash, key, r, count).nodes| == count
    ensures var l := LocateOnRing(hash, key, r, count).nodes;
            IsNextSpot(hash, ns, Spot(hash, l[i].name), Spot(hash, l[i + 1].name))
  {
    var p, n := PartitionId(hash, r, key), |r.nodes|;
    hide *;
    FoundAt(hash, key, r, ns, count, i);
    FoundAt(hash, key, r, ns, count, i + 1);
    NextPlace(p, i, n);
    NextOnRing(hash, r, ns, Turn(p, i, n));
  }

  /** The i-th place from p on, around n of them. */
  function Turn(p: nat, i: nat, n: nat): (t: nat)
    requires n > 0
    ensures t < n
  {
    (p + i) % n
  }

  lemma NextPlace(p: nat, i: nat, n: nat)
    requires p < n && i + 1 < n
    ensures Turn(p, i + 1, n) == Turn(Turn(p, i, n), 1, n)
  {
    WrapAround(p, i, n);
    WrapAround(p, i + 1, n);
    WrapAround((p + i) % n, 1, n);
  }

  lemma FoundAt(hash: Hasher, key: string, r: RingState, ns: seq<Node>, count: int, i: nat)
    requires IsRingOf(hash, r, Elements(ns)) && Covered(r) && i < count <= |r.nodes|
    ensures LocateOnRing(hash, key, r, count).Nodes? && |LocateOnRing(hash, key, r, count).nodes| == count
    ensures 0 <= PartitionId(hash, r, key) < |r.nodes| == |r.sorted|
    ensures Spot(hash, LocateOnRing(hash, key, r, count).nodes[i].name) ==
            r.sorted[Turn(PartitionId(hash, r, key), i, |r.nodes|)]
  {
    SpotOf(hash, r, ns, r.sorted[(PartitionId(hash, r, key) + i) % |r.nodes|]);
    hide IsRingOf;
  }

  lemma NextOnRing(hash: Hasher, r: RingState, ns: seq<Node>, p: nat)
    requires IsRingOf(hash, r, Elements(ns)) && p < |r.sorted|
    ensures IsNextSpot(hash, ns, r.sorted[p], r.sorted[Turn(p, 1, |r.sorted|)])
  {
    NextInOrder(r.sorted, p);
    hide Spot, NamesAre, SpotsAre, SortedIs;
    forall x | x in ns
      ensures Spot(hash, x.name) in r.sorted
    {
      SortedSpots(hash, r, ns, Spot(hash, x.name));
    }
  }

  // ---------------------------------------------------------------- the table

  /** sort.Slice on numbers: the sorted permutation. */
  method SortNumbers(s: seq<int>) returns (r: seq<int>)
    ensures NonDecreasing(r) && multiset(r) == multiset(s)
  {
    r := [];
    for i := 0 to |s|
      invariant NonDecreasing(r) && multiset(r) == multiset(s[..i])
    {
      InsertSortedKeeps(r, s[i]);
      assert s[..i + 1] == s[..i] + [s[i]];
      r := InsertSorted(r, s[i]);
    }
    assert s[..|s|] == s;
  }

  lemma {:induction false} SortedPermutationUnique(a: seq<int>, b: seq<int>)
    requires NonDecreasing(a) && NonDecreasing(b) && multiset(a) == multiset(b)
    ensures a == b
  {
    assert |a| == |b| by {
      assert |multiset(a)| == |a| && |multiset(b)| == |b|;
    }
    if a != [] {
      SameLargest(a, b);
      WithoutLargest(a);
      WithoutLargest(b);
      SortedPermutationUnique(a[..|a| - 1], b[..|b| - 1]);
    }
  }

  lemma SameLargest(a: seq<int>, b: seq<int>)
    requires NonDecreasing(a) && NonDecreasing(b) && multiset(a) == multiset(b) && |a| == |b| > 0
    ensures a[|a| - 1] == b[|b| - 1]
  {
    var n := |a| - 1;
    assert a[n] in multiset(b) && b[n] in multiset(a);
    assert a[n] in b && b[n] in a;
  }

  lemma WithoutLargest(a: seq<int>)
    requires NonDecreasing(a) && a != []
    ensures NonDecreasing(a[..|a| - 1])
    ensures multiset(a[..|a| - 1]) == multiset(a) - multiset{a[|a| - 1]}
    ensures a == a[..|a| - 1] + [a[|a| - 1]]
  {
    assert a == a[..|a| - 1] + [a[|a| - 1]];
  }

  class Ring {
    const hash: Hasher
    var nodes: map<string, Node>
    var sortedSet: seq<int>
    var ring: map<int, Node>

    ghost function Value(): RingState
      reads this
    {
      RingState(nodes, sortedSet, ring)
    }

    constructor (hash: Hasher)
      ensures this.hash == hash && Value() == EMPTY_RING
    {
      this.hash := hash;
      nodes := map[];
      sortedSet := [];
      ring := map[];
    }

    method AddNode(node: Node)
      requires Covered(Value())
      modifies this
      ensures Value() == Add(hash, old(Value()), node) && Covered(Value())
      ensures node.name in old(nodes) ==> Value() == old(Value())
      ensures node.name !in old(nodes) ==>
                && nodes == old(nodes)[node.name := node] && ring == old(ring)[Spot(hash, node.name) := node]
                && multiset(sortedSet) == multiset(old(sortedSet)) + multiset{Spot(hash, node.name)}
    {
      AddKeepsCovered(hash, Value(), node);
      if node.name in nodes {
        return;
      }
      var hKey := Spot(hash, node.name);
      ring := ring[hKey := node];
      var appended := sortedSet + [hKey];
      InsertSortedKeeps(sortedSet, hKey);
      ghost var expected := InsertSorted(sortedSet, hKey);
      sortedSet := SortNumbers(appended);
      SortedPermutationUnique(sortedSet, expected);
      nodes := nodes[node.name := node];
    }

    method FindPartitionID(key: string) returns (id: int)
      ensures id == PartitionId(hash, Value(), key)
      ensures |nodes| == 0 ==> id == -1
      ensures |nodes| > 0 ==> 0 <= id < |nodes| && exists q :: IsRemainder(Spot(hash, key), |nodes|, id, q)
    {
      if |nodes| == 0 {
        return -1;
      }
      PartitionIsRemainder(hash, Value(), key);
      id := Spot(hash, key) % |nodes|;
    }

    method LocateNodes(key: string, count: int) returns (r: Located)
      requires Covered(Value())
      ensures r == LocateOnRing(hash, key, Value(), count)
    {
      if |nodes| < count {
        return NilNodes;
      }
      var partID := FindPartitionID(key);
      if partID < 0 {
        return NilNodes;
      }
      if count < 0 {
        return LocatePanics;
      }
      var res: seq<Node> := [];
      for i := 0 to count
        invariant |res| == i
        invariant forall j :: 0 <= j < i ==>
          sortedSet[(partID + j) % |nodes|] in ring && res[j] == ring[sortedSet[(partID + j) % |nodes|]]
      {
        var h := sortedSet[(partID + i) % |nodes|];
        assert h in sortedSet;
        if h !in ring {
          return NilNodes;
        }
        res := res + [ring[h]];
      }
      assert res == LocateOnRing(hash, key, Value(), count).nodes;
      r := Nodes(res);
    }
  }
}

/**
 Zone-aware placement: what the hashing manager (pkg/partition/consistent/hashing.go) gives a key,
 a local node in each of its zones and remote nodes beside them.
 */
module Zones {
  import opened Division
  import opened Mixing
  import opened Sequences
  import opened RendezvousHashing
  import opened RingHashing
  import opened Configurations
  import opened NodeLists

  // ---------------------------------------------------------------- the manager

  datatype Kind = UseRendezvous | UseRing

  /** Either table, as determined by the nodes added to it, in order. */
  function LocateIn(kind: Kind, hash: Hasher, key: string, ns: seq<Node>, count: int): Located {
    if kind == UseRing then AddAllIsCovered(hash, ns); LocateOnRing(hash, key, AddAll(hash, ns), count)
    else Locate(hash, key, ns, count)
  }

  /** The zones as nodes of a table of their own. */
  function ZoneNodes(order: seq<string>): (ns: seq<Node>)
    ensures |ns| == |order| && forall i :: 0 <= i < |ns| ==> ns[i] == Node(order[i], 0, false)
  {
    seq(|order|, i requires 0 <= i < |order| => Node(order[i], 0, false))
  }

  /** Tables are lists of nodes; `order` is the order in which the zones were visited. */
  datatype Manager = Manager(kind: Kind, hash: Hasher, order: seq<string>, local: map<string, seq<Node>>,
                             remote: seq<Node>, latency: map<string, int>, localCount: int, remoteCount: int)

  /** For a ring the spots must differ as well. */
  ghost predicate Tableable(kind: Kind, hash: Hasher, ns: seq<Node>) {
    DistinctNames(ns) && (kind == UseRing ==> DistinctNodes(hash, ns))
  }

  /** Each zone is listed once and has nodes, and every table is a proper one. */
  ghost predicate TablesOk(m: Manager) {
    && NoDuplicates(m.order)
    && (forall z :: z in m.order <==> z in m.local)
    && (forall z :: z in m.local ==> m.local[z] != [] && Tableable(m.kind, m.hash, m.local[z]))
    && Tableable(m.kind, m.hash, ZoneNodes(m.order))
    && Tableable(m.kind, m.hash, m.remote)
  }

  /** A name belongs to one zone. */
  ghost predicate NamesOk(m: Manager) {
    forall z, y, a, b :: (z in m.local && y in m.local && a in m.local[z] && b in m.local[y]) ==>
      (a.name == b.name ==> z == y)
  }

  ghost predicate LatenciesOk(m: Manager) {
    forall z, a :: z in m.local && a in m.local[z] ==> a.name in m.latency && m.latency[a.name] == a.latency
  }

  ghost predicate ManagerOk(m: Manager) {
    TablesOk(m) && NamesOk(m) && LatenciesOk(m)
  }

  lemma LocateInIsDistinct(kind: Kind, hash: Hasher, key: string, ns: seq<Node>, count: int)
    requires Tableable(kind, hash, ns) && 1 <= count
    ensures LocateIn(kind, hash, key, ns, count).Nodes? <==> count <= |ns|
    ensures LocateIn(kind, hash, key, ns, count) != LocatePanics
    ensures count <= |ns| ==>
              var r := LocateIn(kind, hash, key, ns, count).nodes;
              |r| == count && NoDuplicates(r) && forall i :: 0 <= i < count ==> r[i] in ns
  {
    assert NoDuplicates(ns);
    ElementsCount(ns);
    if kind == UseRing {
      AddAllIsRingOf(hash, ns);
      AddAllIsCovered(hash, ns);
      hide AddAll, IsRingOf, DistinctNodes;
      if count <= |ns| {
        RingLocateIsDistinct(hash, key, ns, count);
      }
    } else {
      hide OwnerIndex;
      if count <= |ns| {
        LocateIsDistinct(hash, key, ns, count);
      }
    }
  }

  /** On a ring the first node is the one at the partition of the key in ascending hashes, in a rendezvous
      table one with the highest score. */
  ghost predicate IsFirst(kind: Kind, hash: Hasher, key: string, ns: seq<Node>, first: Node) {
    && first in ns
    && (kind == UseRing ==>
          exists q :: IsRemainder(Spot(hash, key), |ns|, |SmallerSpots(hash, ns, Spot(hash, first.name))|, q))
    && (kind == UseRendezvous ==>
          forall n :: n in ns ==> Blend(hash(key), hash(n.name)) <= Blend(hash(key), hash(first.name)))
  }

  lemma LocateInFirst(kind: Kind, hash: Hasher, key: string, ns: seq<Node>, count: int)
    requires Tableable(kind, hash, ns) && 1 <= count <= |ns|
    ensures LocateIn(kind, hash, key, ns, count).Nodes? && |LocateIn(kind, hash, key, ns, count).nodes| == count
    ensures IsFirst(kind, hash, key, ns, LocateIn(kind, hash, key, ns, count).nodes[0])
  {
    LocateInIsDistinct(kind, hash, key, ns, count);
    if kind == UseRing {
      hide AddAll, SmallerSpots, Spot, LocateOnRing, IsRemainder;
      RingFirst(hash, key, ns, count);
    } else {
      assert NoDuplicates(ns);
      hide Blend, OwnerIndex;
      LocateIsDistinct(hash, key, ns, count);
      OwnerIndexOwns(hash, key, ns);
    }
  }

  // ---------------------------------------------------------------- sync and async nodes

  ghost predicate AscendingLatency(ns: seq<Node>) {
    forall i, j :: 0 <= i < j < |ns| ==> ns[i].latency <= ns[j].latency
  }

  function InsertByLatency(ns: seq<Node>, x: Node): (r: seq<Node>)
    ensures multiset(r) == multiset(ns) + multiset{x}
    ensures forall y :: y in r <==> y in ns || y == x
  {
    if ns == [] then [x]
    else
      var n := |ns| - 1;
      assert ns == ns[..n] + [ns[n]];
      if ns[n].latency <= x.latency then ns + [x] else InsertByLatency(ns[..n], x) + [ns[n]]
  }

  lemma AppendSlowest(ns: seq<Node>, x: Node)
    requires AscendingLatency(ns) && forall y :: y in ns ==> y.latency <= x.latency
    ensures AscendingLatency(ns + [x])
  {
    assert forall i :: 0 <= i < |ns| ==> ns[i] in ns;
  }

  lemma DropSlowest(ns: seq<Node>)
    requires AscendingLatency(ns) && ns != []
    ensures AscendingLatency(ns[..|ns| - 1])
    ensures forall y :: y in ns ==> y.latency <= ns[|ns| - 1].latency
    ensures forall y :: y in ns[..|ns| - 1] ==> y in ns
  {
  }

  lemma {:induction false} InsertByLatencyKeeps(ns: seq<Node>, x: Node)
    requires AscendingLatency(ns)
    ensures AscendingLatency(InsertByLatency(ns, x))
  {
    if ns != [] {
      var n := |ns| - 1;
      DropSlowest(ns);
      hide AscendingLatency;
      if ns[n].latency <= x.latency {
        AppendSlowest(ns, x);
      } else {
        InsertByLatencyKeeps(ns[..n], x);
        AppendSlowest(InsertByLatency(ns[..n], x), ns[n]);
      }
    }
  }

  /** sort.Slice by latency: some permutation in ascending latency. */
  method SortByLatency(ns: seq<Node>) returns (r: seq<Node>)
    ensures AscendingLatency(r) && multiset(r) == multiset(ns)
  {
    r := [];
    for i := 0 to |ns|
      invariant AscendingLatency(r) && multiset(r) == multiset(ns[..i])
    {
      InsertByLatencyKeeps(r, ns[i]);
      assert ns[..i + 1] == ns[..i] + [ns[i]];
      r := InsertByLatency(r, ns[i]);
    }
    assert ns[..|ns|] == ns;
  }

  /** A node of the zone, up to the remote flag, which GetSyncNodes does not carry over. */
  ghost predicate PickedFrom(m: Manager, zone: string, picked: Node) {
    zone in m.local && exists a :: a in m.local[zone] && a.name == picked.name && a.latency == picked.latency
  }

  ghost predicate AtHome(m: Manager, picked: Node) {
    exists zone :: PickedFrom(m, zone, picked)
  }

  /** Pairwise different zones: no zone is home to two of the nodes. */
  ghost predicate DifferentZones(m: Manager, ns: seq<Node>) {
    && (forall i :: 0 <= i < |ns| ==> AtHome(m, ns[i]))
    && (forall i, j, z :: 0 <= i < j < |ns| && PickedFrom(m, z, ns[i]) ==> !PickedFrom(m, z, ns[j]))
  }

  datatype Placed = Placed(nodes: seq<Node>) | PlaceError | PlacePanics

  /** The node that a zone gives for a key; a name without a latency counts as 0. */
  function Pick(m: Manager, key: string, zone: string): (p: Placed)
    ensures p.Placed? ==> |p.nodes| == 1
  {
    if zone !in m.local then PlacePanics
    else
      match LocateIn(m.kind, m.hash, key, m.local[zone], 1)
      case NilNodes => PlaceError
      case LocatePanics => PlacePanics
      case Nodes(ns) =>
        if |ns| != 1 then PlaceError
        else Placed([Node(ns[0].name, if ns[0].name in m.latency then m.latency[ns[0].name] else 0, false)])
  }

  /** What the zones give, one node each. */
  function Picks(m: Manager, key: string, azs: seq<Node>): (ns: seq<Node>)
    requires forall i :: 0 <= i < |azs| ==> Pick(m, key, azs[i].name).Placed?
  {
    seq(|azs|, i requires 0 <= i < |azs| => Pick(m, key, azs[i].name).nodes[0])
  }

  /** The zones that the key falls into. */
  function ZonesOf(m: Manager, key: string): Located {
    LocateIn(m.kind, m.hash, key, ZoneNodes(m.order), m.localCount)
  }

  /** Every zone of a proper manager has a node to give. */
  lemma PickGives(m: Manager, key: string, zone: string)
    requires ManagerOk(m) && zone in m.local
    ensures Pick(m, key, zone).Placed? && |Pick(m, key, zone).nodes| == 1
    ensures PickedFrom(m, zone, Pick(m, key, zone).nodes[0])
  {
    LocateInIsDistinct(m.kind, m.hash, key, m.local[zone], 1);
    var chosen := LocateIn(m.kind, m.hash, key, m.local[zone], 1).nodes[0];
    assert chosen in m.local[zone];
  }

  /** The key decides: which zone comes first, and which node of a zone is picked. */
  lemma KeyDecides(m: Manager, key: string, zone: string)
    requires ManagerOk(m) && zone in m.local
    ensures exists n :: IsFirst(m.kind, m.hash, key, m.local[zone], n) &&
              Pick(m, key, zone) == Placed([Node(n.name, n.latency, false)])
    ensures 1 <= m.localCount <= |m.order| ==>
              && ZonesOf(m, key).Nodes? && |ZonesOf(m, key).nodes| == m.localCount
              && IsFirst(m.kind, m.hash, key, ZoneNodes(m.order), ZonesOf(m, key).nodes[0])
  {
    hide IsFirst, LocateIn;
    LocateInFirst(m.kind, m.hash, key, m.local[zone], 1);
    LocateInIsDistinct(m.kind, m.hash, key, m.local[zone], 1);
    var n := LocateIn(m.kind, m.hash, key, m.local[zone], 1).nodes[0];
    assert n in m.local[zone];
    assert Pick(m, key, zone) == Placed([Node(n.name, n.latency, false)]);
    if 1 <= m.localCount <= |m.order| {
      LocateInFirst(m.kind, m.hash, key, ZoneNodes(m.order), m.localCount);
    }
  }

  lemma ZonesGive(m: Manager, key: string, azs: seq<Node>)
    requires ManagerOk(m) && forall i :: 0 <= i < |azs| ==> azs[i] in ZoneNodes(m.order)
    ensures forall i :: 0 <= i < |azs| ==>
              var p := Pick(m, key, azs[i].name);
              p.Placed? && |p.nodes| == 1 && PickedFrom(m, azs[i].name, p.nodes[0])
  {
    forall i | 0 <= i < |azs|
      ensures var p := Pick(m, key, azs[i].name);
              p.Placed? && |p.nodes| == 1 && PickedFrom(m, azs[i].name, p.nodes[0])
    {
      assert azs[i].name in m.order;
      PickGives(m, key, azs[i].name);
    }
  }

  lemma PickedAreDifferent(m: Manager, azs: seq<Node>, ns: seq<Node>, i: nat, j: nat)
    requires ManagerOk(m) && OnePerZone(m, azs, ns) && i < |ns| && j < |ns| && i != j
    ensures ns[i] != ns[j]
    ensures forall z :: PickedFrom(m, z, ns[i]) ==> !PickedFrom(m, z, ns[j])
  {
  }

  /** One node for each zone: its own, and no other's. */
  ghost predicate OnePerZone(m: Manager, azs: seq<Node>, ns: seq<Node>) {
    && NoDuplicates(azs) && |ns| == |azs|
    && forall k :: 0 <= k < |azs| ==> azs[k] in ZoneNodes(m.order) && PickedFrom(m, azs[k].name, ns[k])
  }

  lemma PermutedPlace(ns: seq<Node>, sorted: seq<Node>, i: nat) returns (a: nat)
    requires multiset(sorted) == multiset(ns) && i < |sorted|
    ensures a < |ns| && ns[a] == sorted[i]
  {
    assert sorted[i] in multiset(sorted);
    a :| a < |ns| && ns[a] == sorted[i];
  }

  /** Sorting by latency keeps one node per zone. */
  lemma SortedAreDifferent(m: Manager, azs: seq<Node>, ns: seq<Node>, sorted: seq<Node>)
    requires ManagerOk(m) && OnePerZone(m, azs, ns) && multiset(sorted) == multiset(ns)
    ensures |sorted| == |ns| && DifferentZones(m, sorted)
  {
    hide ManagerOk, PickedFrom;
    assert |sorted| == |ns| by {
      assert |multiset(sorted)| == |sorted| && |multiset(ns)| == |ns|;
    }
    forall i, j | 0 <= i < j < |ns|
      ensures ns[i] != ns[j]
    {
      PickedAreDifferent(m, azs, ns, i, j);
    }
    PermutationNoDuplicates(ns, sorted);
    forall i | 0 <= i < |sorted|
      ensures AtHome(m, sorted[i])
    {
      var a := PermutedPlace(ns, sorted, i);
      assert PickedFrom(m, azs[a].name, ns[a]);
    }
    forall i, j, z | 0 <= i < j < |sorted| && PickedFrom(m, z, sorted[i])
      ensures !PickedFrom(m, z, sorted[j])
    {
      var a := PermutedPlace(ns, sorted, i);
      var b := PermutedPlace(ns, sorted, j);
      PickedAreDifferent(m, azs, ns, a, b);
    }
  }

  /** The loop over the located zones, with its early exits. */
  method PickPerZone(m: Manager, key: string, azs: seq<Node>) returns (r: Placed)
    ensures r.Placed? <==> forall i :: 0 <= i < |azs| ==> Pick(m, key, azs[i].name).Placed?
    ensures r.Placed? ==> r.nodes == Picks(m, key, azs)
  {
    var nodes: seq<Node> := [];
    for i := 0 to |azs|
      invariant |nodes| == i
      invariant forall j :: 0 <= j < i ==> Pick(m, key, azs[j].name) == Placed([nodes[j]])
    {
      var picked := Pick(m, key, azs[i].name);
      if !picked.Placed? {
        return picked;
      }
      nodes := nodes + picked.nodes;
    }
    r := Placed(nodes);
  }

  /** The requested number of local nodes, no two in one zone, nearest first. */
  ghost predicate SyncSet(m: Manager, ns: seq<Node>) {
    && |ns| == (if m.localCount < 1 then 0 else m.localCount)
    && AscendingLatency(ns)
    && DifferentZones(m, ns)
  }

  /** The requested number of different remote nodes. */
  ghost predicate AsyncSet(m: Manager, ns: seq<Node>) {
    && |ns| == (if m.remoteCount < 1 then 0 else m.remoteCount)
    && NoDuplicates(ns)
    && forall i :: 0 <= i < |ns| ==> ns[i] in m.remote
  }

  /** The nodes that the zones of a key give, in some order of ascending latency. */
  ghost predicate SyncGiven(m: Manager, key: string, ns: seq<Node>) {
    if m.localCount < 1 then ns == []
    else
      && ZonesOf(m, key).Nodes? && |ZonesOf(m, key).nodes| == m.localCount
      && (forall az :: az in ZonesOf(m, key).nodes ==> Pick(m, key, az.name).Placed?)
      && multiset(ns) == multiset(Picks(m, key, ZonesOf(m, key).nodes))
      && AscendingLatency(ns)
  }

  /** The nodes that the remote table gives for a key. */
  ghost predicate AsyncGiven(m: Manager, key: string, ns: seq<Node>) {
    if m.remoteCount < 1 then ns == []
    else LocateIn(m.kind, m.hash, key, m.remote, m.remoteCount) == Nodes(ns) && |ns| == m.remoteCount
  }

  predicate EnoughZones(m: Manager) {
    m.localCount < 1 || m.localCount <= |m.order|
  }

  predicate EnoughRemotes(m: Manager) {
    m.remoteCount < 1 || m.remoteCount <= |m.remote|
  }

  /** A proper manager gives zones exactly if there are enough, and each of them gives a node. */
  lemma ZonesAreGiven(m: Manager, key: string)
    requires ManagerOk(m) && m.localCount >= 1
    ensures ZonesOf(m, key) != LocatePanics
    ensures ZonesOf(m, key).Nodes? <==> EnoughZones(m)
    ensures ZonesOf(m, key).Nodes? ==>
              var azs := ZonesOf(m, key).nodes;
              && |azs| == m.localCount
              && (forall az :: az in azs ==> Pick(m, key, az.name).Placed?)
              && OnePerZone(m, azs, Picks(m, key, azs))
  {
    LocateInIsDistinct(m.kind, m.hash, key, ZoneNodes(m.order), m.localCount);
    if ZonesOf(m, key).Nodes? {
      hide LocateIn, Pick, PickedFrom;
      ZonesGive(m, key, ZonesOf(m, key).nodes);
    }
  }

  /** Whatever is given by a proper manager is a proper set. */
  lemma SyncGivenIsSet(m: Manager, key: string, ns: seq<Node>)
    requires ManagerOk(m) && SyncGiven(m, key, ns)
    ensures SyncSet(m, ns)
  {
    hide ManagerOk, PickedFrom, ZonesOf, Pick;
    if m.localCount >= 1 {
      ZonesAreGiven(m, key);
      SortedAreDifferent(m, ZonesOf(m, key).nodes, Picks(m, key, ZonesOf(m, key).nodes), ns);
    }
  }

  lemma AsyncGivenIsSet(m: Manager, key: string, ns: seq<Node>)
    requires ManagerOk(m) && AsyncGiven(m, key, ns)
    ensures AsyncSet(m, ns)
  {
    if m.remoteCount >= 1 {
      LocateInIsDistinct(m.kind, m.hash, key, m.remote, m.remoteCount);
    }
  }

  /** The key decides on the remote nodes as well. */
  lemma KeyDecidesAsync(m: Manager, key: string, ns: seq<Node>)
    requires ManagerOk(m) && AsyncGiven(m, key, ns) && m.remoteCount >= 1
    ensures ns != [] && IsFirst(m.kind, m.hash, key, m.remote, ns[0])
  {
    hide LocateIn, IsFirst;
    LocateInIsDistinct(m.kind, m.hash, key, m.remote, m.remoteCount);
    LocateInFirst(m.kind, m.hash, key, m.remote, m.remoteCount);
  }

  /** Zones for the key, one node in each, nearest first. */
  method GetSyncNodes(m: Manager, key: string) returns (r: Placed)
    ensures r.Placed? ==> SyncGiven(m, key, r.nodes)
    ensures ManagerOk(m) ==> r == PlaceError || r.Placed?
    ensures ManagerOk(m) ==> (r.Placed? <==> EnoughZones(m))
  {
    hide LocateIn, Pick, ManagerOk, OnePerZone;
    if m.localCount < 1 {
      return Placed([]);
    }
    if ManagerOk(m) {
      ZonesAreGiven(m, key);
    }
    var azs := ZonesOf(m, key);
    if azs.LocatePanics? {
      return PlacePanics;
    }
    if azs.NilNodes? || |azs.nodes| != m.localCount {
      return PlaceError;
    }
    r := PickPerZone(m, key, azs.nodes);
    if r.Placed? {
      var sorted := SortByLatency(r.nodes);
      r := Placed(sorted);
    }
  }

  /** Remote nodes for the key, in the order of their table. */
  method GetAsyncNodes(m: Manager, key: string) returns (r: Placed)
    ensures r.Placed? ==> AsyncGiven(m, key, r.nodes)
    ensures ManagerOk(m) ==> r == PlaceError || r.Placed?
    ensures ManagerOk(m) ==> (r.Placed? <==> EnoughRemotes(m))
  {
    if m.remoteCount < 1 {
      return Placed([]);
    }
    if ManagerOk(m) {
      LocateInIsDistinct(m.kind, m.hash, key, m.remote, m.remoteCount);
    }
    match LocateIn(m.kind, m.hash, key, m.remote, m.remoteCount)
    case LocatePanics => r := PlacePanics;
    case NilNodes => r := PlaceError;
    case Nodes(ns) => r := if |ns| != m.remoteCount then PlaceError else Placed(ns);
  }

  function Names(ns: seq<Node>): (names: seq<string>)
    ensures |names| == |ns| && forall i :: 0 <= i < |ns| ==> names[i] == ns[i].name
  {
    seq(|ns|, i requires 0 <= i < |ns| => ns[i].name)
  }

  datatype Lists = Lists(lists: seq<string>) | ListError | ListPanics

  /** Both sets as comma-joined names, sync first. */
  ghost predicate ListsOf(lists: seq<string>, sync: seq<Node>, async: seq<Node>) {
    lists == [Join(Names(sync)), Join(Names(async))]
  }

  /** What GetNodes may return for a key. */
  ghost predicate Given(m: Manager, key: string, lists: seq<string>) {
    exists sync, async :: SyncGiven(m, key, sync) && AsyncGiven(m, key, async) && ListsOf(lists, sync, async)
  }

  method GetNodes(m: Manager, key: string) returns (r: Lists)
    ensures r.Lists? ==> Given(m, key, r.lists)
    ensures ManagerOk(m) ==> r != ListPanics
    ensures ManagerOk(m) ==> (r.Lists? <==> EnoughZones(m) && EnoughRemotes(m))
  {
    hide ManagerOk, SyncGiven, AsyncGiven, EnoughZones, EnoughRemotes;
    var sync := GetSyncNodes(m, key);
    if sync.PlacePanics? {
      return ListPanics;
    }
    if sync.PlaceError? {
      return ListError;
    }
    var async := GetAsyncNodes(m, key);
    if async.PlacePanics? {
      return ListPanics;
    }
    if async.PlaceError? {
      return ListError;
    }
    r := Lists([Join(Names(sync.nodes)), Join(Names(async.nodes))]);
    assert ListsOf(r.lists, sync.nodes, async.nodes);
  }

  // ---------------------------------------------------------------- that something is given

  function SortedByLatency(ns: seq<Node>): seq<Node> {
    if ns == [] then [] else InsertByLatency(SortedByLatency(ns[..|ns| - 1]), ns[|ns| - 1])
  }

  lemma {:induction false} SortedByLatencySorts(ns: seq<Node>)
    ensures AscendingLatency(SortedByLatency(ns)) && multiset(SortedByLatency(ns)) == multiset(ns)
  {
    if ns != [] {
      var n := |ns| - 1;
      SortedByLatencySorts(ns[..n]);
      InsertByLatencyKeeps(SortedByLatency(ns[..n]), ns[n]);
      assert ns == ns[..n] + [ns[n]];
    }
  }

  lemma SyncIsGiven(m: Manager, key: string) returns (ns: seq<Node>)
    requires ManagerOk(m) && EnoughZones(m)
    ensures SyncGiven(m, key, ns)
  {
    hide ManagerOk, LocateIn, Pick, OnePerZone;
    ns := [];
    if m.localCount >= 1 {
      ZonesAreGiven(m, key);
      var picks := Picks(m, key, ZonesOf(m, key).nodes);
      SortedByLatencySorts(picks);
      ns := SortedByLatency(picks);
    }
  }

  lemma AsyncIsGiven(m: Manager, key: string) returns (ns: seq<Node>)
    requires ManagerOk(m) && EnoughRemotes(m)
    ensures AsyncGiven(m, key, ns)
  {
    ns := [];
    if m.remoteCount >= 1 {
      LocateInIsDistinct(m.kind, m.hash, key, m.remote, m.remoteCount);
      ns := LocateIn(m.kind, m.hash, key, m.remote, m.remoteCount).nodes;
    }
  }

  /** A proper manager with enough zones and remote nodes has something for every key. */
  lemma SomethingIsGiven(m: Manager, key: string)
    requires ManagerOk(m) && EnoughZones(m) && EnoughRemotes(m)
    ensures exists lists :: Given(m, key, lists)
  {
    hide ManagerOk, SyncGiven, AsyncGiven;
    var sync := SyncIsGiven(m, key);
    var async := AsyncIsGiven(m, key);
    assert ListsOf([Join(Names(sync)), Join(Names(async))], sync, async);
    assert Given(m, key, [Join(Names(sync)), Join(Names(async))]);
  }
}

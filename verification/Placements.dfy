/**
 From the configuration to the nodes of a key: building the hashing manager
 (pkg/partition/consistent/hashing.go) and asking it for a key, as the server does on every create.
 */
module Placements {
  import opened Options
  import opened Sequences
  import opened RendezvousHashing
  import opened RingHashing
  import opened Configurations
  import opened NodeLists
  import opened Zones

  // ---------------------------------------------------------------- building the manager

  /** Latencies by name; later nodes of the same name win. */
  function Noted(latency: map<string, int>, ns: seq<Node>): map<string, int> {
    if ns == [] then latency
    else
      var n := |ns| - 1;
      Noted(latency, ns[..n])[ns[n].name := ns[n].latency]
  }

  function NotedZones(order: seq<string>, local: map<string, seq<Node>>): map<string, int>
    requires forall z :: z in order ==> z in local
  {
    if order == [] then map[]
    else
      var n := |order| - 1;
      Noted(NotedZones(order[..n], local), local[order[n]])
  }

  /** The last node of a name. */
  ghost predicate IsLastNamed(ns: seq<Node>, name: string, i: int) {
    0 <= i < |ns| && ns[i].name == name && forall j :: i < j < |ns| ==> ns[j].name != name
  }

  lemma {:induction false} LastIsNoted(latency: map<string, int>, ns: seq<Node>, name: string, i: int)
    requires IsLastNamed(ns, name, i)
    ensures name in Noted(latency, ns) && Noted(latency, ns)[name] == ns[i].latency
  {
    var n := |ns| - 1;
    if i < n {
      LastIsNoted(latency, ns[..n], name, i);
    }
  }

  method NoteAll(latency: map<string, int>, ns: seq<Node>) returns (r: map<string, int>)
    ensures r == Noted(latency, ns)
  {
    r := latency;
    for i := 0 to |ns|
      invariant r == Noted(latency, ns[..i])
    {
      r := r[ns[i].name := ns[i].latency];
      assert ns[..i + 1][..i] == ns[..i];
    }
    assert ns[..|ns|] == ns;
  }

  /** The zones come in some order, each one once. */
  method NewSyncAsyncHashingManager(kind: Kind, hash: Hasher, local: map<string, seq<Node>>, localCount: int,
                                    remote: seq<Node>, remoteCount: int) returns (m: Manager)
    ensures NoDuplicates(m.order) && forall z :: z in m.order <==> z in local
    ensures m == Manager(kind, hash, m.order, local, remote, Noted(NotedZones(m.order, local), remote),
                         localCount, remoteCount)
  {
    var order: seq<string>, latency: map<string, int>, rest := [], map[], local.Keys;
    while rest != {}
      invariant rest <= local.Keys && NoDuplicates(order)
      invariant forall z :: z in order <==> z in local && z !in rest
      invariant latency == NotedZones(order, local)
    {
      var zone :| zone in rest;
      latency := NoteAll(latency, local[zone]);
      assert (order + [zone])[..|order|] == order;
      order, rest := order + [zone], rest - {zone};
    }
    latency := NoteAll(latency, remote);
    m := Manager(kind, hash, order, local, remote, latency, localCount, remoteCount);
  }

  ghost predicate Faithful(latency: map<string, int>, a: Node) {
    a.name in latency && latency[a.name] == a.latency
  }

  lemma {:induction false} NotedIsFaithful(latency: map<string, int>, ns: seq<Node>, a: Node)
    requires forall b :: b in ns && b.name == a.name ==> b.latency == a.latency
    ensures a in ns || Faithful(latency, a) ==> Faithful(Noted(latency, ns), a)
  {
    if ns != [] {
      var n := |ns| - 1;
      assert ns == ns[..n] + [ns[n]];
      NotedIsFaithful(latency, ns[..n], a);
      assert ns[n] in ns;
    }
  }

  lemma {:induction false} NotedZonesIsFaithful(order: seq<string>, local: map<string, seq<Node>>,
                                               zone: string, a: Node)
    requires forall z :: z in order ==> z in local
    requires forall z, b :: z in order && b in local[z] && b.name == a.name ==> b.latency == a.latency
    requires zone in order && a in local[zone]
    ensures Faithful(NotedZones(order, local), a)
  {
    var n := |order| - 1;
    assert order == order[..n] + [order[n]];
    assert order[n] in order;
    if zone in order[..n] {
      NotedZonesIsFaithful(order[..n], local, zone, a);
    }
    NotedIsFaithful(NotedZones(order[..n], local), local[order[n]], a);
  }

  // ---------------------------------------------------------------- from stores to a proper manager

  /** Targets differ and, for rings, so do the hashes of targets and those of zones. */
  ghost predicate Suitable(t: StoreType, stores: seq<KVStore>, kind: Kind, hash: Hasher) {
    && DistinctTargets(t, stores)
    && (kind == UseRing ==>
          forall i, j :: 0 <= i < j < |stores| ==>
            Spot(hash, TargetOf(t, stores[i])) != Spot(hash, TargetOf(t, stores[j])))
    && (kind == UseRing ==>
          forall i, j :: 0 <= i < |stores| && 0 <= j < |stores| && stores[i].zone != stores[j].zone ==>
            Spot(hash, stores[i].zone) != Spot(hash, stores[j].zone))
  }

  lemma SuitableIsDistinct(t: StoreType, stores: seq<KVStore>, kind: Kind, hash: Hasher)
    requires Suitable(t, stores, kind, hash)
    ensures DistinctTargets(t, stores)
  {
  }

  /** What the constructor makes of what GetReplications returned. */
  ghost predicate Built(t: StoreType, stores: seq<KVStore>, threshold: int, r: Replications, m: Manager) {
    && Divides(t, stores, threshold, r)
    && NoDuplicates(m.order) && (forall z :: z in m.order <==> z in r.local)
    && m.local == r.local && m.remote == r.remote
    && m.latency == Noted(NotedZones(m.order, m.local), m.remote)
  }

  ghost predicate From(t: StoreType, stores: seq<KVStore>, threshold: int, n: Node, i: int) {
    0 <= i < |stores| && LatencyOf(t, stores[i]).Some? && n == NodeOf(t, stores[i], threshold)
  }

  lemma LocalOrigin(t: StoreType, stores: seq<KVStore>, threshold: int, r: Replications, zone: string, a: Node)
      returns (i: int)
    requires Divides(t, stores, threshold, r) && zone in r.local && a in r.local[zone]
    ensures From(t, stores, threshold, a, i) && LocalFrom(t, stores, threshold, zone, a, i)
  {
    i :| LocalFrom(t, stores, threshold, zone, a, i);
  }

  lemma RemoteOrigin(t: StoreType, stores: seq<KVStore>, threshold: int, r: Replications, a: Node) returns (i: int)
    requires Divides(t, stores, threshold, r) && a in r.remote
    ensures From(t, stores, threshold, a, i) && RemoteFrom(t, stores, threshold, a, i)
  {
    i :| RemoteFrom(t, stores, threshold, a, i);
  }

  lemma OneZone(t: StoreType, stores: seq<KVStore>, threshold: int, r: Replications, z: string, y: string,
                a: Node, b: Node)
    requires Divides(t, stores, threshold, r) && DistinctTargets(t, stores)
    requires z in r.local && y in r.local && a in r.local[z] && b in r.local[y] && a.name == b.name
    ensures z == y && a == b
  {
  }

  lemma LocalAndRemoteDiffer(t: StoreType, stores: seq<KVStore>, threshold: int, r: Replications,
                             z: string, a: Node, b: Node)
    requires Divides(t, stores, threshold, r) && DistinctTargets(t, stores)
    requires z in r.local && a in r.local[z] && b in r.remote
    ensures a.name != b.name
  {
  }

  /** The latency map tells the latency of every local node. */
  lemma LatenciesAreFaithful(t: StoreType, stores: seq<KVStore>, threshold: int, r: Replications, m: Manager,
                             z: string, a: Node)
    requires Built(t, stores, threshold, r, m) && DistinctTargets(t, stores)
    requires z in m.local && a in m.local[z]
    ensures Faithful(m.latency, a)
  {
    hide Divides, DistinctTargets;
    forall y, b | y in m.order && b in m.local[y] && b.name == a.name
      ensures b.latency == a.latency
    {
      OneZone(t, stores, threshold, r, z, y, a, b);
    }
    NotedZonesIsFaithful(m.order, m.local, z, a);
    forall b | b in m.remote
      ensures b.name != a.name
    {
      LocalAndRemoteDiffer(t, stores, threshold, r, z, a, b);
    }
    NotedIsFaithful(NotedZones(m.order, m.local), m.remote, a);
  }

  /** Nodes with distinct names make a table. */
  lemma TableOfStores(t: StoreType, stores: seq<KVStore>, threshold: int, kind: Kind, hash: Hasher, ns: seq<Node>)
    requires Suitable(t, stores, kind, hash) && DistinctNames(ns)
    requires forall n :: n in ns ==> exists i :: From(t, stores, threshold, n, i)
    ensures Tableable(kind, hash, ns)
  {
    if kind == UseRing {
      forall a, b | 0 <= a < b < |ns|
        ensures Spot(hash, ns[a].name) != Spot(hash, ns[b].name)
      {
        assert ns[a] in ns && ns[b] in ns;
        var i :| From(t, stores, threshold, ns[a], i);
        var j :| From(t, stores, threshold, ns[b], j);
        assert i < j || j < i;
      }
    }
  }

  lemma TableOfZones(t: StoreType, stores: seq<KVStore>, threshold: int, r: Replications, m: Manager)
    requires Suitable(t, stores, m.kind, m.hash) && Built(t, stores, threshold, r, m)
    ensures Tableable(m.kind, m.hash, ZoneNodes(m.order))
  {
    var ns := ZoneNodes(m.order);
    forall a, b | 0 <= a < b < |ns|
      ensures ns[a].name != ns[b].name
      ensures m.kind == UseRing ==> Spot(m.hash, ns[a].name) != Spot(m.hash, ns[b].name)
    {
      assert m.order[a] in m.order && m.order[b] in m.order;
      var i := LocalOrigin(t, stores, threshold, r, m.order[a], r.local[m.order[a]][0]);
      var j := LocalOrigin(t, stores, threshold, r, m.order[b], r.local[m.order[b]][0]);
    }
  }

  lemma TablesOfNodes(t: StoreType, stores: seq<KVStore>, threshold: int, r: Replications, m: Manager)
    requires Suitable(t, stores, m.kind, m.hash) && Built(t, stores, threshold, r, m)
    ensures forall z :: z in m.local ==> m.local[z] != [] && Tableable(m.kind, m.hash, m.local[z])
    ensures Tableable(m.kind, m.hash, m.remote)
  {
    hide NodeOf, Tableable, Noted, NotedZones, From;
    forall z | z in m.local
      ensures m.local[z] != [] && Tableable(m.kind, m.hash, m.local[z])
    {
      forall n | n in m.local[z]
        ensures exists i :: From(t, stores, threshold, n, i)
      {
        var i := LocalOrigin(t, stores, threshold, r, z, n);
      }
      TableOfStores(t, stores, threshold, m.kind, m.hash, m.local[z]);
    }
    forall n | n in m.remote
      ensures exists i :: From(t, stores, threshold, n, i)
    {
      var i := RemoteOrigin(t, stores, threshold, r, n);
    }
    TableOfStores(t, stores, threshold, m.kind, m.hash, m.remote);
  }

  lemma TablesOfStores(t: StoreType, stores: seq<KVStore>, threshold: int, r: Replications, m: Manager)
    requires Suitable(t, stores, m.kind, m.hash) && Built(t, stores, threshold, r, m)
    ensures TablesOk(m)
  {
    hide Suitable, Divides, Tableable, Noted, NotedZones;
    TableOfZones(t, stores, threshold, r, m);
    TablesOfNodes(t, stores, threshold, r, m);
  }

  lemma NamesOfStores(t: StoreType, stores: seq<KVStore>, threshold: int, r: Replications, m: Manager)
    requires DistinctTargets(t, stores) && Built(t, stores, threshold, r, m)
    ensures NamesOk(m)
  {
  }

  lemma LatenciesOfStores(t: StoreType, stores: seq<KVStore>, threshold: int, r: Replications, m: Manager)
    requires DistinctTargets(t, stores) && Built(t, stores, threshold, r, m)
    ensures LatenciesOk(m)
  {
    hide Built, DistinctTargets;
    forall z, a | z in m.local && a in m.local[z]
      ensures a.name in m.latency && m.latency[a.name] == a.latency
    {
      LatenciesAreFaithful(t, stores, threshold, r, m, z, a);
    }
  }

  /** Suitable stores give a proper manager. */
  lemma BuiltIsOk(t: StoreType, stores: seq<KVStore>, threshold: int, r: Replications, m: Manager)
    requires Suitable(t, stores, m.kind, m.hash) && Built(t, stores, threshold, r, m)
    ensures ManagerOk(m)
  {
    hide Suitable, Built, DistinctTargets, TablesOk, NamesOk, LatenciesOk;
    SuitableIsDistinct(t, stores, m.kind, m.hash);
    TablesOfStores(t, stores, threshold, r, m);
    NamesOfStores(t, stores, threshold, r, m);
    LatenciesOfStores(t, stores, threshold, r, m);
  }

  // ---------------------------------------------------------------- from stores to the nodes of a key

  ghost predicate LocalStore(t: StoreType, stores: seq<KVStore>, threshold: int, i: int) {
    0 <= i < |stores| && LatencyOf(t, stores[i]).Some? && LatencyOf(t, stores[i]).value < threshold
  }

  ghost predicate RemoteStore(t: StoreType, stores: seq<KVStore>, threshold: int, i: int) {
    0 <= i < |stores| && LatencyOf(t, stores[i]).Some? && LatencyOf(t, stores[i]).value >= threshold
  }

  /** `count` stores below the threshold, pairwise in different zones, in ascending latency. */
  ghost predicate ChosenSync(t: StoreType, stores: seq<KVStore>, threshold: int, count: int, chosen: seq<int>) {
    && |chosen| == (if count < 1 then 0 else count)
    && (forall a :: 0 <= a < |chosen| ==> LocalStore(t, stores, threshold, chosen[a]))
    && (forall a, b :: 0 <= a < b < |chosen| ==> stores[chosen[a]].zone != stores[chosen[b]].zone)
    && (forall a, b :: 0 <= a < b < |chosen| ==>
          LatencyOf(t, stores[chosen[a]]).value <= LatencyOf(t, stores[chosen[b]]).value)
  }

  /** `count` different stores at or above the threshold. */
  ghost predicate ChosenAsync(t: StoreType, stores: seq<KVStore>, threshold: int, count: int, chosen: seq<int>) {
    && |chosen| == (if count < 1 then 0 else count)
    && (forall a :: 0 <= a < |chosen| ==> RemoteStore(t, stores, threshold, chosen[a]))
    && NoDuplicates(chosen)
  }

  ghost function TargetsOf(t: StoreType, stores: seq<KVStore>, chosen: seq<int>): (names: seq<string>)
    requires forall a :: 0 <= a < |chosen| ==> 0 <= chosen[a] < |stores|
    ensures |names| == |chosen| && forall a :: 0 <= a < |chosen| ==> names[a] == TargetOf(t, stores[chosen[a]])
    ensures t == Redis ==> forall a :: 0 <= a < |chosen| ==> names[a] == stores[chosen[a]].address
    ensures t != Redis ==> forall a :: 0 <= a < |chosen| ==> names[a] == stores[chosen[a]].name
  {
    seq(|chosen|, a requires 0 <= a < |chosen| => TargetOf(t, stores[chosen[a]]))
  }

  /** The local store behind a sync node. */
  ghost predicate SyncOrigin(t: StoreType, stores: seq<KVStore>, threshold: int, m: Manager, n: Node, i: int) {
    && LocalStore(t, stores, threshold, i) && TargetOf(t, stores[i]) == n.name
    && LatencyOf(t, stores[i]).value * MILLISECOND == n.latency && PickedFrom(m, stores[i].zone, n)
  }

  lemma HasSyncOrigin(t: StoreType, stores: seq<KVStore>, threshold: int, r: Replications, m: Manager, n: Node)
    requires Built(t, stores, threshold, r, m) && AtHome(m, n)
    ensures exists i :: SyncOrigin(t, stores, threshold, m, n, i)
  {
    hide Divides, Noted, NotedZones;
    var zone :| PickedFrom(m, zone, n);
    var a :| a in m.local[zone] && a.name == n.name && a.latency == n.latency;
    var i := LocalOrigin(t, stores, threshold, r, zone, a);
    assert SyncOrigin(t, stores, threshold, m, n, i);
  }

  lemma SyncStores(t: StoreType, stores: seq<KVStore>, threshold: int, r: Replications, m: Manager, ns: seq<Node>)
      returns (chosen: seq<int>)
    requires Built(t, stores, threshold, r, m) && SyncSet(m, ns)
    ensures ChosenSync(t, stores, threshold, m.localCount, chosen) && Names(ns) == TargetsOf(t, stores, chosen)
  {
    forall a | 0 <= a < |ns|
      ensures exists i :: SyncOrigin(t, stores, threshold, m, ns[a], i)
    {
      HasSyncOrigin(t, stores, threshold, r, m, ns[a]);
    }
    hide Built, PickedFrom;
    chosen := seq(|ns|, a requires 0 <= a < |ns| => var i :| SyncOrigin(t, stores, threshold, m, ns[a], i); i);
    forall a | 0 <= a < |ns|
      ensures SyncOrigin(t, stores, threshold, m, ns[a], chosen[a])
    {
    }
  }

  lemma AsyncStores(t: StoreType, stores: seq<KVStore>, threshold: int, r: Replications, m: Manager, ns: seq<Node>)
      returns (chosen: seq<int>)
    requires Built(t, stores, threshold, r, m) && AsyncSet(m, ns)
    ensures ChosenAsync(t, stores, threshold, m.remoteCount, chosen) && Names(ns) == TargetsOf(t, stores, chosen)
  {
    hide Noted, NotedZones;
    forall a | 0 <= a < |ns|
      ensures exists i :: RemoteFrom(t, stores, threshold, ns[a], i)
    {
      var i := RemoteOrigin(t, stores, threshold, r, ns[a]);
    }
    hide Built;
    chosen := seq(|ns|, a requires 0 <= a < |ns| => var i :| RemoteFrom(t, stores, threshold, ns[a], i); i);
    forall a | 0 <= a < |ns|
      ensures RemoteFrom(t, stores, threshold, ns[a], chosen[a])
    {
    }
  }

  ghost function LocalZones(t: StoreType, stores: seq<KVStore>, threshold: int): set<string> {
    set i | 0 <= i < |stores| && LocalStore(t, stores, threshold, i) :: stores[i].zone
  }

  ghost function RemoteTargets(t: StoreType, stores: seq<KVStore>, threshold: int): set<string> {
    set i | 0 <= i < |stores| && RemoteStore(t, stores, threshold, i) :: TargetOf(t, stores[i])
  }

  /** One table entry for each zone that has a local store. */
  lemma ZonesCounted(t: StoreType, stores: seq<KVStore>, threshold: int, r: Replications, m: Manager)
    requires Built(t, stores, threshold, r, m)
    ensures |m.order| == |LocalZones(t, stores, threshold)|
  {
    hide Noted, NotedZones;
    ElementsCount(m.order);
    forall z | z in m.order
      ensures z in LocalZones(t, stores, threshold)
    {
      var i := LocalOrigin(t, stores, threshold, r, z, r.local[z][0]);
      assert LocalStore(t, stores, threshold, i);
    }
    assert Elements(m.order) == LocalZones(t, stores, threshold);
  }

  /** One table entry for each remote store. */
  lemma RemotesCounted(t: StoreType, stores: seq<KVStore>, threshold: int, r: Replications, m: Manager)
    requires Built(t, stores, threshold, r, m) && DistinctTargets(t, stores)
    ensures |m.remote| == |RemoteTargets(t, stores, threshold)|
  {
    hide Noted, NotedZones;
    var names := Names(m.remote);
    ElementsCount(names);
    forall name | name in names
      ensures name in RemoteTargets(t, stores, threshold)
    {
      var a :| 0 <= a < |names| && names[a] == name;
      var i := RemoteOrigin(t, stores, threshold, r, m.remote[a]);
      assert RemoteStore(t, stores, threshold, i);
    }
    forall name | name in RemoteTargets(t, stores, threshold)
      ensures name in names
    {
      var i :| 0 <= i < |stores| && RemoteStore(t, stores, threshold, i) && TargetOf(t, stores[i]) == name;
      var n := NodeOf(t, stores[i], threshold);
      assert n in m.remote;
      var a :| 0 <= a < |m.remote| && m.remote[a] == n;
      assert names[a] == name;
    }
    assert Elements(names) == RemoteTargets(t, stores, threshold);
  }

  /** A list for each chosen set, sync first. */
  ghost predicate ListsChosen(t: StoreType, stores: seq<KVStore>, lists: seq<string>, sync: seq<int>, async: seq<int>) {
    && (forall a :: 0 <= a < |sync| ==> 0 <= sync[a] < |stores|)
    && (forall a :: 0 <= a < |async| ==> 0 <= async[a] < |stores|)
    && lists == [Join(TargetsOf(t, stores, sync)), Join(TargetsOf(t, stores, async))]
  }

  /** What a key may be given: as many sync and async stores as asked for, each on its side of the threshold. */
  ghost predicate Right(t: StoreType, stores: seq<KVStore>, threshold: int, localCount: int,
                        remoteCount: int, lists: seq<string>) {
    exists sync, async :: && ChosenSync(t, stores, threshold, localCount, sync)
                          && ChosenAsync(t, stores, threshold, remoteCount, async)
                          && ListsChosen(t, stores, lists, sync, async)
  }

  lemma GivenIsRight(t: StoreType, stores: seq<KVStore>, threshold: int, r: Replications, m: Manager, key: string,
                     lists: seq<string>)
    requires Built(t, stores, threshold, r, m) && ManagerOk(m) && Given(m, key, lists)
    ensures Right(t, stores, threshold, m.localCount, m.remoteCount, lists)
  {
    hide Built, ManagerOk, SyncSet, AsyncSet, SyncGiven, AsyncGiven;
    var sync, async :| SyncGiven(m, key, sync) && AsyncGiven(m, key, async) && ListsOf(lists, sync, async);
    SyncGivenIsSet(m, key, sync);
    AsyncGivenIsSet(m, key, async);
    var s := SyncStores(t, stores, threshold, r, m, sync);
    var a := AsyncStores(t, stores, threshold, r, m, async);
    assert ListsChosen(t, stores, lists, s, a);
  }

  /** Configuration to node lists: never a panic, success exactly when there are enough zones and remote stores. */
  method PlaceKey(t: StoreType, stores: seq<KVStore>, threshold: int, kind: Kind, hash: Hasher,
                  localCount: int, remoteCount: int, key: string) returns (r: Lists)
    ensures Suitable(t, stores, kind, hash) ==> r != ListPanics
    ensures Suitable(t, stores, kind, hash) ==>
              (r.Lists? <==>
                 && Probed(t, stores)
                 && (localCount < 1 || localCount <= |LocalZones(t, stores, threshold)|)
                 && (remoteCount < 1 || remoteCount <= |RemoteTargets(t, stores, threshold)|))
    ensures Suitable(t, stores, kind, hash) && r.Lists? ==>
              Right(t, stores, threshold, localCount, remoteCount, r.lists)
  {
    hide Suitable, Divides, Divided, Probed, Noted, NotedZones, ManagerOk, LocalZones, RemoteTargets, Given;
    var replications := GetReplications(t, stores, threshold);
    if replications.None? {
      return ListError;
    }
    var split := replications.value;
    var m := NewSyncAsyncHashingManager(kind, hash, split.local, localCount, split.remote, remoteCount);
    assert Built(t, stores, threshold, split, m);
    if Suitable(t, stores, kind, hash) {
      BuiltIsOk(t, stores, threshold, split, m);
      ZonesCounted(t, stores, threshold, split, m);
      SuitableIsDistinct(t, stores, kind, hash);
      RemotesCounted(t, stores, threshold, split, m);
    }
    r := GetNodes(m, key);
    if Suitable(t, stores, kind, hash) && r.Lists? {
      GivenIsRight(t, stores, threshold, split, m, key, r.lists);
    }
  }

  // ---------------------------------------------------------------- what piping then reaches

  ghost predicate ProperTargets(t: StoreType, stores: seq<KVStore>) {
    forall i :: 0 <= i < |stores| ==> TargetOf(t, stores[i]) != "" && CommaFree(TargetOf(t, stores[i]))
  }

  /** Write reaches exactly the chosen stores, on both sides; Read goes to one that is nearest among them. */
  lemma PipingReachesChosen(t: StoreType, stores: seq<KVStore>, threshold: int, localCount: int, remoteCount: int,
                            lists: seq<string>, sync: seq<int>, async: seq<int>)
    requires ProperTargets(t, stores) && ListsChosen(t, stores, lists, sync, async)
    requires ChosenSync(t, stores, threshold, localCount, sync) && ChosenAsync(t, stores, threshold, remoteCount, async)
    ensures var split := SplitStores(lists).value;
            && Targets(split.sync) == TargetsOf(t, stores, sync)
            && Targets(split.async) == TargetsOf(t, stores, async)
    ensures localCount >= 1 ==>
              && ReadTarget(lists) == Some(TargetOf(t, stores[sync[0]]))
              && forall a :: 0 <= a < |sync| ==>
                   LatencyOf(t, stores[sync[0]]).value <= LatencyOf(t, stores[sync[a]]).value
    ensures localCount < 1 ==> ReadTarget(lists) == Some("")
  {
    WriteTargetsAreExact(TargetsOf(t, stores, sync));
    WriteTargetsAreExact(TargetsOf(t, stores, async));
    RoundTripIsExact(TargetsOf(t, stores, sync));
  }

  /** No target is in both lists. */
  lemma SyncAndAsyncAreDisjoint(t: StoreType, stores: seq<KVStore>, threshold: int, localCount: int,
                                remoteCount: int, sync: seq<int>, async: seq<int>, a: nat, b: nat)
    requires DistinctTargets(t, stores)
    requires ChosenSync(t, stores, threshold, localCount, sync) && ChosenAsync(t, stores, threshold, remoteCount, async)
    requires a < |sync| && b < |async|
    ensures TargetsOf(t, stores, sync)[a] != TargetsOf(t, stores, async)[b]
  {
  }
}

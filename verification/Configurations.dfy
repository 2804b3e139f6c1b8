/**
 Local and remote stores from the configured ones (pkg/config/config.go). Measured latencies are inputs.
 */
module Configurations {
  import opened Options
  import opened RendezvousHashing

  datatype StoreType = Memory | Redis | DummyLatency

  /** `probed` is the measured latency in milliseconds, if the probe succeeded. */
  datatype KVStore = KVStore(zone: string, name: string, address: string, artificial: int, probed: Option<int>)

  datatype Replications = Replications(local: map<string, seq<Node>>, remote: seq<Node>)

  const MILLISECOND := 1000000

  function LatencyOf(t: StoreType, store: KVStore): Option<int> {
    if t == DummyLatency then Some(store.artificial) else store.probed
  }

  /** Redis stores go by address, all others by name. */
  function TargetOf(t: StoreType, store: KVStore): string {
    if t == Redis then store.address else store.name
  }

  predicate Probed(t: StoreType, stores: seq<KVStore>) {
    forall i :: 0 <= i < |stores| ==> LatencyOf(t, stores[i]).Some?
  }

  function NodeOf(t: StoreType, store: KVStore, threshold: int): Node
    requires LatencyOf(t, store).Some?
  {
    var latency := LatencyOf(t, store).value;
    Node(TargetOf(t, store), latency * MILLISECOND, latency >= threshold)
  }

  ghost predicate DistinctTargets(t: StoreType, stores: seq<KVStore>) {
    forall i, j :: 0 <= i < j < |stores| ==> TargetOf(t, stores[i]) != TargetOf(t, stores[j])
  }

  /** The node of store i, if it is a local one of the zone. */
  ghost predicate LocalFrom(t: StoreType, stores: seq<KVStore>, threshold: int, zone: string, node: Node, i: int) {
    && 0 <= i < |stores| && LatencyOf(t, stores[i]).Some? && stores[i].zone == zone
    && LatencyOf(t, stores[i]).value < threshold && node == NodeOf(t, stores[i], threshold)
  }

  ghost predicate RemoteFrom(t: StoreType, stores: seq<KVStore>, threshold: int, node: Node, i: int) {
    && 0 <= i < |stores| && LatencyOf(t, stores[i]).Some?
    && LatencyOf(t, stores[i]).value >= threshold && node == NodeOf(t, stores[i], threshold)
  }

  ghost predicate DistinctNames(ns: seq<Node>) {
    forall i, j :: 0 <= i < j < |ns| ==> ns[i].name != ns[j].name
  }

  /** Every zone has nodes, every node comes from a store on its side of the threshold, and every store gave one. */
  ghost predicate Divides(t: StoreType, stores: seq<KVStore>, threshold: int, r: Replications) {
    && (forall z :: z in r.local ==> r.local[z] != [])
    && (forall z, n :: z in r.local && n in r.local[z] ==> exists i :: LocalFrom(t, stores, threshold, z, n, i))
    && (forall n :: n in r.remote ==> exists i :: RemoteFrom(t, stores, threshold, n, i))
    && (forall i :: 0 <= i < |stores| && LatencyOf(t, stores[i]).Some? ==>
          var n := NodeOf(t, stores[i], threshold);
          if n.remote then n in r.remote else stores[i].zone in r.local && n in r.local[stores[i].zone])
    && (DistinctTargets(t, stores) ==>
          DistinctNames(r.remote) && forall z :: z in r.local ==> DistinctNames(r.local[z]))
  }

  /** One store goes to its zone or to the remote ones. */
  function AddStore(t: StoreType, store: KVStore, threshold: int, r: Replications): Replications
    requires LatencyOf(t, store).Some?
  {
    var n := NodeOf(t, store, threshold);
    if n.remote then r.(remote := r.remote + [n])
    else
      var zone := if store.zone in r.local then r.local[store.zone] else [];
      r.(local := r.local[store.zone := zone + [n]])
  }

  lemma AddStoreDivides(t: StoreType, stores: seq<KVStore>, threshold: int, r: Replications, store: KVStore)
    requires Divides(t, stores, threshold, r) && LatencyOf(t, store).Some?
    ensures Divides(t, stores + [store], threshold, AddStore(t, store, threshold, r))
  {
    var all, r', n := stores + [store], AddStore(t, store, threshold, r), NodeOf(t, store, threshold);
    AddStoreOrigin(t, stores, threshold, r, store);
    AddStoreNames(t, stores, threshold, r, store);
    forall i | 0 <= i < |all| && LatencyOf(t, all[i]).Some?
      ensures var m := NodeOf(t, all[i], threshold);
              if m.remote then m in r'.remote else all[i].zone in r'.local && m in r'.local[all[i].zone]
    {
      if i < |stores| {
        assert all[i] == stores[i];
      }
    }
  }

  lemma AddStoreOrigin(t: StoreType, stores: seq<KVStore>, threshold: int, r: Replications, store: KVStore)
    requires Divides(t, stores, threshold, r) && LatencyOf(t, store).Some?
    ensures var all, r' := stores + [store], AddStore(t, store, threshold, r);
            && (forall z, n :: z in r'.local && n in r'.local[z] ==> exists i :: LocalFrom(t, all, threshold, z, n, i))
            && (forall n :: n in r'.remote ==> exists i :: RemoteFrom(t, all, threshold, n, i))
  {
    var all, r', new' := stores + [store], AddStore(t, store, threshold, r), NodeOf(t, store, threshold);
    forall z, n | z in r'.local && n in r'.local[z]
      ensures exists i :: LocalFrom(t, all, threshold, z, n, i)
    {
      if z in r.local && n in r.local[z] {
        var i :| LocalFrom(t, stores, threshold, z, n, i);
        assert LocalFrom(t, all, threshold, z, n, i);
      } else {
        assert LocalFrom(t, all, threshold, z, n, |stores|);
      }
    }
    forall n | n in r'.remote
      ensures exists i :: RemoteFrom(t, all, threshold, n, i)
    {
      if n in r.remote {
        var i :| RemoteFrom(t, stores, threshold, n, i);
        assert RemoteFrom(t, all, threshold, n, i);
      } else {
        assert RemoteFrom(t, all, threshold, n, |stores|);
      }
    }
  }

  lemma AddStoreNames(t: StoreType, stores: seq<KVStore>, threshold: int, r: Replications, store: KVStore)
    requires Divides(t, stores, threshold, r) && LatencyOf(t, store).Some?
    ensures var r' := AddStore(t, store, threshold, r);
            DistinctTargets(t, stores + [store]) ==>
              DistinctNames(r'.remote) && forall z :: z in r'.local ==> DistinctNames(r'.local[z])
  {
    var all, target := stores + [store], TargetOf(t, store);
    if DistinctTargets(t, all) {
      forall i | 0 <= i < |stores|
        ensures TargetOf(t, stores[i]) != target
      {
        assert all[i] == stores[i] && all[|stores|] == store;
      }
      assert DistinctTargets(t, stores) by {
        assert forall i :: 0 <= i < |stores| ==> all[i] == stores[i];
      }
      forall n | n in r.remote
        ensures n.name != target
      {
        var i :| RemoteFrom(t, stores, threshold, n, i);
      }
      forall z, n | z in r.local && n in r.local[z]
        ensures n.name != target
      {
        var i :| LocalFrom(t, stores, threshold, z, n, i);
      }
    }
  }

  /** All stores, one after the other. */
  function Divided(t: StoreType, stores: seq<KVStore>, threshold: int): Replications
    requires Probed(t, stores)
  {
    if stores == [] then Replications(map[], [])
    else
      var n := |stores| - 1;
      AddStore(t, stores[n], threshold, Divided(t, stores[..n], threshold))
  }

  lemma NothingDivides(t: StoreType, threshold: int)
    ensures Divides(t, [], threshold, Replications(map[], []))
  {
  }

  lemma {:induction false} DividedDivides(t: StoreType, stores: seq<KVStore>, threshold: int)
    requires Probed(t, stores)
    ensures Divides(t, stores, threshold, Divided(t, stores, threshold))
  {
    hide Divides, AddStore;
    if stores == [] {
      NothingDivides(t, threshold);
    } else {
      var n := |stores| - 1;
      DividedDivides(t, stores[..n], threshold);
      AddStoreDivides(t, stores[..n], threshold, Divided(t, stores[..n], threshold), stores[n]);
      assert stores == stores[..n] + [stores[n]];
    }
  }

  /** The node goes by the address of a store if that is Redis, otherwise by its name, and has its
      configured or measured latency in nanoseconds. */
  ghost predicate DescribedBy(t: StoreType, stores: seq<KVStore>, n: Node, i: int) {
    && 0 <= i < |stores|
    && (t == Redis ==> n.name == stores[i].address)
    && (t != Redis ==> n.name == stores[i].name)
    && (t == DummyLatency ==> n.latency == stores[i].artificial * 1000000)
    && (t != DummyLatency ==> stores[i].probed.Some? && n.latency == stores[i].probed.value * 1000000)
  }

  ghost predicate Describes(t: StoreType, stores: seq<KVStore>, n: Node) {
    exists i :: DescribedBy(t, stores, n, i)
  }

  lemma DividedDescribes(t: StoreType, stores: seq<KVStore>, threshold: int)
    requires Probed(t, stores)
    ensures var r := Divided(t, stores, threshold);
            && (forall z, n :: z in r.local && n in r.local[z] ==> Describes(t, stores, n))
            && (forall n :: n in r.remote ==> Describes(t, stores, n))
  {
    var r := Divided(t, stores, threshold);
    DividedDivides(t, stores, threshold);
    hide Divided;
    forall z, n | z in r.local && n in r.local[z]
      ensures Describes(t, stores, n)
    {
      var i :| LocalFrom(t, stores, threshold, z, n, i);
      assert DescribedBy(t, stores, n, i);
    }
    forall n | n in r.remote
      ensures Describes(t, stores, n)
    {
      var i :| RemoteFrom(t, stores, threshold, n, i);
      assert DescribedBy(t, stores, n, i);
    }
  }

  /** GetReplications: fails with the first store whose latency cannot be measured. */
  method GetReplications(t: StoreType, stores: seq<KVStore>, threshold: int) returns (r: Option<Replications>)
    ensures r.Some? <==> Probed(t, stores)
    ensures r.Some? ==> r.value == Divided(t, stores, threshold) && Divides(t, stores, threshold, r.value)
    ensures r.Some? ==> forall z, n :: z in r.value.local && n in r.value.local[z] ==> Describes(t, stores, n)
    ensures r.Some? ==> forall n :: n in r.value.remote ==> Describes(t, stores, n)
  {
    var acc := Replications(map[], []);
    hide AddStore;
    for i := 0 to |stores|
      invariant Probed(t, stores[..i])
      invariant acc == Divided(t, stores[..i], threshold)
    {
      var store := stores[i];
      if LatencyOf(t, store).None? {
        return None;
      }
      assert stores[..i + 1][..i] == stores[..i];
      acc := AddStore(t, store, threshold, acc);
    }
    assert stores[..|stores|] == stores;
    DividedDivides(t, stores, threshold);
    DividedDescribes(t, stores, threshold);
    r := Some(acc);
  }
}

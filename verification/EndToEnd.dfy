/**
 The whole path: a configuration, the manager built from it, the node lists it gives to the
 buckets of revisions, and the protocol over them.
 */
module EndToEnd {
  import opened Bytes
  import opened Options
  import opened Sequences
  import opened RevisionBytes
  import opened RendezvousHashing
  import opened Configurations
  import opened NodeLists
  import opened Zones
  import opened Placements
  import opened Protocol
  import opened ProtocolInvariant
  import opened ProtocolSteps
  import opened Linearizability
  import opened Draws
  import opened PutOrder
  import opened SharedRevisions
  import opened AsyncStores
  import opened Continuations
  import opened Overlaps
  import opened StaleCreates

  // ---------------------------------------------------------------- servers

  /** Bytes as text, which is what tables hash. */
  function Text(key: Key): (text: string)
    ensures |text| == |key| && forall i :: 0 <= i < |key| ==> text[i] as int == key[i] as int
  {
    seq(|key|, i requires 0 <= i < |key| => key[i] as char)
  }

  /** The key by which a revision is placed: that of its bucket. */
  function PlaceKeyOf(main: int, size: int): (text: string)
    requires IsInt64(main) && IsInt64(size) && size != 0
    ensures |text| == 8
    ensures forall i :: 0 <= i < 8 ==> text[i] as int == ToUnsigned(Quotient(main, size)) / Power(i) % 256
  {
    BucketBytes(main, size);
    Text(BucketKey(main, size))
  }

  /** Every revision below the width of the counter has lists that the manager gives its bucket. */
  ghost predicate Served(m: Manager, size: int, place: Placement)
    requires IsInt64(size) && size != 0
  {
    forall main :: 1 <= main < TWO_63 ==> Given(m, PlaceKeyOf(main, size), place(main))
  }

  /** Suitable stores, the manager built from them, and the lists it gives. */
  ghost predicate Server(t: StoreType, stores: seq<KVStore>, threshold: int, size: int, m: Manager, place: Placement) {
    && Suitable(t, stores, m.kind, m.hash) && Probed(t, stores) && ProperTargets(t, stores)
    && Built(t, stores, threshold, Divided(t, stores, threshold), m)
    && m.localCount >= 1 && IsInt64(size) && size != 0 && Served(m, size, place)
  }

  lemma {:induction false} Enumerates(zones: set<string>) returns (order: seq<string>)
    ensures NoDuplicates(order) && forall z :: z in order <==> z in zones
  {
    if zones == {} {
      order := [];
    } else {
      var z :| z in zones;
      var rest := Enumerates(zones - {z});
      order := rest + [z];
    }
  }

  lemma BuildsManager(t: StoreType, stores: seq<KVStore>, threshold: int, kind: Kind, hash: Hasher,
                      localCount: int, remoteCount: int) returns (m: Manager)
    requires Probed(t, stores)
    ensures Built(t, stores, threshold, Divided(t, stores, threshold), m)
    ensures m.kind == kind && m.hash == hash && m.localCount == localCount && m.remoteCount == remoteCount
  {
    var r := Divided(t, stores, threshold);
    DividedDivides(t, stores, threshold);
    hide Divides, Divided, Noted, NotedZones;
    var order := Enumerates(r.local.Keys);
    m := Manager(kind, hash, order, r.local, r.remote, Noted(NotedZones(order, r.local), r.remote),
                 localCount, remoteCount);
  }

  /** Known latencies, enough zones and enough remote stores: that is all a server takes. */
  lemma ServerExists(t: StoreType, stores: seq<KVStore>, threshold: int, kind: Kind, hash: Hasher,
                     localCount: int, remoteCount: int, size: int) returns (m: Manager, place: Placement)
    requires Suitable(t, stores, kind, hash) && Probed(t, stores) && ProperTargets(t, stores)
    requires 1 <= localCount <= |LocalZones(t, stores, threshold)|
    requires remoteCount < 1 || remoteCount <= |RemoteTargets(t, stores, threshold)|
    requires IsInt64(size) && size != 0
    ensures Server(t, stores, threshold, size, m, place)
    ensures m.kind == kind && m.hash == hash && m.localCount == localCount && m.remoteCount == remoteCount
  {
    hide Suitable, Built, Divided, LocalZones, RemoteTargets, ManagerOk, Given, PlaceKeyOf, ProperTargets;
    m := BuildsManager(t, stores, threshold, kind, hash, localCount, remoteCount);
    BuiltIsOk(t, stores, threshold, Divided(t, stores, threshold), m);
    ZonesCounted(t, stores, threshold, Divided(t, stores, threshold), m);
    SuitableIsDistinct(t, stores, kind, hash);
    RemotesCounted(t, stores, threshold, Divided(t, stores, threshold), m);
    place := PlaceAll(m, size);
  }

  /** Some lists that the manager gives for a key, if it gives any. */
  ghost function ListsFor(m: Manager, key: string): seq<string> {
    if exists lists :: Given(m, key, lists) then var lists :| Given(m, key, lists); lists else []
  }

  lemma PlaceAll(m: Manager, size: int) returns (place: Placement)
    requires ManagerOk(m) && EnoughZones(m) && EnoughRemotes(m) && IsInt64(size) && size != 0
    ensures Served(m, size, place)
  {
    hide ManagerOk, EnoughZones, EnoughRemotes, Given, PlaceKeyOf;
    place := main => if 1 <= main < TWO_63 then ListsFor(m, PlaceKeyOf(main, size)) else [];
    forall main | 1 <= main < TWO_63
      ensures Given(m, PlaceKeyOf(main, size), place(main))
    {
      SomethingIsGiven(m, PlaceKeyOf(main, size));
    }
  }

  // ---------------------------------------------------------------- what a server gives revisions

  /** Revisions are on the right stores. */
  ghost predicate Configured(t: StoreType, stores: seq<KVStore>, threshold: int, localCount: int, remoteCount: int,
                             place: Placement) {
    && ProperTargets(t, stores) && localCount >= 1
    && forall main :: 1 <= main < TWO_63 ==> Right(t, stores, threshold, localCount, remoteCount, place(main))
  }

  lemma ServerIsConfigured(t: StoreType, stores: seq<KVStore>, threshold: int, size: int, m: Manager, place: Placement)
    requires Server(t, stores, threshold, size, m, place)
    ensures Configured(t, stores, threshold, m.localCount, m.remoteCount, place)
  {
    hide Suitable, Built, Divided, ManagerOk, Given, PlaceKeyOf, Right, ProperTargets;
    BuiltIsOk(t, stores, threshold, Divided(t, stores, threshold), m);
    forall main | 1 <= main < TWO_63
      ensures Right(t, stores, threshold, m.localCount, m.remoteCount, place(main))
    {
      GivenIsRight(t, stores, threshold, Divided(t, stores, threshold), m, PlaceKeyOf(main, size), place(main));
    }
  }

  /** The sync stores of a revision are chosen ones. */
  lemma SyncNodesAreChosen(t: StoreType, stores: seq<KVStore>, threshold: int, localCount: int, remoteCount: int,
                           place: Placement, main: int) returns (sync: seq<int>)
    requires Configured(t, stores, threshold, localCount, remoteCount, place) && 1 <= main < TWO_63
    ensures ChosenSync(t, stores, threshold, localCount, sync) && SyncNodes(place(main)) == TargetsOf(t, stores, sync)
    ensures SyncNodes(place(main)) != [] && SyncNodes(place(main))[0] != ""
  {
    assert Right(t, stores, threshold, localCount, remoteCount, place(main));
    var async;
    sync, async :| && ChosenSync(t, stores, threshold, localCount, sync)
                   && ChosenAsync(t, stores, threshold, remoteCount, async)
                   && ListsChosen(t, stores, place(main), sync, async);
    hide Right, Split, Join;
    RoundTripIsExact(TargetsOf(t, stores, sync));
  }

  /** Both lists as they are split again. */
  lemma ChosenAreSplit(t: StoreType, stores: seq<KVStore>, lists: seq<string>, sync: seq<int>, async: seq<int>)
    requires ProperTargets(t, stores) && ListsChosen(t, stores, lists, sync, async) && sync != []
    ensures SyncNodes(lists) == TargetsOf(t, stores, sync) && AsyncNodes(lists) == OrBlank(TargetsOf(t, stores, async))
  {
    hide Split, Join;
    StoresRoundTrip(TargetsOf(t, stores, sync), TargetsOf(t, stores, async));
  }

  /** The first sync target is no other target. */
  lemma FirstIsSole(t: StoreType, stores: seq<KVStore>, threshold: int, localCount: int, remoteCount: int,
                    sync: seq<int>, async: seq<int>)
    requires DistinctTargets(t, stores) && localCount >= 1
    requires ChosenSync(t, stores, threshold, localCount, sync) && ChosenAsync(t, stores, threshold, remoteCount, async)
    ensures var first, second := TargetsOf(t, stores, sync), TargetsOf(t, stores, async);
            && (forall n :: 0 < n < |first| ==> first[n] != first[0])
            && (forall b :: 0 <= b < |second| ==> second[b] != first[0])
  {
    var first, second := TargetsOf(t, stores, sync), TargetsOf(t, stores, async);
    forall n | 0 < n < |first|
      ensures first[n] != first[0]
    {
      assert stores[sync[0]].zone != stores[sync[n]].zone;
    }
    forall b | 0 <= b < |second|
      ensures second[b] != first[0]
    {
      SyncAndAsyncAreDisjoint(t, stores, threshold, localCount, remoteCount, sync, async, 0, b);
    }
  }

  lemma ChosenIsListedOnce(t: StoreType, stores: seq<KVStore>, threshold: int, localCount: int, remoteCount: int,
                           place: Placement, main: int)
    requires Configured(t, stores, threshold, localCount, remoteCount, place) && 1 <= main < TWO_63
    requires DistinctTargets(t, stores)
    ensures ListedOnce(place, main) && FirstStore(place, main)
  {
    assert Right(t, stores, threshold, localCount, remoteCount, place(main));
    var sync, async :| && ChosenSync(t, stores, threshold, localCount, sync)
                       && ChosenAsync(t, stores, threshold, remoteCount, async)
                       && ListsChosen(t, stores, place(main), sync, async);
    ChosenAreSplit(t, stores, place(main), sync, async);
    FirstIsSole(t, stores, threshold, localCount, remoteCount, sync, async);
    hide Right, SyncNodes, AsyncNodes, ListsChosen, ChosenAsync, DistinctTargets;
  }

  /** The numbers that revisions of a server can have. */
  const TOP := TWO_63 - 1

  lemma ServerLists(t: StoreType, stores: seq<KVStore>, threshold: int, size: int, m: Manager, place: Placement)
    requires Server(t, stores, threshold, size, m, place)
    ensures FirstStores(place, TOP) && AllListedOnce(place, TOP)
  {
    ServerIsConfigured(t, stores, threshold, size, m, place);
    SuitableIsDistinct(t, stores, m.kind, m.hash);
    hide Server, Configured, ListedOnce, FirstStore, DistinctTargets;
    forall main | 1 <= main <= TOP
      ensures FirstStore(place, main) && ListedOnce(place, main)
    {
      ChosenIsListedOnce(t, stores, threshold, m.localCount, m.remoteCount, place, main);
    }
  }

  // ---------------------------------------------------------------- the theorems

  /** On every server, as long as no put on a sync store failed, no read fails. */
  lemma ServedReadsSucceed(t: StoreType, stores: seq<KVStore>, threshold: int, size: int, m: Manager, place: Placement,
                           steps: seq<Step>, i: nat)
    requires Server(t, stores, threshold, size, m, place)
    requires RunOf(place, steps).Some?
    requires var s := RunOf(place, steps).value; s.counter < TWO_63 && !s.failed && i < |s.ops| && s.ops[i].Read?
    ensures !RunOf(place, steps).value.ops[i].rphase.GotError?
  {
    hide Server, Configured, RunOf, SyncNodes;
    ServerIsConfigured(t, stores, threshold, size, m, place);
    forall main | 1 <= main <= RunOf(place, steps).value.counter
      ensures SyncNodes(place(main)) != [] && SyncNodes(place(main))[0] != ""
    {
      var sync := SyncNodesAreChosen(t, stores, threshold, m.localCount, m.remoteCount, place, main);
    }
    NoFailuresNoErrors(place, steps, i);
  }

  /** A store of a published revision holds the value of its writer, and keeps it. */
  lemma PublishedIsStored(place: Placement, s: State, i: nat, n: nat)
    requires Inv(place, s) && DistinctRevisions(s) && !s.failed
    requires i < |s.ops| && s.ops[i].Write? && s.ops[i].wphase.Published?
    requires n < |SyncNodes(place(s.ops[i].rev))| && SyncNodes(place(s.ops[i].rev))[n] != ""
    ensures Stored(s, SyncNodes(place(s.ops[i].rev))[n], s.ops[i].rev) == Some(s.ops[i].value)
  {
    hide PairsOk, IndexOk, SyncNodes, Stored;
    var name, rev := SyncNodes(place(s.ops[i].rev))[n], s.ops[i].rev;
    assert OpOk(place, s, s.ops[i]);
    assert n in s.ops[i].done;
    var value := Stored(s, name, rev).value;
    var w :| IsWriter(s, rev, value, w);
    SameRevSameOp(s, w, i);
  }

  /** On every server: what is visible in the index is on LocalCount stores in as many different zones. */
  lemma VisibleIsReplicated(t: StoreType, stores: seq<KVStore>, threshold: int, size: int, m: Manager, place: Placement,
                            steps: seq<Step>, i: nat) returns (sync: seq<int>)
    requires Server(t, stores, threshold, size, m, place)
    requires RunOf(place, steps).Some?
    requires var s := RunOf(place, steps).value;
             && s.counter < TWO_63 && DistinctRevisions(s) && !s.failed
             && i < |s.ops| && s.ops[i].Write? && s.ops[i].wphase.Published?
    ensures ChosenSync(t, stores, threshold, m.localCount, sync) && |sync| == m.localCount >= 1
    ensures var s := RunOf(place, steps).value;
            forall a :: 0 <= a < |sync| ==>
              Stored(s, TargetOf(t, stores[sync[a]]), s.ops[i].rev) == Some(s.ops[i].value)
  {
    ServerIsConfigured(t, stores, threshold, size, m, place);
    assert m.localCount >= 1 && ProperTargets(t, stores);
    hide Server;
    RunKeeps(place, steps);
    var s := RunOf(place, steps).value;
    hide RunOf;
    PublishedRevIsDrawn(place, s, i);
    sync := SyncNodesAreChosen(t, stores, threshold, m.localCount, m.remoteCount, place, s.ops[i].rev);
    hide Inv, DistinctRevisions, SyncNodes, Stored, Right, Configured;
    forall a | 0 <= a < |sync|
      ensures Stored(s, TargetOf(t, stores[sync[a]]), s.ops[i].rev) == Some(s.ops[i].value)
    {
      assert TargetsOf(t, stores, sync)[a] == TargetOf(t, stores[sync[a]]);
      PublishedIsStored(place, s, i, a);
    }
  }

  lemma PublishedRevIsDrawn(place: Placement, s: State, i: nat)
    requires Inv(place, s) && i < |s.ops| && HasRev(s.ops[i])
    ensures 1 <= s.ops[i].rev <= s.counter
  {
    assert OpOk(place, s, s.ops[i]);
  }

  /** On every server: once its async puts have happened, a revision is on RemoteCount async stores as well. */
  lemma AsyncIsReplicated(t: StoreType, stores: seq<KVStore>, threshold: int, size: int, m: Manager, place: Placement,
                          steps: seq<Step>, i: nat) returns (async: seq<int>)
    requires Server(t, stores, threshold, size, m, place)
    requires RunOf(place, steps).Some?
    requires var s := RunOf(place, steps).value;
             && s.counter < TWO_63 && DistinctRevisions(s) && i < |s.ops| && HasRev(s.ops[i])
             && AllPut(place, steps, i, s.ops[i].rev)
    ensures ChosenAsync(t, stores, threshold, m.remoteCount, async)
    ensures var s := RunOf(place, steps).value;
            forall b :: 0 <= b < |async| ==>
              Stored(s, TargetOf(t, stores[async[b]]), s.ops[i].rev) == Some(s.ops[i].value)
  {
    ServerIsConfigured(t, stores, threshold, size, m, place);
    hide Server;
    RunKeeps(place, steps);
    var s := RunOf(place, steps).value;
    hide RunOf;
    PublishedRevIsDrawn(place, s, i);
    async := AsyncNodesAreChosen(t, stores, threshold, m.localCount, m.remoteCount, place, s.ops[i].rev);
    hide Inv, DistinctRevisions, AsyncNodes, Stored, Right, Configured, AllPut;
    forall b | 0 <= b < |async|
      ensures Stored(s, TargetOf(t, stores[async[b]]), s.ops[i].rev) == Some(s.ops[i].value)
    {
      assert TargetsOf(t, stores, async)[b] == TargetOf(t, stores[async[b]]);
      assert TargetsOf(t, stores, async)[b] in TargetsOf(t, stores, async);
      AsyncStoresHold(place, steps, i, TargetOf(t, stores[async[b]]));
    }
  }

  lemma AsyncNodesAreChosen(t: StoreType, stores: seq<KVStore>, threshold: int, localCount: int, remoteCount: int,
                            place: Placement, main: int) returns (async: seq<int>)
    requires Configured(t, stores, threshold, localCount, remoteCount, place) && 1 <= main < TWO_63
    ensures ChosenAsync(t, stores, threshold, remoteCount, async)
    ensures forall name :: name in TargetsOf(t, stores, async) ==> name in AsyncNodes(place(main)) && name != ""
  {
    assert Right(t, stores, threshold, localCount, remoteCount, place(main));
    var sync;
    sync, async :| && ChosenSync(t, stores, threshold, localCount, sync)
                   && ChosenAsync(t, stores, threshold, remoteCount, async)
                   && ListsChosen(t, stores, place(main), sync, async);
    ChosenAreSplit(t, stores, place(main), sync, async);
    hide Right, SyncNodes, AsyncNodes, ListsChosen, ChosenSync;
  }

  // ---------------------------------------------------------------- linearizability of servers

  /** On every server a run is safe to finish in every way exactly if creates of different keys never
      draw at the same time. */
  lemma ServedDrawsAreExact(t: StoreType, stores: seq<KVStore>, threshold: int, size: int, m: Manager, place: Placement,
                            steps: seq<Step>)
    requires Server(t, stores, threshold, size, m, place)
    requires RunOf(place, steps).Some?
    requires RunOf(place, steps).value.counter < TOP && TellApart(RunOf(place, steps).value)
    ensures AlwaysLinearizable(place, steps, TOP) <==> Apart(place, steps, OtherKeys)
  {
    hide Server, FirstStores, AllListedOnce, AlwaysLinearizable, Apart, RunOf, TellApart;
    ServerLists(t, stores, threshold, size, m, place);
    ApartIsExact(place, steps, TOP);
  }

  /** On every server a run on one key is linearizable, whatever its creates draw. */
  lemma ServedKeyLinearizes(t: StoreType, stores: seq<KVStore>, threshold: int, size: int, m: Manager, place: Placement,
                            steps: seq<Step>, key: Key)
    requires Server(t, stores, threshold, size, m, place)
    requires RunOf(place, steps).Some?
    requires var s := RunOf(place, steps).value; s.counter <= TOP && OneKey(s, key) && Unconditional(s, key)
    ensures Linearizable(RunOf(place, steps).value, key)
  {
    ServerLists(t, stores, threshold, size, m, place);
    hide Server, FirstStores, ListedOnce, RunOf, OneKey, Unconditional, Linearizable;
    OneKeyLinearizes(place, steps, key);
  }

  /** On every server any run can be continued so that a conditional create is not explained. */
  lemma ServedUpdatesBreak(t: StoreType, stores: seq<KVStore>, threshold: int, size: int, m: Manager, place: Placement,
                           steps: seq<Step>, s: State, key: Key) returns (more: seq<Step>, s': State)
    requires Server(t, stores, threshold, size, m, place)
    requires Reaches(place, steps, s) && s.counter + 5 <= TOP && DistinctRevisions(s) && !s.failed
    ensures Reaches(place, steps + more, s')
    ensures DistinctRevisions(s') && IsRegister(s', key) && !Linearizable(s', key)
  {
    ServerLists(t, stores, threshold, size, m, place);
    hide Server, FirstStore, AllListedOnce, Reaches, DistinctRevisions, IsRegister, Linearizable;
    more, s' := UpdatesBreak(place, steps, s, key, "a", "b", "c");
  }
}

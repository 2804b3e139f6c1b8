/**
 The linked chain itself (pkg/consistent/chain/chain.go, node.go): nodes joined by `next`, each
 with a database. Which puts fail during a call is an input, as the set of failing node ids; a
 failed put leaves its database alone.
 */
module ChainNodes {
  import opened Chains

  class Database {
    var data: Db

    constructor ()
      ensures data == map[]
    {
      data := map[];
    }
  }

  datatype Consistency = Linearizable | Sequential | Other

  /** Panics where the source dereferences nil: a chain without nodes, or the successor of its only one. */
  datatype Answer = Nil | Error | Panics

  datatype ReadAnswer = Value(val: string) | ReadError | ReadPanics

  /** The id of the first failing node from `from` on, or the length of the chain. */
  function FirstFailure(fails: set<int>, from: nat, len: nat): (f: nat)
    requires from <= len
    ensures from <= f <= len
    ensures f < len ==> f in fails
    ensures forall j :: from <= j < f ==> j !in fails
    decreases len - from
  {
    if from == len || from in fails then from else FirstFailure(fails, from + 1, len)
  }

  class ChainNode {
    const id: int
    const db: Database
    var next: ChainNode?

    constructor (id: int, db: Database)
      ensures this.id == id && this.db == db && next == null
    {
      this.id := id;
      this.db := db;
      next := null;
    }

    /** Puts here and, if that worked, on the rest of the chain. */
    method Write(key: string, val: string, fails: set<int>,
                 ghost nodes: seq<ChainNode>, ghost p: nat) returns (r: Answer)
      requires Linked(nodes) && p < |nodes| && nodes[p] == this
      modifies set j | p <= j < |nodes| :: nodes[j].db
      ensures var stop := FirstFailure(fails, p, |nodes|);
              && r == (if stop == |nodes| then Nil else Error)
              && forall j :: 0 <= j < |nodes| ==>
                   nodes[j].db.data == Written(nodes, p, stop, nodes[j].db, old(nodes[j].db.data), key, val)
      decreases |nodes| - p
    {
      assert p + 1 < |nodes| ==> nodes[p + 1 - 1].next == nodes[p + 1];
      if id in fails {
        return Error;
      }
      db.data := db.data[key := val];
      if next != null {
        r := next.Write(key, val, fails, nodes, p + 1);
        ghost var stop := FirstFailure(fails, p + 1, |nodes|);
        forall d: Database
          ensures Hit(nodes, p, stop, d) <==> d == db || Hit(nodes, p + 1, stop, d)
        {
          HitFirst(nodes, p, stop, d);
        }
      } else {
        r := Nil;
      }
    }

    method Read(key: string) returns (r: ReadAnswer)
      ensures forall v :: r == Value(v) <==> key in db.data && db.data[key] == v
      ensures r == ReadError <==> key !in db.data
    {
      if key in db.data {
        return Value(db.data[key]);
      }
      r := ReadError;
    }
  }

  /** The database belongs to one of the nodes from p on and before `stop`. */
  ghost predicate Hit(nodes: seq<ChainNode>, p: nat, stop: nat, d: Database) {
    exists k :: p <= k < stop && k < |nodes| && nodes[k].db == d
  }

  lemma HitFirst(nodes: seq<ChainNode>, p: nat, stop: nat, d: Database)
    requires p < |nodes| && p < stop
    ensures Hit(nodes, p, stop, d) <==> d == nodes[p].db || Hit(nodes, p + 1, stop, d)
  {
  }

  ghost function Written(nodes: seq<ChainNode>, p: nat, stop: nat,
                         d: Database, before: Db, key: string, val: string): Db {
    if Hit(nodes, p, stop, d) then before[key := val] else before
  }

  /** Consecutive nodes are linked and ids count from zero; nodes may share a database. */
  ghost predicate Linked(nodes: seq<ChainNode>)
    reads nodes
  {
    && (forall i :: 0 <= i < |nodes| ==> nodes[i].id == i)
    && (forall i :: 0 < i < |nodes| ==> nodes[i - 1].next == nodes[i])
    && (nodes != [] ==> nodes[|nodes| - 1].next == null)
  }

  ghost predicate Unshared(nodes: seq<ChainNode>) {
    forall i, j :: 0 <= i < j < |nodes| ==> nodes[i].db != nodes[j].db
  }

  ghost function Contents(nodes: seq<ChainNode>): (dbs: seq<Db>)
    reads nodes, set i | 0 <= i < |nodes| :: nodes[i].db
    ensures |dbs| == |nodes|
  {
    seq(|nodes|, i requires 0 <= i < |nodes| reads nodes, set i | 0 <= i < |nodes| :: nodes[i].db => nodes[i].db.data)
  }

  /** The contents after a write that was put on the first `stop` nodes. */
  ghost predicate AfterWrite(nodes: seq<ChainNode>, before: seq<Db>, after: seq<Db>,
                             key: string, val: string, stop: nat) {
    && |before| == |after| == |nodes|
    && forall j :: 0 <= j < |nodes| ==> after[j] == Written(nodes, 0, stop, nodes[j].db, before[j], key, val)
  }

  lemma NothingWritten(nodes: seq<ChainNode>, dbs: seq<Db>, key: string, val: string)
    requires |dbs| == |nodes|
    ensures AfterWrite(nodes, dbs, dbs, key, val, 0)
  {
  }

  lemma HeadWritten(nodes: seq<ChainNode>, before: seq<Db>, after: seq<Db>, key: string, val: string)
    requires |before| == |after| == |nodes| > 0
    requires forall j :: 0 <= j < |nodes| ==>
               after[j] == if nodes[j].db == nodes[0].db then before[j][key := val] else before[j]
    ensures AfterWrite(nodes, before, after, key, val, 1)
  {
  }

  /** The head first and then the rest. */
  lemma WriteComposes(nodes: seq<ChainNode>, before: seq<Db>, mid: seq<Db>, after: seq<Db>,
                      key: string, val: string, stop: nat)
    requires AfterWrite(nodes, before, mid, key, val, 1) && |after| == |nodes| > 0 && stop >= 1
    requires forall j :: 0 <= j < |nodes| ==> after[j] == Written(nodes, 1, stop, nodes[j].db, mid[j], key, val)
    ensures AfterWrite(nodes, before, after, key, val, stop)
  {
    forall j | 0 <= j < |nodes|
      ensures after[j] == Written(nodes, 0, stop, nodes[j].db, before[j], key, val)
    {
      HitFirst(nodes, 0, stop, nodes[j].db);
      HitFirst(nodes, 0, 1, nodes[j].db);
    }
  }

  /** If no database is shared, these are the puts of one write in the state machine. */
  lemma UnsharedWrite(nodes: seq<ChainNode>, before: seq<Db>, after: seq<Db>, key: string, val: string, stop: nat)
    requires Unshared(nodes) && AfterWrite(nodes, before, after, key, val, stop) && stop <= |nodes|
    ensures after == WriteUpTo(before, key, val, stop)
  {
    forall j | 0 <= j < |nodes|
      ensures Hit(nodes, 0, stop, nodes[j].db) <==> j < stop
    {
    }
  }

  class Chain {
    var head: ChainNode?
    var tail: ChainNode?
    var len: int

    ghost var nodes: seq<ChainNode>

    ghost predicate Valid()
      reads this, nodes
    {
      && len == |nodes|
      && Linked(nodes)
      && (nodes == [] ==> head == null && tail == null)
      && (nodes != [] ==> head == nodes[0] && tail == nodes[|nodes| - 1])
    }

    /** A null tail stands for the dummy node that a chain without databases ends in. */
    constructor (dbs: seq<Database>)
      ensures Valid() && fresh(nodes) && |nodes| == |dbs|
      ensures forall i :: 0 <= i < |dbs| ==> nodes[i].db == dbs[i]
    {
      var first: ChainNode?, prev: ChainNode? := null, null;
      ghost var done: seq<ChainNode> := [];
      for i := 0 to |dbs|
        invariant |done| == i && fresh(done)
        invariant i == 0 ==> first == null && prev == null
        invariant i > 0 ==> first == done[0] && prev == done[i - 1] && prev.next == null
        invariant forall k :: 0 <= k < i ==> done[k].id == k && done[k].db == dbs[k]
        invariant forall k :: 0 < k < i ==> done[k - 1].next == done[k]
        invariant forall k, l :: 0 <= k < l < i ==> done[k] != done[l]
      {
        var curr := new ChainNode(i, dbs[i]);
        if prev != null {
          prev.next := curr;
        } else {
          first := curr;
        }
        prev := curr;
        done := done + [curr];
      }
      head, tail, len, nodes := first, prev, |dbs|, done;
    }

    /** The head first. A linearizable write goes on to the tail before it answers; a sequential
        one answers at once, and its background part is the same walk from the second node. */
    method Write(key: string, val: string, consistency: Consistency, fails: set<int>) returns (r: Answer)
      requires Valid()
      modifies set i | 0 <= i < |nodes| :: nodes[i].db
      ensures Valid()
      ensures nodes == [] ==> r == Panics
      ensures nodes != [] && 0 in fails ==> r == Error
      ensures nodes != [] && 0 !in fails && consistency == Linearizable ==>
                r == if |nodes| == 1 then Panics else if FirstFailure(fails, 0, |nodes|) == |nodes| then Nil else Error
      ensures nodes != [] && 0 !in fails && consistency != Linearizable ==> r == Nil
      ensures var stop := if consistency == Linearizable then FirstFailure(fails, 0, |nodes|)
                          else if nodes == [] || 0 in fails then 0 else 1;
              AfterWrite(nodes, old(Contents(nodes)), Contents(nodes), key, val, stop)
    {
      hide AfterWrite;
      if head == null {
        NothingWritten(nodes, Contents(nodes), key, val);
        return Panics;
      }
      if head.id in fails {
        NothingWritten(nodes, Contents(nodes), key, val);
        return Error;
      }
      PutHead(key, val);
      r := Nil;
      if consistency == Linearizable {
        assert |nodes| > 1 ==> nodes[1 - 1].next == nodes[1];
        if head.next == null {
          return Panics;
        }
        ghost var mid := Contents(nodes);
        r := PutRest(key, val, fails);
        WriteComposes(nodes, old(Contents(nodes)), mid, Contents(nodes), key, val, FirstFailure(fails, 1, |nodes|));
      }
    }

    method PutHead(key: string, val: string)
      requires Valid() && nodes != []
      modifies head.db
      ensures Valid() && AfterWrite(nodes, old(Contents(nodes)), Contents(nodes), key, val, 1)
    {
      head.db.data := head.db.data[key := val];
      HeadWritten(nodes, old(Contents(nodes)), Contents(nodes), key, val);
    }

    method PutRest(key: string, val: string, fails: set<int>) returns (r: Answer)
      requires Valid() && |nodes| > 1
      modifies set i | 0 <= i < |nodes| :: nodes[i].db
      ensures Valid()
      ensures var stop := FirstFailure(fails, 1, |nodes|);
              && r == (if stop == |nodes| then Nil else Error)
              && forall j :: 0 <= j < |nodes| ==>
                   Contents(nodes)[j] == Written(nodes, 1, stop, nodes[j].db, old(Contents(nodes))[j], key, val)
    {
      assert nodes[1 - 1].next == nodes[1];
      r := head.next.Write(key, val, fails, nodes, 1);
    }

    /** The tail for a linearizable read; for a sequential one the node that the dice chose. */
    method Read(key: string, consistency: Consistency, dice: nat) returns (r: ReadAnswer)
      requires Valid() && (len > 0 ==> dice < len)
      ensures consistency == Other ==> r == ReadError
      ensures consistency != Other && nodes == [] ==> r == ReadPanics
      ensures consistency != Other && nodes != [] ==>
                var d := Contents(nodes)[if consistency == Linearizable then |nodes| - 1 else dice];
                && (forall v :: r == Value(v) <==> key in d && d[key] == v)
                && (r == ReadError <==> key !in d)
    {
      if consistency == Linearizable {
        if tail == null {
          return ReadPanics;
        }
        r := tail.Read(key);
      } else if consistency == Sequential {
        if len == 0 {
          return ReadPanics;
        }
        var t: ChainNode? := head;
        ghost var p := 0;
        while t != null
          invariant p <= dice && t == nodes[p]
          decreases |nodes| - p
        {
          assert p + 1 < |nodes| ==> nodes[p + 1 - 1].next == nodes[p + 1];
          if t.id == dice {
            r := t.Read(key);
            return;
          }
          t := t.next;
          p := p + 1;
        }
      } else {
        r := ReadError;
      }
    }
  }

  /** A write that was put on all nodes is on each of them. */
  lemma WrittenEverywhere(nodes: seq<ChainNode>, before: seq<Db>, after: seq<Db>, key: string, val: string)
    requires AfterWrite(nodes, before, after, key, val, |nodes|)
    ensures forall j :: 0 <= j < |nodes| ==> key in after[j] && after[j][key] == val
  {
    forall j | 0 <= j < |nodes|
      ensures key in after[j] && after[j][key] == val
    {
      assert Hit(nodes, 0, |nodes|, nodes[j].db);
    }
  }

  /** Read after write: once a linearizable write has answered nil, every read returns its value, from
      the tail as from whichever node the dice choose. */
  method WriteThenRead(chain: Chain, key: string, val: string, fails: set<int>, consistency: Consistency, dice: nat)
      returns (written: Answer, read: ReadAnswer)
    requires chain.Valid() && (chain.len > 0 ==> dice < chain.len)
    modifies set i | 0 <= i < |chain.nodes| :: chain.nodes[i].db
    ensures written == Nil && consistency != Other ==> read == Value(val)
  {
    written := chain.Write(key, val, Linearizable, fails);
    if written == Nil {
      WrittenEverywhere(chain.nodes, old(Contents(chain.nodes)), Contents(chain.nodes), key, val);
    }
    hide AfterWrite;
    read := chain.Read(key, consistency, dice);
  }
}

/** Rendezvous hashing (pkg/partition/consistent/rendezvous.go). */
module RendezvousHashing {
  import opened Options
  import opened Mixing
  import opened Sequences

  /** RkvNode: identified by all three fields, located by name. */
  datatype Node = Node(name: string, latency: int, remote: bool)

  /** The hash of a byte string; xxhash in the source. */
  type Hasher = string -> Word

  datatype Located = Nodes(nodes: seq<Node>) | NilNodes | LocatePanics

  function Score(hash: Hasher, key: string, node: Node): nat {
    Blend(hash(key), hash(node.name))
  }

  /** The first position with the highest score. */
  ghost predicate IsOwner(hash: Hasher, key: string, ns: seq<Node>, m: int) {
    && 0 <= m < |ns|
    && (forall j :: 0 <= j < |ns| ==> Score(hash, key, ns[j]) <= Score(hash, key, ns[m]))
    && (forall j :: 0 <= j < m ==> Score(hash, key, ns[j]) < Score(hash, key, ns[m]))
  }

  function OwnerIndex(hash: Hasher, key: string, ns: seq<Node>): (m: nat)
    requires ns != []
    ensures m < |ns|
  {
    var n := |ns| - 1;
    if n == 0 then 0
    else
      var m := OwnerIndex(hash, key, ns[..n]);
      if Score(hash, key, ns[n]) > Score(hash, key, ns[m]) then n else m
  }

  lemma OwnerIndexFirst(hash: Hasher, key: string, ns: seq<Node>)
    requires ns != []
    ensures OwnerIndex(hash, key, ns[..1]) == 0
  {
  }

  lemma OwnerIndexNext(hash: Hasher, key: string, ns: seq<Node>, i: nat)
    requires 0 < i < |ns|
    ensures var m := OwnerIndex(hash, key, ns[..i]);
            OwnerIndex(hash, key, ns[..i + 1]) == if Score(hash, key, ns[i]) > Score(hash, key, ns[m]) then i else m
  {
    assert ns[..i + 1][..i] == ns[..i];
  }

  lemma {:induction false} OwnerIndexOwns(hash: Hasher, key: string, ns: seq<Node>)
    requires ns != []
    ensures IsOwner(hash, key, ns, OwnerIndex(hash, key, ns))
  {
    hide Score;
    var n := |ns| - 1;
    if n > 0 {
      OwnerIndexOwns(hash, key, ns[..n]);
      assert ns == ns[..n] + [ns[n]];
    }
  }

  lemma OwnerIsUnique(hash: Hasher, key: string, ns: seq<Node>, m: int, m': int)
    requires IsOwner(hash, key, ns, m) && IsOwner(hash, key, ns, m')
    ensures m == m'
  {
    hide Score;
    assert Score(hash, key, ns[m]) == Score(hash, key, ns[m']);
  }

  /** The node that LocateKey returns. */
  function Owner(hash: Hasher, key: string, ns: seq<Node>): Node
    requires ns != []
  {
    ns[OwnerIndex(hash, key, ns)]
  }

  /** What LocateNodes returns: the owner's neighbours in insertion order, counted around. */
  function Locate(hash: Hasher, key: string, ns: seq<Node>, count: int): Located {
    var size := |Elements(ns)|;
    if size < count then NilNodes
    else if ns == [] || count < 0 then LocatePanics
    else
      assert ns[0] in Elements(ns);
      ElementsCount(ns);
      Nodes(Around(ns, OwnerIndex(hash, key, ns), size, count))
  }

  // ---------------------------------------------------------------- placement laws

  /** No two different nodes share a name hash. */
  ghost predicate DistinctHashes(hash: Hasher, ns: seq<Node>) {
    forall a, b :: a in ns && b in ns && hash(a.name) == hash(b.name) ==> a == b
  }

  /** Whatever the order in which nodes were added, a key has one owner. */
  lemma OwnerIgnoresOrder(hash: Hasher, key: string, ns: seq<Node>, ms: seq<Node>)
    requires ns != [] && ms != [] && Elements(ns) == Elements(ms) && DistinctHashes(hash, ns)
    ensures Owner(hash, key, ns) == Owner(hash, key, ms)
  {
    hide Blend;
    var a, b := Owner(hash, key, ns), Owner(hash, key, ms);
    assert a in Elements(ns) && b in Elements(ms);
    OwnerIndexOwns(hash, key, ns);
    OwnerIndexOwns(hash, key, ms);
    NoTies(hash(key), hash(a.name), hash(b.name));
  }

  ghost predicate IsOrderOf(ms: seq<Node>, ns: seq<Node>) {
    ms != [] && multiset(ms) == multiset(ns)
  }

  /** No other node has the name hash of the one that owns the key. */
  ghost predicate OwnerStandsOut(hash: Hasher, key: string, ns: seq<Node>)
    requires ns != []
  {
    forall b :: b in ns && hash(b.name) == hash(Owner(hash, key, ns).name) ==> b == Owner(hash, key, ns)
  }

  /** Put in front, a node that ties with the owner owns the key. */
  lemma TieTakesOver(hash: Hasher, key: string, ns: seq<Node>, k: nat)
    requires k < |ns| && hash(ns[k].name) == hash(Owner(hash, key, ns).name)
    ensures var ms := [ns[k]] + ns[..k] + ns[k + 1..];
            IsOrderOf(ms, ns) && Owner(hash, key, ms) == ns[k]
  {
    hide Blend;
    var ms := [ns[k]] + ns[..k] + ns[k + 1..];
    assert ns == ns[..k] + [ns[k]] + ns[k + 1..];
    OwnerIndexOwns(hash, key, ns);
    OwnerIndexOwns(hash, key, ms);
    assert Score(hash, key, ns[k]) == Score(hash, key, Owner(hash, key, ns));
    hide Score, OwnerIndex;
    forall j | 0 <= j < |ms|
      ensures Score(hash, key, ms[j]) <= Score(hash, key, ms[0])
    {
      assert ms[j] in multiset(ms) && ms[j] in ns;
    }
    OwnerIsUnique(hash, key, ms, 0, OwnerIndex(hash, key, ms));
  }

  lemma OrderKeepsOwner(hash: Hasher, key: string, ns: seq<Node>, ms: seq<Node>)
    requires ns != [] && IsOrderOf(ms, ns) && OwnerStandsOut(hash, key, ns)
    ensures Owner(hash, key, ms) == Owner(hash, key, ns)
  {
    hide Blend;
    var a, b := Owner(hash, key, ns), Owner(hash, key, ms);
    OwnerIndexOwns(hash, key, ns);
    OwnerIndexOwns(hash, key, ms);
    assert a in multiset(ms) && b in multiset(ns);
    NoTies(hash(key), hash(a.name), hash(b.name));
  }

  /** All orders of the nodes give the key one owner exactly if no other node ties with it. */
  lemma OwnerIsExact(hash: Hasher, key: string, ns: seq<Node>)
    requires ns != []
    ensures (forall ms :: IsOrderOf(ms, ns) ==> Owner(hash, key, ms) == Owner(hash, key, ns)) <==>
            OwnerStandsOut(hash, key, ns)
  {
    hide Owner;
    if OwnerStandsOut(hash, key, ns) {
      forall ms | IsOrderOf(ms, ns)
        ensures Owner(hash, key, ms) == Owner(hash, key, ns)
      {
        OrderKeepsOwner(hash, key, ns, ms);
      }
    } else {
      var b :| b in ns && hash(b.name) == hash(Owner(hash, key, ns).name) && b != Owner(hash, key, ns);
      var k :| 0 <= k < |ns| && ns[k] == b;
      TieTakesOver(hash, key, ns, k);
    }
  }

  /** Every node owns some key hash, so the owner depends on the key. */
  lemma EveryNodeCanOwn(hash: Hasher, ns: seq<Node>, p: nat) returns (k: Word)
    requires p < |ns| && forall j :: 0 <= j < |ns| && j != p ==> hash(ns[j].name) != hash(ns[p].name)
    ensures forall key :: hash(key) == k ==> Owner(hash, key, ns) == ns[p]
  {
    hide Blend, KeyFor;
    k := KeyFor(hash(ns[p].name));
    forall key | hash(key) == k
      ensures Owner(hash, key, ns) == ns[p]
    {
      forall j | 0 <= j < |ns| && j != p
        ensures Score(hash, key, ns[j]) < Score(hash, key, ns[p])
      {
        KeyForWins(hash(ns[p].name), hash(ns[j].name));
      }
      OwnerIndexOwns(hash, key, ns);
      hide OwnerIndex, Score;
      OwnerIsUnique(hash, key, ns, p, OwnerIndex(hash, key, ns));
    }
  }

  /** Adding nodes moves a key only to one of the added nodes. */
  lemma MinimalDisruption(hash: Hasher, key: string, ns: seq<Node>, added: seq<Node>)
    requires ns != []
    ensures Owner(hash, key, ns + added) == Owner(hash, key, ns) || Owner(hash, key, ns + added) in added
  {
    OwnerIndexOwns(hash, key, ns + added);
    OwnerIndexOwns(hash, key, ns);
    hide Score, OwnerIndex;
    var m := OwnerIndex(hash, key, ns + added);
    if m < |ns| {
      assert forall j :: 0 <= j < |ns| ==> ns[j] == (ns + added)[j];
      assert IsOwner(hash, key, ns, m);
      OwnerIsUnique(hash, key, ns, m, OwnerIndex(hash, key, ns));
    }
  }

  /** With distinct nodes, up to all of them can be located, without repetition, owner first. */
  lemma LocateIsDistinct(hash: Hasher, key: string, ns: seq<Node>, count: int)
    requires NoDuplicates(ns) && 1 <= count <= |ns|
    ensures Locate(hash, key, ns, count).Nodes?
    ensures var r := Locate(hash, key, ns, count).nodes;
            && |r| == count && NoDuplicates(r) && r[0] == Owner(hash, key, ns)
            && forall i :: 0 <= i < count ==> r[i] in ns
  {
    hide OwnerIndex;
    ElementsCount(ns);
    AroundNoDuplicates(ns, OwnerIndex(hash, key, ns), |ns|, count);
  }

  /** The node added after the one at position p, after the last one the first. */
  ghost predicate IsAfter(ns: seq<Node>, p: int, next: Node) {
    0 <= p < |ns| && next == ns[if p + 1 < |ns| then p + 1 else 0]
  }

  /** Each further node is the one that was added next. */
  lemma LocateFollows(hash: Hasher, key: string, ns: seq<Node>, count: int, i: nat)
    requires NoDuplicates(ns) && i + 1 < count <= |ns|
    ensures Locate(hash, key, ns, count).Nodes? && |Locate(hash, key, ns, count).nodes| == count
    ensures var r := Locate(hash, key, ns, count).nodes;
            forall p :: 0 <= p < |ns| && ns[p] == r[i] ==> IsAfter(ns, p, r[i + 1])
  {
    hide OwnerIndex;
    ElementsCount(ns);
    var o := OwnerIndex(hash, key, ns);
    WrapAround(o, i, |ns|);
    WrapAround(o, i + 1, |ns|);
  }

  // ---------------------------------------------------------------- the table

  class Rendezvous {
    const hash: Hasher
    var nodes: map<Node, int>
    var nstr: seq<Node>
    var nhash: seq<Word>

    ghost predicate Valid()
      reads this
    {
      && nodes.Keys == Elements(nstr)
      && |nhash| == |nstr|
      && forall i :: 0 <= i < |nstr| ==> nhash[i] == hash(nstr[i].name)
    }

    constructor (hash: Hasher)
      ensures Valid() && this.hash == hash && nstr == []
    {
      this.hash := hash;
      nodes := map[];
      nstr := [];
      nhash := [];
    }

    method AddNode(node: Node)
      requires Valid()
      modifies this
      ensures Valid() && nstr == old(nstr) + [node]
    {
      nodes := nodes[node := |nstr|];
      nstr := nstr + [node];
      nhash := nhash + [hash(node.name)];
    }

    /** The loop with the running maximum, which both LocateKey and LocateNodes contain. */
    method FindOwner(key: string) returns (midx: nat)
      requires Valid() && nstr != []
      ensures midx == OwnerIndex(hash, key, nstr)
    {
      hide Blend, OwnerIndex;
      var khash := hash(key);
      OwnerIndexFirst(hash, key, nstr);
      midx := 0;
      var mhash := Blend(khash, nhash[0]);
      for i := 1 to |nhash|
        invariant midx < i && mhash == Score(hash, key, nstr[midx])
        invariant midx == OwnerIndex(hash, key, nstr[..i])
      {
        var h := Blend(khash, nhash[i]);
        OwnerIndexNext(hash, key, nstr, i);
        if h > mhash {
          midx := i;
          mhash := h;
        }
      }
      assert nstr[..|nhash|] == nstr;
    }

    method LocateKey(key: string) returns (r: Option<Node>)
      requires Valid()
      ensures r == if nstr == [] then None else Some(Owner(hash, key, nstr))
    {
      assert |nodes| == 0 <==> nstr == [] by {
        assert nstr != [] ==> nstr[0] in nodes.Keys;
        assert nstr == [] ==> Elements(nstr) == {};
      }
      if |nodes| == 0 {
        return None;
      }
      var midx := FindOwner(key);
      r := Some(nstr[midx]);
    }

    method LocateNodes(key: string, count: int) returns (r: Located)
      requires Valid()
      ensures r == Locate(hash, key, nstr, count)
    {
      hide OwnerIndex;
      if |nodes| < count {
        return NilNodes;
      }
      if |nhash| == 0 || count < 0 {
        return LocatePanics;
      }
      var midx := FindOwner(key);
      assert nstr[0] in nodes.Keys;
      ElementsCount(nstr);
      var size := |nodes|;
      var res: seq<Node> := [];
      for i := 0 to count
        invariant |res| == i && forall j :: 0 <= j < i ==> res[j] == nstr[(midx + j) % size]
      {
        res := res + [nstr[(midx + i) % size]];
      }
      assert res == Around(nstr, midx, size, count);
      r := Nodes(res);
    }
  }
}

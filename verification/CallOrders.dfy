/**
 Arranging the calls on a key: by revision, then by the moment of the step that decided among
 calls of one revision, if it is known, then creates before what saw them, then as they began.
 */
module CallOrders {
  import opened Bytes
  import opened Protocol
  import opened ProtocolInvariant

  /** The deciding moments of calls, by their position. */
  type Times = map<nat, nat>

  const NO_TIMES: Times := map[]

  function TimeOf(times: Times, i: nat): int {
    if i in times then times[i] else -1
  }

  function KindRank(op: Op): int {
    if Writes(op) then 0 else 1
  }

  predicate Before(s: State, times: Times, i: nat, j: nat)
    requires i < |s.ops| && j < |s.ops|
  {
    var a, b := s.ops[i], s.ops[j];
    || Rank(a) < Rank(b)
    || (Rank(a) == Rank(b) && TimeOf(times, i) < TimeOf(times, j))
    || (Rank(a) == Rank(b) && TimeOf(times, i) == TimeOf(times, j) && KindRank(a) < KindRank(b))
    || (Rank(a) == Rank(b) && TimeOf(times, i) == TimeOf(times, j) && KindRank(a) == KindRank(b) && i < j)
  }

  ghost predicate InOrder(s: State, times: Times, lin: seq<nat>) {
    && (forall p :: 0 <= p < |lin| ==> lin[p] < |s.ops|)
    && (forall p, q :: 0 <= p < q < |lin| ==> Before(s, times, lin[p], lin[q]))
  }

  function Place(s: State, times: Times, lin: seq<nat>, x: nat): (r: seq<nat>)
    requires InOrder(s, times, lin) && x < |s.ops| && x !in lin
    ensures InOrder(s, times, r)
    ensures forall i :: i in r <==> i in lin || i == x
  {
    if lin == [] then [x]
    else
      var last, front := lin[|lin| - 1], lin[..|lin| - 1];
      assert lin == front + [last];
      if Before(s, times, last, x) then
        AppendKeepsOrder(s, times, lin, x);
        lin + [x]
      else
        var r := Place(s, times, front, x);
        assert forall i :: i in front ==> Before(s, times, i, last);
        AppendKeepsOrder(s, times, r, last);
        r + [last]
  }

  lemma AppendKeepsOrder(s: State, times: Times, lin: seq<nat>, x: nat)
    requires InOrder(s, times, lin) && x < |s.ops|
    requires lin == [] || Before(s, times, lin[|lin| - 1], x) || forall i :: i in lin ==> Before(s, times, i, x)
    ensures InOrder(s, times, lin + [x])
  {
    forall p | 0 <= p < |lin|
      ensures Before(s, times, lin[p], x)
    {
      assert lin[p] in lin;
      assert p < |lin| - 1 ==> Before(s, times, lin[p], lin[|lin| - 1]);
    }
    hide Before;
  }

  /** The calls to arrange: effective ones, and creates under way whose deciding step has happened. */
  predicate Takes(s: State, times: Times, i: nat, key: Key)
    requires i < |s.ops|
  {
    Effective(s, i, key) || (s.ops[i].key == key && s.ops[i].Write? && s.ops[i].wphase.Drawn? && i in times)
  }

  function Arrange(s: State, times: Times, key: Key, n: nat): (lin: seq<nat>)
    requires n <= |s.ops|
    ensures InOrder(s, times, lin)
    ensures forall i :: i in lin <==> 0 <= i < n && Takes(s, times, i, key)
  {
    if n == 0 then []
    else
      var lin := Arrange(s, times, key, n - 1);
      if Takes(s, times, n - 1, key) then Place(s, times, lin, n - 1) else lin
  }

  lemma BeforeIsStrict(s: State, times: Times, i: nat, j: nat)
    requires i < |s.ops| && j < |s.ops| && Before(s, times, i, j)
    ensures i != j && !Before(s, times, j, i)
  {
  }

  lemma BeforeMeansSooner(s: State, times: Times, lin: seq<nat>, p: nat, q: nat)
    requires InOrder(s, times, lin) && p < |lin| && q < |lin| && Before(s, times, lin[p], lin[q])
    ensures p < q
  {
    BeforeIsStrict(s, times, lin[p], lin[q]);
  }
}

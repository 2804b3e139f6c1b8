/**
 Conditional creates are not compare-and-swap on the register: the index accepts one on its
 assumed revision while an older create, which drew its number in between, is still to be
 published. Once that has happened no order of the calls explains both, from any state on.
 */
module StaleCreates {
  import opened Bytes
  import opened Options
  import opened Protocol
  import opened ProtocolInvariant
  import opened Linearizability
  import opened Continuations
  import opened Overlaps

  // ---------------------------------------------------------------- no order explains it

  /** `c` is the create `a` itself or an answered read that returned it. */
  ghost predicate Saw(s: State, key: Key, a: nat, c: nat) {
    && a < |s.ops| && c < |s.ops| && HasRev(s.ops[a])
    && (c == a || (s.ops[c].Read? && s.ops[c].key == key && s.ops[c].rphase.GotValue? && s.ops[c].resp.Some? &&
                   s.ops[c].found.main == s.ops[a].rev))
  }

  /** `u` succeeded on the revision of `a`; `m` began after `c`, which saw `a`, was answered, and
      was itself answered before `r`, which read `u`. */
  ghost predicate Unexplained(s: State, key: Key, a: nat, c: nat, m: nat, u: nat, r: nat) {
    && m < |s.ops| && u < |s.ops| && r < |s.ops| && m != u && m != a && Saw(s, key, a, c)
    && s.ops[m].Write? && s.ops[m].wphase.Published? && s.ops[m].key == key && s.ops[m].resp.Some?
    && IsUpdate(s, key, u) && s.ops[u].assumed.value == s.ops[a].rev
    && s.ops[r].Read? && s.ops[r].key == key && s.ops[r].rphase.GotValue? && s.ops[r].resp.Some?
    && s.ops[r].found.main == s.ops[u].rev
    && Precedes(s, c, m) && Precedes(s, m, r)
  }

  /** A call answered before another is in front of it. */
  lemma InFront(s: State, key: Key, lin: seq<nat>, p: nat, q: nat)
    requires IsOrder(s, key, lin) && p < |lin| && q < |lin| && Precedes(s, lin[p], lin[q]) && lin[p] != lin[q]
    ensures p < q
  {
  }

  /** The create whose revision the register shows, and nothing that counts after it. */
  lemma HolderOf(s: State, key: Key, lin: seq<nat>, p: nat, w: nat) returns (m: nat)
    requires IsOrder(s, key, lin) && DistinctRevisions(s) && p <= |lin| && w < |s.ops| && HasRev(s.ops[w])
    requires IsAt(Register(s, lin[..p]), s.ops[w].rev)
    ensures m < p && lin[m] == w && forall q :: m < q < p ==> !Writes(s.ops[lin[q]])
  {
    m := RegisterFrom(s, lin[..p]);
    hide Register;
    assert MayTakeEffect(s, lin[m], key);
    SameRevSameOp(s, lin[m], w);
  }

  /** Before the read the last create is `u`, and before that it is `a`. */
  lemma LastCreates(s: State, key: Key, a: nat, c: nat, m: nat, u: nat, r: nat, lin: seq<nat>, pr: nat)
      returns (pa: nat, pu: nat)
    requires DistinctRevisions(s) && Unexplained(s, key, a, c, m, u, r) && IsLinearization(s, key, lin)
    requires pr < |lin| && lin[pr] == r
    ensures pa < pu < pr && lin[pa] == a && lin[pu] == u
    ensures forall q :: pa < q < pr && q != pu ==> !Writes(s.ops[lin[q]])
  {
    assert IsRegisterOrder(s, key, lin) && IsOrder(s, key, lin);
    assert ReadFits(s.ops[lin[pr]], Register(s, lin[..pr]));
    pu := HolderOf(s, key, lin, pr, u);
    assert ConditionFits(s.ops[lin[pu]], Register(s, lin[..pu]));
    hide IsOrder, IsRegisterOrder, IsLinearization, DistinctRevisions, Register;
    pa := HolderOf(s, key, lin, pu, a);
  }

  /** Whatever saw a create is not in front of it. */
  lemma SawIsBehind(s: State, key: Key, a: nat, c: nat, lin: seq<nat>, pa: nat) returns (pc: nat)
    requires DistinctRevisions(s) && IsLinearization(s, key, lin) && Saw(s, key, a, c)
    requires pa < |lin| && lin[pa] == a
    ensures pa <= pc < |lin| && lin[pc] == c
  {
    assert IsRegisterOrder(s, key, lin) && IsOrder(s, key, lin);
    if c == a {
      pc := pa;
    } else {
      pc := MustBeIn(s, key, lin, c);
      assert ReadFits(s.ops[lin[pc]], Register(s, lin[..pc]));
      var held := HolderOf(s, key, lin, pc, a);
      hide Register, DistinctRevisions;
    }
  }

  lemma MustBeIn(s: State, key: Key, lin: seq<nat>, i: nat) returns (p: nat)
    requires IsOrder(s, key, lin) && i < |s.ops| && s.ops[i].resp.Some? && Effective(s, i, key)
    ensures p < |lin| && lin[p] == i
  {
    p :| 0 <= p < |lin| && lin[p] == i;
  }

  lemma NoOrderExplains(s: State, key: Key, a: nat, c: nat, m: nat, u: nat, r: nat, lin: seq<nat>)
    requires DistinctRevisions(s) && Unexplained(s, key, a, c, m, u, r)
    ensures !IsLinearization(s, key, lin)
  {
    if IsLinearization(s, key, lin) {
      assert IsOrder(s, key, lin);
      hide IsLinearization, IsOrder, DistinctRevisions;
      var pr := MustBeIn(s, key, lin, r);
      var pm := MustBeIn(s, key, lin, m);
      var pa, pu := LastCreates(s, key, a, c, m, u, r, lin, pr);
      var pc := SawIsBehind(s, key, a, c, lin, pa);
      InFront(s, key, lin, pm, pr);
      InFront(s, key, lin, pc, pm);
    }
  }

  lemma IsUnexplained(s: State, key: Key, a: nat, c: nat, m: nat, u: nat, r: nat)
    requires DistinctRevisions(s) && Unexplained(s, key, a, c, m, u, r)
    ensures !Linearizable(s, key)
  {
    forall lin
      ensures !IsLinearization(s, key, lin)
    {
      NoOrderExplains(s, key, a, c, m, u, r, lin);
    }
  }

  // ---------------------------------------------------------------- how it comes about

  /** An accepted conditional create is the latest, and a create that drew before it, but began after
      the assumed one was seen, is not finished. */
  ghost predicate Pends(s: State, key: Key, a: nat, c: nat, m: nat, u: nat) {
    && m < |s.ops| && u < |s.ops| && m != u && m != a && Saw(s, key, a, c)
    && s.ops[m].Write? && s.ops[m].wphase.Drawn? && s.ops[m].key == key && s.ops[m].resp.None?
    && IsUpdate(s, key, u) && s.ops[u].assumed.value == s.ops[a].rev
    && s.ops[m].assumed.None? && 1 <= s.ops[m].rev < s.ops[u].rev <= s.counter
    && Latest(s, key) == s.ops[u].rev && key in s.index
    && Precedes(s, c, m)
  }

  lemma LatestIsStored(place: Placement, steps: seq<Step>, s: State, key: Key, u: nat)
    requires Reaches(place, steps, s) && !s.failed && u < |s.ops| && s.ops[u].Write? && s.ops[u].wphase.Published?
    requires FirstStore(place, s.ops[u].rev)
    ensures SyncNodes(place(s.ops[u].rev)) != []
    ensures Stored(s, SyncNodes(place(s.ops[u].rev))[0], s.ops[u].rev).Some?
  {
    ReachesInv(place, steps, s);
    hide SyncNodes, Stored;
    assert OpOk(place, s, s.ops[u]);
    assert 0 in s.ops[u].done;
  }

  /** Finishing that create and reading the key. */
  lemma StaleCreateBreaks(place: Placement, steps: seq<Step>, s: State, key: Key, a: nat, c: nat, m: nat, u: nat)
      returns (more: seq<Step>, s': State)
    requires Reaches(place, steps, s) && FirstStores(place, s.counter) && DistinctRevisions(s) && !s.failed
    requires Pends(s, key, a, c, m, u)
    ensures Reaches(place, steps + more, s') && Finishing(more)
    ensures DistinctRevisions(s') && !Linearizable(s', key) && s'.counter <= s.counter + 1
  {
    var s1, value;
    hide Reaches, FirstStores, Linearizable, NowRead, NowFinished, Pends, Unexplained, DistinctRevisions;
    more, s1, s', value := FinishAndRead(place, steps, s, key, a, c, m, u);
    EndsUnexplained(place, s, s1, s', key, a, c, m, u, value);
    IsUnexplained(s', key, a, c, m, u, |s.ops|);
  }

  lemma FinishAndRead(place: Placement, steps: seq<Step>, s: State, key: Key, a: nat, c: nat, m: nat, u: nat)
      returns (more: seq<Step>, s1: State, s': State, value: string)
    requires Reaches(place, steps, s) && FirstStores(place, s.counter) && !s.failed && Pends(s, key, a, c, m, u)
    ensures Reaches(place, steps + more, s') && Finishing(more) && s'.counter <= s.counter + 1
    ensures NowFinished(s, s1, m) && NowRead(place, s1, s', key, value)
  {
    assert FirstStore(place, s.ops[m].rev) && FirstStore(place, s.ops[u].rev);
    hide Reaches, FirstStores, FirstStore, NowRead, Saw, Precedes;
    var finish, read;
    finish, s1 := FinishCreate(place, steps, s, m);
    read, s', value := ReadLatest(place, steps + finish, s1, key, u);
    more := finish + read;
    Join3(place, steps, finish, read, s');
  }

  lemma ReadLatest(place: Placement, steps: seq<Step>, s: State, key: Key, u: nat)
      returns (more: seq<Step>, s': State, value: string)
    requires Reaches(place, steps, s) && !s.failed && u < |s.ops| && s.ops[u].Write? && s.ops[u].wphase.Published?
    requires FirstStore(place, s.ops[u].rev) && key in s.index && Latest(s, key) == s.ops[u].rev
    ensures Reaches(place, steps + more, s') && Finishing(more) && s'.counter == s.counter
    ensures NowRead(place, s, s', key, value)
  {
    hide Reaches, SyncNodes, Stored;
    LatestIsStored(place, steps, s, key, u);
    more, s' := ReadNow(place, steps, s, key);
    value := Stored(s, SyncNodes(place(Latest(s, key)))[0], Latest(s, key)).value;
  }

  lemma EndsUnexplained(place: Placement, s: State, s1: State, s': State, key: Key, a: nat, c: nat, m: nat, u: nat,
                        value: string)
    requires DistinctRevisions(s) && Pends(s, key, a, c, m, u) && NowFinished(s, s1, m)
    requires NowRead(place, s1, s', key, value)
    ensures DistinctRevisions(s') && Unexplained(s', key, a, c, m, u, |s.ops|)
  {
    assert forall i :: 0 <= i < |s.ops| ==> s'.ops[i] == s1.ops[i];
    assert forall i :: 0 <= i < |s.ops| ==> HasRev(s'.ops[i]) == HasRev(s.ops[i]);
  }

  // ---------------------------------------------------------------- from any state on

  lemma NewIsDistinct(place: Placement, steps: seq<Step>, s: State, op: Op)
    requires Reaches(place, steps, s) && DistinctRevisions(s)
    requires op.Write? && op.rev == s.counter + 1
    ensures DistinctRevisions(WithOp(s, op).(counter := s.counter + 1))
  {
    ReachesInv(place, steps, s);
    forall i | 0 <= i < |s.ops| && HasRev(s.ops[i])
      ensures s.ops[i].rev <= s.counter
    {
      assert OpOk(place, s, s.ops[i]);
    }
  }

  lemma FinishedIsDistinct(s: State, s': State, i: nat)
    requires DistinctRevisions(s) && NowFinished(s, s', i) && HasRev(s.ops[i])
    ensures DistinctRevisions(s')
  {
    assert forall k :: 0 <= k < |s.ops| ==> HasRev(s'.ops[k]) == HasRev(s.ops[k]);
    assert forall k :: 0 <= k < |s.ops| && HasRev(s.ops[k]) ==> s'.ops[k].rev == s.ops[k].rev;
  }

  /** One more create of the key, finished: it is the latest. */
  lemma CreateNow(place: Placement, steps: seq<Step>, s: State, key: Key, value: string, assumed: Option<int>)
      returns (more: seq<Step>, s': State)
    requires Reaches(place, steps, s) && FirstStore(place, s.counter + 1) && DistinctRevisions(s)
    requires assumed.Some? ==> key in s.index && Latest(s, key) == assumed.value
    ensures Reaches(place, steps + more, s') && DistinctRevisions(s') && s'.failed == s.failed
    ensures |s'.ops| == |s.ops| + 1 && s'.ops[..|s.ops|] == s.ops
    ensures key in s'.index && Latest(s', key) == s.counter + 1
    ensures s.counter < s'.counter <= s.counter + 2
    ensures var op := s'.ops[|s.ops|];
            && op.Write? && op.wphase.Published? && op.key == key && op.assumed == assumed && op.rev == s.counter + 1
            && op.resp.Some? && op.resp.value < s'.clock
  {
    LatestIsCounter(place, steps, s, key);
    hide Reaches, FirstStore;
    var create, s1 := NewCreate(place, steps, s, key, value, assumed);
    NewIsDistinct(place, steps, s, s1.ops[|s.ops|]);
    var finish;
    finish, s' := FinishCreate(place, steps + create, s1, |s.ops|);
    FinishedIsDistinct(s1, s', |s.ops|);
    more := create + finish;
    Join3(place, steps, create, finish, s');
  }

  /** A create, one that draws its number, and a conditional one on the first: then the second is published. */
  lemma UpdatesBreak(place: Placement, steps: seq<Step>, s: State, key: Key, first: string,
                     stale: string, update: string)
      returns (more: seq<Step>, s': State)
    requires Reaches(place, steps, s) && FirstStores(place, s.counter + 5) && DistinctRevisions(s) && !s.failed
    ensures Reaches(place, steps + more, s') && s'.counter <= s.counter + 6
    ensures DistinctRevisions(s') && IsRegister(s', key) && !Linearizable(s', key)
  {
    hide Reaches, FirstStore, Linearizable, DistinctRevisions, IsRegister;
    var a := |s.ops|;
    var st1, s1 := CreateNow(place, steps, s, key, first, None);
    var st2, s2 := NewCreate(place, steps + st1, s1, key, stale, None);
    NewIsDistinct(place, steps + st1, s1, s2.ops[a + 1]);
    Join3(place, steps, st1, st2, s2);
    var st3, s3 := CreateNow(place, steps + (st1 + st2), s2, key, update, Some(s1.ops[a].rev));
    Join3(place, steps, st1 + st2, st3, s3);
    assert Pends(s3, key, a, a, a + 1, a + 2) by {
      assert s3.ops[a] == s2.ops[a] == s1.ops[a] && s3.ops[a + 1] == s2.ops[a + 1];
    }
    var st4;
    st4, s' := StaleCreateBreaks(place, steps + (st1 + st2 + st3), s3, key, a, a, a + 1, a + 2);
    more := st1 + st2 + st3 + st4;
    Join3(place, steps, st1 + st2 + st3, st4, s');
    ReachesIs(place, steps + more, s');
    EveryRunIsRegister(place, steps + more, key);
  }
}

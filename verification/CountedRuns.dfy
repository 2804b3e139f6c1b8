/**
 Index calls whose numbers all come from the one global counter: a main number was drawn before
 its call arrives, and a put that opens a generation draws `created` during the call. This is
 why since may skip generations.
 */
module CountedRuns {
  import opened Bytes
  import opened Options
  import opened Revisions
  import opened KeyStates
  import opened Histories
  import opened SinceRefinement
  import opened TreeIndexes

  /** `Draw` is an increment of the counter by anyone; `Arrive` is a call on the index. */
  datatype Action = Draw | Arrive(call: Call)

  datatype Counted = Counted(counter: int, calls: seq<Call>)

  /** The call puts into an empty generation and so draws a number for it. */
  predicate Opens(calls: seq<Call>, c: Call) {
    var k := Lookup(TreeRun(calls), c.key);
    Accepts(k, c.event) && Current(k) == []
  }

  /** A main number was drawn before. A number drawn during the call is above the counter, by as
      much as others increment it between the two halves of the draw. */
  predicate Possible(s: Counted, a: Action) {
    match a
    case Draw => true
    case Arrive(c) => 1 <= c.event.rev.main <= s.counter && (Opens(s.calls, c) ==> s.counter < c.event.draw)
  }

  function After(s: Counted, a: Action): Counted {
    match a
    case Draw => s.(counter := s.counter + 1)
    case Arrive(c) => Counted(if Opens(s.calls, c) then c.event.draw else s.counter, s.calls + [c])
  }

  function CountedRun(actions: seq<Action>): Option<Counted> {
    if actions == [] then Some(Counted(0, []))
    else
      match CountedRun(actions[..|actions| - 1])
      case None => None
      case Some(s) => if Possible(s, actions[|actions| - 1]) then Some(After(s, actions[|actions| - 1])) else None
  }

  // ---------------------------------------------------------------- what the counter gives

  /** What is logged was drawn, and generations drew their numbers after everything before them. */
  ghost predicate Ahead(h: seq<Event>, counter: int) {
    && DrawsAhead(h)
    && forall j :: 0 <= j < |Log(h)| ==> 1 <= Log(h)[j].rev.main <= counter
  }

  lemma ProjectSnoc(calls: seq<Call>, c: Call, key: Key)
    ensures Project(calls + [c], key) == if c.key == key then Project(calls, key) + [c.event] else Project(calls, key)
  {
    assert (calls + [c])[..|calls|] == calls;
  }

  lemma ArrivalIsAhead(h: seq<Event>, e: Event, counter: int, counter': int)
    requires Ahead(h, counter) && 1 <= e.rev.main <= counter <= counter'
    requires Accepts(Run(h), e) && Current(Run(h)) == [] ==> counter < e.draw
    ensures Ahead(h + [e], counter')
  {
    assert (h + [e])[..|h|] == h;
  }

  /** In every run of such calls, for every key. */
  lemma {:induction false} CountedIsAhead(actions: seq<Action>, key: Key)
    requires CountedRun(actions).Some?
    ensures Ahead(Project(CountedRun(actions).value.calls, key), CountedRun(actions).value.counter)
  {
    if actions != [] {
      var before, a := actions[..|actions| - 1], actions[|actions| - 1];
      CountedIsAhead(before, key);
      var s := CountedRun(before).value;
      if a.Arrive? {
        ProjectSnoc(s.calls, a.call, key);
        if a.call.key == key {
          TreeRunProjects(s.calls, key);
          ArrivalIsAhead(Project(s.calls, key), a.call.event, s.counter, After(s, a).counter);
        }
      }
    }
  }

  // ---------------------------------------------------------------- since over such runs

  ghost predicate SubsOk(log: seq<Entry>) {
    forall j :: 0 <= j < |log| ==> log[j].rev.sub >= 0
  }

  lemma DrawnIsProper(log: seq<Entry>)
    requires SubsOk(log) && forall j :: 0 <= j < |log| ==> log[j].rev.main >= 1
    ensures Proper(log)
  {
    forall j | 0 <= j < |log|
      ensures NewestSub(log, log[j].rev.main) >= 0
    {
      NewestOfMain(log, j);
    }
  }

  /** For any key of any run that is well-ordered on the key: since is exactly what it promises. */
  lemma CountedSince(actions: seq<Action>, key: Key, since: int)
    requires CountedRun(actions).Some? && key in TreeRun(CountedRun(actions).value.calls)
    requires var h := Project(CountedRun(actions).value.calls, key); WellOrdered(h) && SubsOk(Log(h))
    ensures var calls := CountedRun(actions).value.calls;
            var r := SinceOf(TreeRun(calls), key, since);
            r.Listed? && IsSince(Log(Project(calls, key)), since, r.revs)
  {
    var calls := CountedRun(actions).value.calls;
    var h := Project(calls, key);
    CountedIsAhead(actions, key);
    TreeRunProjects(calls, key);
    DrawnIsProper(Log(h));
    hide CountedRun, Project, TreeRun, Proper, IsSince;
    SinceIsExact(h);
    assert KeepsPromise(h, since);
  }

  /** So the range of a single key, which the source does not sort, is sorted. */
  lemma SingleKeyRangeIsSorted(actions: seq<Action>, key: Key, since: int)
    requires CountedRun(actions).Some? && key in TreeRun(CountedRun(actions).value.calls)
    requires var h := Project(CountedRun(actions).value.calls, key); WellOrdered(h) && SubsOk(Log(h))
    ensures var r := SinceOf(TreeRun(CountedRun(actions).value.calls), key, since);
            r.Listed? && Sorted(r.revs)
  {
    CountedSince(actions, key, since);
    IncreasingIsSorted(SinceOf(TreeRun(CountedRun(actions).value.calls), key, since).revs);
  }

  lemma IncreasingIsSorted(out: seq<Revision>)
    requires MainsIncrease(out)
    ensures Sorted(out)
  {
  }
}

/** What one tick does to the tasks and to the record of executions. */
module TaskTicks {
  import opened Text
  import opened Cron
  import opened TaskGraph
  import opened TaskRuns

  /** The roots whose first next run a tick set, those whose run was due, and the
      walk below the due ones. */
  datatype Round = Round(armed: set<string>, roots: set<string>, walk: Walk)

  predicate RowAfter(k: string, before: Row, after: Row, rd: Round, plans: Plans, now: int) {
    && after.node == before.node
    && if k in rd.walk.run then
         Stamped(before.node.schedule, plans, now, before.times, after.times)
       else if k in rd.roots || k in rd.armed then
         after.times.last == before.times.last && Rescheduled(before.node.schedule, plans, now, after.times.next)
       else
         after.times == before.times
  }

  /** The round's walk is what was executed, in order, and every task's times
      changed as the round says. */
  predicate Recorded(s0: State, s: State, rd: Round, plans: Plans, now: int) {
    && s0.calls <= s.calls && |s.calls| == |s0.calls| + |rd.walk.run| && rd.walk.from == s0.looks
    && (forall i :: |s0.calls| <= i < |s.calls| ==>
          Entry(s.calls[i], s0.table, rd.walk.run[i - |s0.calls|], plans, now))
    && s.table.Keys == s0.table.Keys
    && forall k :: k in s0.table ==> RowAfter(k, s0.table[k], s.table[k], rd, plans, now)
  }

  /** Halfway through a tick that began at s0. */
  ghost predicate Ticking(s0: State, s: State, ts: Tasks, rd: Round, plans: Plans, now: int) {
    && Walking(s, ts, rd.roots, rd.walk, plans, now)
    && Complete(ts, rd.roots, rd.walk)
    && Roots(ts, rd.armed)
    && Recorded(s0, s, rd, plans, now)
  }

  lemma TickStart(s: State, ts: Tasks, plans: Plans, now: int)
    requires Timed(s, plans, now) && Shape(s.table, ts) && Keyed(ts)
    ensures Ticking(s, s, ts, Round({}, {}, Walk(map[], [], s.looks)), plans, now)
  {
    KeyedWellnamed(ts);
  }

  /** A root that the tick has not come to is untouched. */
  lemma RootUntouched(s0: State, s: State, ts: Tasks, rd: Round, k: string, plans: Plans, now: int)
    requires Ticking(s0, s, ts, rd, plans, now)
    requires k in ts && ts[k].predecessor == "" && k !in rd.roots && k !in rd.armed
    ensures k !in rd.walk.seen && k !in rd.walk.run && s.table[k] == s0.table[k]
  {
    assert k in rd.walk.seen ==> Caused(ts, rd.roots, rd.walk.run, k);
  }

  /** A root's next run is moved, and nothing else changes. */
  predicate Moved(s: State, s': State, k: string, plans: Plans, now: int) {
    && s'.calls == s.calls && s'.looks == s.looks && s'.table.Keys == s.table.Keys && k in s.table
    && (forall j :: j in s.table && j != k ==> s'.table[j] == s.table[j])
    && s'.table[k].node == s.table[k].node && s'.table[k].times.last == s.table[k].times.last
    && Rescheduled(s.table[k].node.schedule, plans, now, s'.table[k].times.next)
  }

  lemma MovedTimed(s: State, s': State, k: string, plans: Plans, now: int)
    requires Timed(s, plans, now) && Moved(s, s', k, plans, now)
    ensures Timed(s', plans, now)
    ensures forall ts :: Shape(s.table, ts) ==> Shape(s'.table, ts)
  {
    var n := s.table[k].node;
    RestsFromNow(s.calls, k, n.predecessor, n.schedule, plans, now, s'.table[k].times.next.value);
  }

  lemma MoreRoots(ts: Tasks, roots: set<string>, w: Walk, k: string)
    requires Grounded(ts, roots, w)
    ensures Grounded(ts, roots + {k}, w)
  {
    forall j | j in w.seen ensures Caused(ts, roots + {k}, w.run, j) { assert Caused(ts, roots, w.run, j); }
    forall i | 0 <= i < |w.run| ensures Caused(ts, roots + {k}, w.run[..i], w.run[i]) {
      assert Caused(ts, roots, w.run[..i], w.run[i]);
    }
  }

  lemma RecordedMove(s0: State, s: State, s': State, k: string, rd: Round, rd': Round, plans: Plans, now: int)
    requires Recorded(s0, s, rd, plans, now) && Moved(s, s', k, plans, now)
    requires rd'.walk.run == rd.walk.run && rd'.walk.from == rd.walk.from
    requires rd'.roots + rd'.armed == rd.roots + rd.armed + {k}
    requires s.table[k] == s0.table[k] && k !in rd.walk.run
    ensures Recorded(s0, s', rd', plans, now)
  {
    forall j | j in s0.table ensures RowAfter(j, s0.table[j], s'.table[j], rd', plans, now) {
      assert RowAfter(j, s0.table[j], s.table[j], rd, plans, now);
      assert j in rd'.roots + rd'.armed <==> j in rd.roots + rd.armed + {k};
    }
  }

  /** The first tick that sees a root sets its next run. */
  lemma ArmStep(s0: State, s: State, s': State, ts: Tasks, rd: Round, k: string, plans: Plans, now: int)
    requires Ticking(s0, s, ts, rd, plans, now) && Moved(s, s', k, plans, now)
    requires k in ts && ts[k].predecessor == "" && k !in rd.roots && k !in rd.armed
    ensures Ticking(s0, s', ts, Round(rd.armed + {k}, rd.roots, rd.walk), plans, now)
  {
    RootUntouched(s0, s, ts, rd, k, plans, now);
    ArmWalking(s, s', ts, rd.roots, rd.walk, k, plans, now);
    var rd' := Round(rd.armed + {k}, rd.roots, rd.walk);
    RecordedMove(s0, s, s', k, rd, rd', plans, now);
    StillTicking(s0, s', ts, rd', plans, now);
  }

  lemma StillTicking(s0: State, s: State, ts: Tasks, rd: Round, plans: Plans, now: int)
    requires Walking(s, ts, rd.roots, rd.walk, plans, now) && Complete(ts, rd.roots, rd.walk)
    requires Roots(ts, rd.armed) && Recorded(s0, s, rd, plans, now)
    ensures Ticking(s0, s, ts, rd, plans, now)
  {
  }

  lemma ArmWalking(
      s: State, s': State, ts: Tasks, roots: set<string>, w: Walk, k: string, plans: Plans, now: int)
    requires Walking(s, ts, roots, w, plans, now) && Moved(s, s', k, plans, now)
    ensures Walking(s', ts, roots, w, plans, now)
  {
    MovedTimed(s, s', k, plans, now);
  }

  lemma SkipComplete(
      ts: Tasks, roots: set<string>, w: Walk, k: string, look: Look, roots': set<string>, w': Walk)
    requires Complete(ts, roots, w) && Roots(ts, roots) && k in ts && ts[k].predecessor == "" && k !in w.seen
    requires roots' == roots + {k} && w' == Seen(w, k, look) && !look.ok
    ensures Complete(ts, roots', w') && Roots(ts, roots')
  {
    MoreRoots(ts, roots, w, k);
    SeenGrounded(ts, roots', w, k, look);
    forall p | p in w.run ensures Finished(ts, w', p) {
      assert Finished(ts, w, p);
    }
  }

  /** A due root whose WHEN condition is false only has its next run moved. */
  lemma SkipStep(
      s0: State, s: State, looked: State, s': State, ts: Tasks, rd: Round, rd': Round, k: string, look: Look,
      plans: Plans, now: int)
    requires Ticking(s0, s, ts, rd, plans, now) && k in ts && looked == Looked(s) && Moved(looked, s', k, plans, now)
    requires ts[k].predecessor == "" && k !in rd.roots && k !in rd.armed
    requires look == LookAt(plans, ts[k].when, s) && !look.ok
    requires rd' == Round(rd.armed, rd.roots + {k}, Seen(rd.walk, k, look))
    ensures Ticking(s0, s', ts, rd', plans, now)
  {
    RootUntouched(s0, s, ts, rd, k, plans, now);
    SkipComplete(ts, rd.roots, rd.walk, k, look, rd'.roots, rd'.walk);
    SkipRecorded(s0, s, looked, s', k, look, rd, rd', plans, now);
    SkipWalking(s, looked, s', ts, rd, rd', k, look, plans, now);
    StillTicking(s0, s', ts, rd', plans, now);
  }

  lemma SkipRecorded(
      s0: State, s: State, looked: State, s': State, k: string, look: Look, rd: Round, rd': Round, plans: Plans,
      now: int)
    requires Recorded(s0, s, rd, plans, now) && Timed(s, plans, now) && looked == Looked(s)
    requires Moved(looked, s', k, plans, now) && s.table[k] == s0.table[k] && k !in rd.walk.run && !look.ok
    requires rd' == Round(rd.armed, rd.roots + {k}, Seen(rd.walk, k, look))
    ensures Recorded(s0, s', rd', plans, now)
  {
    LookedSame(s0, s, looked, rd, plans, now);
    RecordedMove(s0, looked, s', k, rd, rd', plans, now);
  }

  lemma LookedSame(s0: State, s: State, looked: State, rd: Round, plans: Plans, now: int)
    requires Recorded(s0, s, rd, plans, now) && Timed(s, plans, now) && looked == Looked(s)
    ensures Recorded(s0, looked, rd, plans, now) && Timed(looked, plans, now)
  {
  }

  lemma SkipWalking(
      s: State, looked: State, s': State, ts: Tasks, rd: Round, rd': Round, k: string, look: Look, plans: Plans,
      now: int)
    requires Walking(s, ts, rd.roots, rd.walk, plans, now) && looked == Looked(s)
    requires k in ts && k !in rd.walk.seen && Moved(looked, s', k, plans, now) && look == LookAt(plans, ts[k].when, s)
    requires rd'.walk == Seen(rd.walk, k, look) && Roots(ts, rd'.roots) && Grounded(ts, rd'.roots, rd'.walk)
    ensures Walking(s', ts, rd'.roots, rd'.walk, plans, now)
  {
    MovedTimed(looked, s', k, plans, now);
    SeenTruthful(ts, rd.walk, k, look, plans.told, s.looks, s'.looks);
  }

  /** With one more root, a walk that has not come to it is still a walk. */
  lemma RootWalking(s0: State, s: State, ts: Tasks, rd: Round, k: string, plans: Plans, now: int)
    requires Ticking(s0, s, ts, rd, plans, now)
    requires k in ts && ts[k].predecessor == "" && k !in rd.roots && k !in rd.armed
    ensures Walking(s, ts, rd.roots + {k}, rd.walk, plans, now) && k !in rd.walk.seen
  {
    RootUntouched(s0, s, ts, rd, k, plans, now);
    MoreRoots(ts, rd.roots, rd.walk, k);
  }

  lemma RunComplete(ts: Tasks, roots: set<string>, w: Walk, k: string, look: Look, w': Walk)
    requires Complete(ts, roots, w) && Grounded(ts, roots + {k}, w') && Swept(ts, Seen(w, k, look), w', k)
    requires k !in w.seen && look.ok
    ensures Complete(ts, roots + {k}, w')
  {
    var u := Seen(w, k, look);
    assert k in u.seen;
    forall p | p in w'.run ensures Finished(ts, w', p) {
      if p in w.run { assert Finished(ts, w, p); } else if p != k { assert p !in u.run; }
    }
  }

  /** A due root that ran, and everything below it. */
  lemma RunStep(
      s0: State, s: State, s': State, ts: Tasks, rd: Round, rd': Round, k: string, look: Look, plans: Plans, now: int)
    requires Ticking(s0, s, ts, rd, plans, now) && look.ok
    requires k in ts && ts[k].predecessor == "" && k !in rd.roots && k !in rd.armed
    requires rd'.armed == rd.armed && rd'.roots == rd.roots + {k}
    requires Walking(s', ts, rd'.roots, rd'.walk, plans, now)
    requires Swept(ts, Seen(rd.walk, k, look), rd'.walk, k)
    requires Continues(s, s', rd.walk.run, rd'.walk.run, plans, now)
    ensures Ticking(s0, s', ts, rd', plans, now)
  {
    RootUntouched(s0, s, ts, rd, k, plans, now);
    RunComplete(ts, rd.roots, rd.walk, k, look, rd'.walk);
    ExtendsSeen(rd.walk, k, look, rd'.walk);
    RecordedCalls(s0, s, s', rd, rd'.walk.run, plans, now);
    RecordedRows(s0, s, s', ts, rd, rd', k, plans, now);
  }

  lemma ExtendsSeen(w: Walk, k: string, look: Look, w': Walk)
    requires k !in w.seen && Extends(Seen(w, k, look), w')
    ensures Extends(w, w') && k in w'.seen && w'.seen[k] == look
  {
    assert k in Seen(w, k, look).seen;
  }

  lemma RecordedCalls(s0: State, s: State, s': State, rd: Round, run: seq<string>, plans: Plans, now: int)
    requires Recorded(s0, s, rd, plans, now) && Continues(s, s', rd.walk.run, run, plans, now)
    ensures s0.calls <= s'.calls && |s'.calls| == |s0.calls| + |run| && s'.table.Keys == s0.table.Keys
    ensures forall i :: |s0.calls| <= i < |s'.calls| ==>
      Entry(s'.calls[i], s0.table, run[i - |s0.calls|], plans, now)
  {
    forall i | |s0.calls| <= i < |s'.calls|
      ensures Entry(s'.calls[i], s0.table, run[i - |s0.calls|], plans, now)
    {
      RecordedCall(s0, s, s', rd, run, plans, now, i, i - |s0.calls|);
    }
  }

  lemma RecordedCall(
      s0: State, s: State, s': State, rd: Round, run: seq<string>, plans: Plans, now: int, i: nat, j: nat)
    requires Recorded(s0, s, rd, plans, now) && Continues(s, s', rd.walk.run, run, plans, now)
    requires i == |s0.calls| + j && i < |s'.calls| && j < |run|
    ensures Entry(s'.calls[i], s0.table, run[j], plans, now)
  {
    if i >= |s.calls| {
      assert Entry(s'.calls[|s.calls| + j - |rd.walk.run|], s.table, run[j], plans, now);
      assert RowAfter(run[j], s0.table[run[j]], s.table[run[j]], rd, plans, now);
    } else {
      assert Entry(s.calls[i], s0.table, rd.walk.run[i - |s0.calls|], plans, now);
    }
  }

  lemma RecordedRows(
      s0: State, s: State, s': State, ts: Tasks, rd: Round, rd': Round, k: string, plans: Plans, now: int)
    requires Ticking(s0, s, ts, rd, plans, now) && rd'.armed == rd.armed && rd'.roots == rd.roots + {k}
    requires Roots(ts, rd'.roots) && Grounded(ts, rd'.roots, rd'.walk) && Extends(rd.walk, rd'.walk)
    requires k in rd'.walk.run && k !in rd.walk.run && k !in rd.armed
    requires Continues(s, s', rd.walk.run, rd'.walk.run, plans, now)
    ensures forall j :: j in s0.table ==> RowAfter(j, s0.table[j], s'.table[j], rd', plans, now)
  {
    forall j | j in s0.table ensures RowAfter(j, s0.table[j], s'.table[j], rd', plans, now) {
      assert RowAfter(j, s0.table[j], s.table[j], rd, plans, now);
      if j in rd'.walk.run && j !in rd.walk.run { FreshRow(s0, s, ts, rd, j, k, rd'.walk, plans, now); }
    }
  }

  /** A task newly run in this round had not been touched before. */
  lemma FreshRow(s0: State, s: State, ts: Tasks, rd: Round, j: string, k: string, w: Walk, plans: Plans, now: int)
    requires Ticking(s0, s, ts, rd, plans, now) && j in s0.table
    requires Roots(ts, rd.roots + {k}) && Grounded(ts, rd.roots + {k}, w)
    requires j in w.run && j !in rd.walk.run && k !in rd.armed
    requires forall i :: i in rd.walk.seen ==> i in w.seen && w.seen[i] == rd.walk.seen[i]
    ensures s.table[j] == s0.table[j]
  {
    assert RowAfter(j, s0.table[j], s.table[j], rd, plans, now);
    assert Caused(ts, rd.roots + {k}, w.run, j);
  }

  /** The relation above by name, for methods that only pass it on. */
  ghost predicate KeepsTick(ticking: (State, Round) -> bool, s0: State, ts: Tasks, plans: Plans, now: int) {
    forall s: State, rd: Round {:trigger Ticking(s0, s, ts, rd, plans, now)} ::
      Ticking(s0, s, ts, rd, plans, now) <==> ticking(s, rd)
  }

  /** A root that the tick has not come to. */
  predicate Waiting(ts: Tasks, rd: Round, k: string) {
    k in ts && ts[k].predecessor == "" && k !in rd.roots && k !in rd.armed
  }

  lemma TickBegin(s: State, ts: Tasks, plans: Plans, now: int) returns (ticking: (State, Round) -> bool)
    requires Timed(s, plans, now) && Shape(s.table, ts) && Keyed(ts)
    ensures KeepsTick(ticking, s, ts, plans, now) && ticking(s, Round({}, {}, Walk(map[], [], s.looks)))
  {
    TickStart(s, ts, plans, now);
    ticking := (t, rd) => Ticking(s, t, ts, rd, plans, now);
  }

  lemma ArmRoot(
      ticking: (State, Round) -> bool, s0: State, s: State, s': State, ts: Tasks, rd: Round, k: string,
      plans: Plans, now: int)
    requires KeepsTick(ticking, s0, ts, plans, now) && ticking(s, rd) && Waiting(ts, rd, k)
    requires Moved(s, s', k, plans, now)
    ensures ticking(s', Round(rd.armed + {k}, rd.roots, rd.walk))
  {
    assert Ticking(s0, s, ts, rd, plans, now);
    ArmStep(s0, s, s', ts, rd, k, plans, now);
  }

  lemma SkipRoot(
      ticking: (State, Round) -> bool, s0: State, s: State, s': State, ts: Tasks, rd: Round, rd': Round, k: string,
      look: Look, plans: Plans, now: int)
    requires KeepsTick(ticking, s0, ts, plans, now) && ticking(s, rd) && Waiting(ts, rd, k)
    requires Moved(Looked(s), s', k, plans, now) && look == LookAt(plans, ts[k].when, s) && !look.ok
    requires rd' == Round(rd.armed, rd.roots + {k}, Seen(rd.walk, k, look))
    ensures ticking(s', rd')
  {
    assert Ticking(s0, s, ts, rd, plans, now);
    SkipStep(s0, s, Looked(s), s', ts, rd, rd', k, look, plans, now);
  }

  lemma BeginRoot(
      ticking: (State, Round) -> bool, s0: State, s: State, ts: Tasks, rd: Round, k: string, roots: set<string>,
      plans: Plans, now: int) returns (story: Story)
    requires KeepsTick(ticking, s0, ts, plans, now) && ticking(s, rd) && Waiting(ts, rd, k)
    requires roots == rd.roots + {k}
    ensures Tells(story, ts, roots, plans, now) && story.kept(s, rd.walk) && k !in rd.walk.seen
  {
    assert Ticking(s0, s, ts, rd, plans, now);
    RootWalking(s0, s, ts, rd, k, plans, now);
    story := Begin(ts, roots, plans, now, s, rd.walk);
  }

  lemma EndRoot(
      ticking: (State, Round) -> bool, story: Story, s0: State, s: State, s': State, ts: Tasks, rd: Round, rd': Round,
      k: string, look: Look, plans: Plans, now: int)
    requires KeepsTick(ticking, s0, ts, plans, now) && ticking(s, rd) && Waiting(ts, rd, k)
    requires Tells(story, ts, rd'.roots, plans, now)
    requires rd'.armed == rd.armed && rd'.roots == rd.roots + {k}
    requires story.kept(s', rd'.walk) && story.since(s, rd.walk, s', rd'.walk)
    requires Swept(ts, Seen(rd.walk, k, look), rd'.walk, k) && look.ok
    ensures ticking(s', rd')
  {
    assert Ticking(s0, s, ts, rd, plans, now);
    End(story, ts, rd'.roots, plans, now, s, rd.walk, s', rd'.walk);
    RunStep(s0, s, s', ts, rd, rd', k, look, plans, now);
  }

  lemma TickFacts(
      ticking: (State, Round) -> bool, s0: State, s: State, ts: Tasks, rd: Round, k: string, plans: Plans, now: int)
    requires KeepsTick(ticking, s0, ts, plans, now) && ticking(s, rd) && Waiting(ts, rd, k)
    ensures s.table.Keys == s0.table.Keys == ts.Keys && s.table[k] == s0.table[k]
  {
    assert Ticking(s0, s, ts, rd, plans, now);
    RootUntouched(s0, s, ts, rd, k, plans, now);
  }

  lemma TickEnd(
      ticking: (State, Round) -> bool, s0: State, s: State, ts: Tasks, rd: Round, plans: Plans, now: int)
    requires KeepsTick(ticking, s0, ts, plans, now) && ticking(s, rd)
    ensures Complete(ts, rd.roots, rd.walk) && Recorded(s0, s, rd, plans, now) && Timed(s, plans, now)
    ensures Shape(s.table, ts) && Truthful(ts, rd.walk, plans.told, s.looks)
  {
    assert Ticking(s0, s, ts, rd, plans, now);
  }

  /** Who is due at an instant: a started root on a schedule whose next run has come. */
  predicate IsRoot(row: Row) {
    row.node.started && row.node.schedule != "" && row.node.predecessor == ""
  }

  predicate Ripe(row: Row, now: int) {
    IsRoot(row) && row.times.next.Some? && row.times.next.value <= now
  }

  predicate First(row: Row) {
    IsRoot(row) && row.times.next.None?
  }

  /** The roots of a round, out of those listed so far. */
  ghost predicate Sorted(s0: State, rd: Round, list: seq<string>, i: int, now: int) {
    && 0 <= i <= |list|
    && (forall k :: k in rd.roots <==> k in list[..i] && k in s0.table && Ripe(s0.table[k], now))
    && (forall k :: k in rd.armed <==> k in list[..i] && k in s0.table && First(s0.table[k]))
  }

  /** One more root. */
  predicate SortedOne(s0: State, rd: Round, rd': Round, k: string, now: int) {
    && k in s0.table
    && rd'.roots == (if Ripe(s0.table[k], now) then rd.roots + {k} else rd.roots)
    && rd'.armed == if First(s0.table[k]) then rd.armed + {k} else rd.armed
  }

  lemma OneSorted(s0: State, rd: Round, rd': Round, k: string, now: int)
    requires k in s0.table && IsRoot(s0.table[k])
    requires match s0.table[k].times.next
      case None => rd' == Round(rd.armed + {k}, rd.roots, rd.walk)
      case Some(next) => if next <= now then rd'.armed == rd.armed && rd'.roots == rd.roots + {k} else rd' == rd
    ensures SortedOne(s0, rd, rd', k, now)
  {
  }

  lemma SortedNext(s0: State, rd: Round, rd': Round, list: seq<string>, i: int, next: int, k: string, now: int)
    requires Sorted(s0, rd, list, i, now) && i < |list| && next == i + 1 && k == list[i]
    requires SortedOne(s0, rd, rd', k, now)
    ensures Sorted(s0, rd', list, next, now)
  {
    assert list[..next] == list[..i] + [k];
  }

  /** list has the roots, each once. */
  ghost predicate ListsAll(s0: State, list: seq<string>) {
    && (forall k :: k in list <==> k in s0.table && IsRoot(s0.table[k]))
    && (forall j, k :: 0 <= j < k < |list| ==> list[j] != list[k])
  }

  lemma SortedWaiting(s0: State, ts: Tasks, rd: Round, list: seq<string>, i: int, k: string, now: int)
    requires Sorted(s0, rd, list, i, now) && i < |list| && k == list[i] && Shape(s0.table, ts) && ListsAll(s0, list)
    ensures Waiting(ts, rd, k) && k in s0.table && IsRoot(s0.table[k])
  {
    assert k in list;
  }

  lemma ListsRoots(s0: State, list: seq<string>, rd: Round, now: int)
    requires ListsAll(s0, list) && rd.roots == {} && rd.armed == {}
    ensures Sorted(s0, rd, list, 0, now)
  {
  }

  /** The due roots and those seen for the first time, all of them. */
  ghost predicate Collected(s0: State, rd: Round, now: int) {
    && (forall k :: k in rd.roots <==> k in s0.table && Ripe(s0.table[k], now))
    && (forall k :: k in rd.armed <==> k in s0.table && First(s0.table[k]))
  }

  lemma SortedAll(s0: State, rd: Round, list: seq<string>, n: int, now: int)
    requires Sorted(s0, rd, list, n, now) && n == |list| && ListsAll(s0, list)
    ensures Collected(s0, rd, now)
  {
    assert list[..n] == list;
  }

  /** What a tick does, in full. */
  ghost predicate Ticked(s0: State, s: State, rd: Round, plans: Plans, now: int) {
    && Wellnamed(Nodes(s0.table))
    && Complete(Nodes(s0.table), rd.roots, rd.walk)
    && Truthful(Nodes(s0.table), rd.walk, plans.told, s.looks)
    && Recorded(s0, s, rd, plans, now)
    && Collected(s0, rd, now)
  }

  lemma TickDone(s0: State, s: State, ts: Tasks, rd: Round, plans: Plans, now: int)
    requires KeyedTable(s0.table) && ts == Nodes(s0.table) && Shape(s.table, ts)
    requires Complete(ts, rd.roots, rd.walk) && Recorded(s0, s, rd, plans, now)
    requires Truthful(ts, rd.walk, plans.told, s.looks)
    requires Collected(s0, rd, now)
    ensures Ticked(s0, s, rd, plans, now) && KeyedTable(s.table)
  {
    KeyedNodes(s0.table);
    KeyedWellnamed(ts);
    assert Nodes(s0.table) == ts;
    forall k | k in s.table ensures k == KeyOf(s.table[k].node) && s.table[k].node.name != "" {
      assert s.table[k].node == ts[k];
    }
  }

  /** A tick runs each task at most once. */
  lemma TickOnce(s0: State, s: State, rd: Round, plans: Plans, now: int, i: nat, j: nat)
    requires Ticked(s0, s, rd, plans, now) && |s0.calls| <= i < j < |s.calls|
    ensures s.calls[i].key != s.calls[j].key
  {
  }

  /** A task was executed between two states. */
  predicate Executed(s0: State, s: State, k: string) {
    exists i :: |s0.calls| <= i < |s.calls| && s.calls[i].key == k
  }

  /** Its condition holds at every look from one number up to another. */
  predicate Holds(plans: Plans, when: When, from: nat, upto: nat) {
    forall n :: from <= n < upto ==> plans.told(when, n)
  }

  predicate Fails(plans: Plans, when: When, from: nat, upto: nat) {
    forall n :: from <= n < upto ==> !plans.told(when, n)
  }

  /** From a due root down, each started and after the one before it. */
  predicate Route(s0: State, now: int, c: seq<string>) {
    && c != [] && c[0] in s0.table && Ripe(s0.table[c[0]], now)
    && forall i :: 0 <= i < |c| - 1 ==> Follows(Nodes(s0.table), c[i], c[i + 1])
  }

  /** A due root, or a successor of an executed task. */
  ghost predicate LookedFor(s0: State, s: State, now: int, k: string) {
    || (k in s0.table && Ripe(s0.table[k], now))
    || exists p :: Executed(s0, s, p) && Follows(Nodes(s0.table), p, k)
  }

  /** One of the looks between two states, which shows what the condition says. */
  predicate Sees(s0: State, s: State, plans: Plans, when: When, look: Look) {
    s0.looks <= look.at < s.looks && look.ok == plans.told(when, look.at)
  }

  /** It runs exactly the tasks whose chain up to a due root was seen enabled; looks
      at exactly the due roots and the successors of what it runs, once each; and sees
      what the conditions say. */
  lemma TickRuns(s0: State, s: State, rd: Round, plans: Plans, now: int, k: string)
    requires Ticked(s0, s, rd, plans, now)
    ensures Executed(s0, s, k) <==> Enabled(Nodes(s0.table), rd.roots, rd.walk.seen, k)
    ensures k in rd.walk.seen <==> LookedFor(s0, s, now, k)
    ensures k in rd.walk.seen ==> k in s0.table && Sees(s0, s, plans, s0.table[k].node.when, rd.walk.seen[k])
    ensures Executed(s0, s, k) <==> k in rd.walk.seen && rd.walk.seen[k].ok
  {
    var ts := Nodes(s0.table);
    RunIffChain(ts, rd.roots, rd.walk, k);
    forall p ensures Executed(s0, s, p) <==> p in rd.walk.run { RunIsExecuted(s0, s, rd, plans, now, p); }
    forall p ensures p in rd.walk.run <==> Enabled(ts, rd.roots, rd.walk.seen, p) {
      RunIffChain(ts, rd.roots, rd.walk, p);
    }
  }

  lemma RunIsExecuted(s0: State, s: State, rd: Round, plans: Plans, now: int, k: string)
    requires Recorded(s0, s, rd, plans, now)
    ensures Executed(s0, s, k) <==> k in rd.walk.run
  {
    if k in rd.walk.run {
      var j :| 0 <= j < |rd.walk.run| && rd.walk.run[j] == k;
      var i := |s0.calls| + j;
      assert Entry(s.calls[i], s0.table, rd.walk.run[i - |s0.calls|], plans, now);
    }
    if Executed(s0, s, k) {
      var i :| |s0.calls| <= i < |s.calls| && s.calls[i].key == k;
      assert Entry(s.calls[i], s0.table, rd.walk.run[i - |s0.calls|], plans, now);
    }
  }

  /** Along a route whose conditions hold, every task is executed. */
  lemma {:induction false} RouteRuns(s0: State, s: State, rd: Round, plans: Plans, now: int, c: seq<string>, i: nat)
    requires Ticked(s0, s, rd, plans, now) && Route(s0, now, c) && i < |c|
    requires forall j :: 0 <= j < |c| ==> c[j] in s0.table && Holds(plans, s0.table[c[j]].node.when, s0.looks, s.looks)
    ensures Executed(s0, s, c[i])
  {
    TickRuns(s0, s, rd, plans, now, c[i]);
    if i > 0 {
      var before := i - 1;
      RouteRuns(s0, s, rd, plans, now, c, before);
      assert Follows(Nodes(s0.table), c[before], c[before + 1]);
    }
    assert Holds(plans, s0.table[c[i]].node.when, s0.looks, s.looks);
  }

  /** Every condition holds throughout the tick, or fails throughout. */
  predicate Steady(s0: State, s: State, plans: Plans, holds: When -> bool) {
    forall j :: j in s0.table ==>
      if holds(s0.table[j].node.when) then Holds(plans, s0.table[j].node.when, s0.looks, s.looks)
      else Fails(plans, s0.table[j].node.when, s0.looks, s.looks)
  }

  /** Then the executed tasks are known beforehand: those at the end of a route whose
      conditions hold. */
  lemma SteadyTickRuns(s0: State, s: State, rd: Round, plans: Plans, now: int, holds: When -> bool, k: string)
    requires Ticked(s0, s, rd, plans, now) && Steady(s0, s, plans, holds)
    ensures Executed(s0, s, k) <==> exists c :: OpenRoute(s0, now, holds, c) && c[|c| - 1] == k
  {
    if Executed(s0, s, k) {
      var c := ExecutedHasRoute(s0, s, rd, plans, now, holds, k);
    }
    if c :| OpenRoute(s0, now, holds, c) && c[|c| - 1] == k {
      var last := |c| - 1;
      RouteRuns(s0, s, rd, plans, now, c, last);
    }
  }

  lemma ExecutedHasRoute(s0: State, s: State, rd: Round, plans: Plans, now: int, holds: When -> bool, k: string)
      returns (c: seq<string>)
    requires Ticked(s0, s, rd, plans, now) && Steady(s0, s, plans, holds) && Executed(s0, s, k)
    ensures OpenRoute(s0, now, holds, c) && c[|c| - 1] == k
  {
    TickRuns(s0, s, rd, plans, now, k);
    c :| Chain(Nodes(s0.table), rd.roots, rd.walk.seen, c) && c[|c| - 1] == k;
    forall i | 0 <= i < |c| ensures c[i] in s0.table && holds(s0.table[c[i]].node.when) {
      SeenHolds(s0, s, rd, plans, now, holds, c[i]);
    }
    ChainIsRoute(s0, s, rd, plans, now, c);
  }

  lemma SeenHolds(s0: State, s: State, rd: Round, plans: Plans, now: int, holds: When -> bool, k: string)
    requires Ticked(s0, s, rd, plans, now) && Steady(s0, s, plans, holds)
    requires k in rd.walk.seen && rd.walk.seen[k].ok
    ensures k in s0.table && holds(s0.table[k].node.when)
  {
    TickRuns(s0, s, rd, plans, now, k);
  }

  lemma ChainIsRoute(s0: State, s: State, rd: Round, plans: Plans, now: int, c: seq<string>)
    requires Ticked(s0, s, rd, plans, now) && Chain(Nodes(s0.table), rd.roots, rd.walk.seen, c)
    ensures Route(s0, now, c)
  {
    assert c[0] in rd.roots;
  }

  predicate OpenRoute(s0: State, now: int, holds: When -> bool, c: seq<string>) {
    Route(s0, now, c) && forall i :: 0 <= i < |c| ==> c[i] in s0.table && holds(s0.table[c[i]].node.when)
  }

  /** k is started, and is a root with a schedule whose next run has come, or names the
      task p as its predecessor, in its own database and schema. */
  predicate Called(s0: State, now: int, k: string, p: Option<string>)
    requires k in s0.table && (p.Some? ==> p.value in s0.table)
  {
    var row := s0.table[k];
    && row.node.started
    && match p
       case None =>
         && row.node.predecessor == "" && row.node.schedule != ""
         && row.times.next.Some? && row.times.next.value <= now
       case Some(q) =>
         && row.node.predecessor == s0.table[q].node.name
         && row.node.database == s0.table[q].node.database && row.node.schema == s0.table[q].node.schema
  }

  /** A tick executes only due roots and started successors of tasks that it executes,
      and every one of them whose condition holds during the tick. */
  lemma WhatRuns(s0: State, s: State, rd: Round, plans: Plans, now: int, k: string)
    requires Ticked(s0, s, rd, plans, now) && k in s0.table
    ensures Executed(s0, s, k) ==>
              Called(s0, now, k, None) || exists p :: p in s0.table && Executed(s0, s, p) && Called(s0, now, k, Some(p))
    ensures Called(s0, now, k, None) && Holds(plans, s0.table[k].node.when, s0.looks, s.looks) ==> Executed(s0, s, k)
    ensures Holds(plans, s0.table[k].node.when, s0.looks, s.looks) ==>
              forall p :: p in s0.table && Executed(s0, s, p) && Called(s0, now, k, Some(p)) ==> Executed(s0, s, k)
  {
    TickRuns(s0, s, rd, plans, now, k);
    if Executed(s0, s, k) && !Ripe(s0.table[k], now) {
      var p :| Executed(s0, s, p) && Follows(Nodes(s0.table), p, k);
      assert Called(s0, now, k, Some(p));
    }
    forall p | p in s0.table && Executed(s0, s, p) && Called(s0, now, k, Some(p)) ensures LookedFor(s0, s, now, k) {
      assert Follows(Nodes(s0.table), p, k);
    }
  }

  /** A root is not run before its next run has come. */
  lemma RootsWait(s0: State, s: State, rd: Round, plans: Plans, now: int, i: nat)
    requires Ticked(s0, s, rd, plans, now) && |s0.calls| <= i < |s.calls|
    ensures var k := s.calls[i].key; k in s0.table && (s0.table[k].node.predecessor == "" ==> Ripe(s0.table[k], now))
  {
    var k := s.calls[i].key;
    assert Entry(s.calls[i], s0.table, rd.walk.run[i - |s0.calls|], plans, now);
    RunRootIsDue(Nodes(s0.table), rd.roots, rd.walk, i - |s0.calls|);
  }

  lemma RunRootIsDue(ts: Tasks, roots: set<string>, w: Walk, i: nat)
    requires Wellnamed(ts) && Grounded(ts, roots, w) && i < |w.run|
    ensures w.run[i] in ts && (ts[w.run[i]].predecessor == "" ==> w.run[i] in roots)
  {
    var k := w.run[i];
    assert k in w.run && k in w.seen;
    assert Caused(ts, roots, w.run, k);
  }

  /** After a tick the next run of every started root on a schedule is set and
      lies after the tick, if its rule only gives later instants. */
  lemma RootsAhead(s0: State, s: State, rd: Round, plans: Plans, now: int, k: string)
    requires Ticked(s0, s, rd, plans, now) && k in s0.table && IsRoot(s0.table[k])
    requires forall next :: plans.rule(s0.table[k].node.schedule, now, next) ==> next > now
    ensures k in s.table && s.table[k].times.next.Some? && s.table[k].times.next.value > now
  {
    assert RowAfter(k, s0.table[k], s.table[k], rd, plans, now);
    if k in rd.walk.run {
      var i :| 0 <= i < |rd.walk.run| && rd.walk.run[i] == k;
      RunRootIsDue(Nodes(s0.table), rd.roots, rd.walk, i);
    }
  }

  /** What a tick leaves on every task: an executed one ran now, and if it has a schedule
      is due again when the schedule says; a root that was due and not executed, or had no
      next run yet, gets one; nothing else changes. */
  lemma TimesAfter(s0: State, s: State, rd: Round, plans: Plans, now: int, k: string)
    requires Ticked(s0, s, rd, plans, now) && k in s0.table
    ensures k in s.table && s.table[k].node == s0.table[k].node
    ensures var (node, was, times) := (s0.table[k].node, s0.table[k].times, s.table[k].times);
      if Executed(s0, s, k) then
        times.last == Some(now) &&
        if node.schedule == "" then times.next == was.next else Rescheduled(node.schedule, plans, now, times.next)
      else if node.started && node.predecessor == "" && node.schedule != "" &&
              (was.next.None? || was.next.value <= now) then
        times.last == was.last && Rescheduled(node.schedule, plans, now, times.next)
      else times == was
  {
    RunIsExecuted(s0, s, rd, plans, now, k);
    assert RowAfter(k, s0.table[k], s.table[k], rd, plans, now);
  }

  /** Every execution of a tick is recorded with its task's interval. */
  lemma IntervalRecorded(s0: State, s: State, rd: Round, plans: Plans, now: int, i: nat)
    requires Recorded(s0, s, rd, plans, now) && |s0.calls| <= i < |s.calls|
    ensures s.calls[i].at == now && s.calls[i].key in s0.table
    ensures s.calls[i].every == RowPace(s0.table[s.calls[i].key], plans)
  {
    assert Entry(s.calls[i], s0.table, rd.walk.run[i - |s0.calls|], plans, now);
  }

  // ---- Whole runs ----

  lemma TickSpaced(s0: State, s: State, rd: Round, plans: Plans, now: int, i: nat, j: nat)
    requires Ticked(s0, s, rd, plans, now) && Timed(s0, plans, now)
    requires i < j < |s.calls| && s.calls[i].key == s.calls[j].key
    ensures s.calls[i].at + s.calls[j].every * MINUTE <= s.calls[j].at
  {
    var k := s.calls[j].key;
    if j < |s0.calls| {
      assert s.calls[i] == s0.calls[i] && s.calls[j] == s0.calls[j];
    } else if i >= |s0.calls| {
      TickOnce(s0, s, rd, plans, now, i, j);
    } else {
      assert s.calls[i] == s0.calls[i];
      assert Entry(s.calls[j], s0.table, rd.walk.run[j - |s0.calls|], plans, now);
      RootsWait(s0, s, rd, plans, now, j);
      assert Rests(s0.calls, k, RowPace(s0.table[k], plans), s0.table[k].times.next);
    }
  }

  lemma TickRests(s0: State, s: State, rd: Round, plans: Plans, now: int, k: string)
    requires Ticked(s0, s, rd, plans, now) && Timed(s0, plans, now) && Past(s.calls, now) && k in s.table
    ensures Rests(s.calls, k, RowPace(s.table[k], plans), s.table[k].times.next)
  {
    assert RowAfter(k, s0.table[k], s.table[k], rd, plans, now);
    assert Rests(s0.calls, k, RowPace(s0.table[k], plans), s0.table[k].times.next);
    RowRests(s0, s, rd, plans, now, k, s0.table[k], s.table[k], RowPace(s0.table[k], plans));
  }

  lemma RowRests(s0: State, s: State, rd: Round, plans: Plans, now: int, k: string, before: Row, after: Row, pace: int)
    requires Lawful(plans) && Recorded(s0, s, rd, plans, now) && Past(s.calls, now)
    requires RowAfter(k, before, after, rd, plans, now) && pace == RowPace(before, plans)
    requires Rests(s0.calls, k, pace, before.times.next)
    ensures Rests(s.calls, k, pace, after.times.next)
  {
    if pace > 0 {
      if k in rd.walk.run || k in rd.roots || k in rd.armed {
        RestsFromNow(s.calls, k, before.node.predecessor, before.node.schedule, plans, now, after.times.next.value);
      } else {
        NotCalled(s0, s, rd, plans, now, k);
        assert forall i :: 0 <= i < |s0.calls| ==> s.calls[i] == s0.calls[i];
      }
    }
  }

  lemma NotCalled(s0: State, s: State, rd: Round, plans: Plans, now: int, k: string)
    requires Recorded(s0, s, rd, plans, now) && k !in rd.walk.run
    ensures forall i :: |s0.calls| <= i < |s.calls| ==> s.calls[i].key != k
  {
    forall i | |s0.calls| <= i < |s.calls| ensures s.calls[i].key != k {
      assert Entry(s.calls[i], s0.table, rd.walk.run[i - |s0.calls|], plans, now);
    }
  }

  lemma TickPast(s0: State, s: State, rd: Round, plans: Plans, now: int)
    requires Recorded(s0, s, rd, plans, now) && Past(s0.calls, now)
    ensures Past(s.calls, now)
  {
    forall i | 0 <= i < |s.calls| ensures s.calls[i].at <= now {
      if i >= |s0.calls| {
        assert Entry(s.calls[i], s0.table, rd.walk.run[i - |s0.calls|], plans, now);
      } else {
        assert s.calls[i] == s0.calls[i];
      }
    }
  }

  /** A tick keeps the spacing. */
  lemma TickKeepsTimed(s0: State, s: State, rd: Round, plans: Plans, now: int)
    requires Ticked(s0, s, rd, plans, now) && Timed(s0, plans, now)
    ensures Timed(s, plans, now)
  {
    TickPast(s0, s, rd, plans, now);
    forall i, j | 0 <= i < j < |s.calls| && s.calls[i].key == s.calls[j].key
      ensures s.calls[i].at + s.calls[j].every * MINUTE <= s.calls[j].at
    {
      TickSpaced(s0, s, rd, plans, now, i, j);
    }
    forall k | k in s.table ensures Rests(s.calls, k, RowPace(s.table[k], plans), s.table[k].times.next) {
      TickRests(s0, s, rd, plans, now, k);
    }
  }

  lemma TickKeepsKeys(s0: State, s: State, rd: Round, plans: Plans, now: int)
    requires Ticked(s0, s, rd, plans, now) && KeyedTable(s0.table)
    ensures KeyedTable(s.table)
  {
    forall k | k in s.table ensures k == KeyOf(s.table[k].node) && s.table[k].node.name != "" {
      assert RowAfter(k, s0.table[k], s.table[k], rd, plans, now);
    }
  }

  /** A state and the time it was reached. */
  datatype Moment = Moment(state: State, clock: int)

  /** One operation: a tick, or a task created, dropped, resumed or suspended. */
  ghost predicate Next(a: Moment, b: Moment, plans: Plans) {
    || (a.clock <= b.clock && exists rd :: Ticked(a.state, b.state, rd, plans, b.clock))
    || (a.clock == b.clock && exists k, n :: k == KeyOf(n) && n.name != "" && Adds(a.state, b.state, k, n))
    || (a.clock == b.clock && exists k :: Removes(a.state, b.state, k))
    || (a.clock == b.clock && exists k, started :: Switches(a.state, b.state, k, started))
  }

  /** In every run from no tasks at all, executions stay spaced. */
  lemma {:induction false} RunStaysTimed(run: seq<Moment>, plans: Plans, i: nat)
    requires Lawful(plans) && i < |run| && run[0].state == State(map[], [], 0)
    requires forall j :: 0 <= j < |run| - 1 ==> Next(run[j], run[j + 1], plans)
    ensures Timed(run[i].state, plans, run[i].clock) && KeyedTable(run[i].state.table)
  {
    if i > 0 {
      RunStaysTimed(run, plans, i - 1);
      assert Next(run[i - 1], run[(i - 1) + 1], plans);
      NextKeeps(run[i - 1], run[i], plans);
    }
  }

  /** The execution was made by a tick in state a, with the interval of the schedule
      that its task had there. */
  predicate MadeBy(c: Call, a: Moment, b: Moment, plans: Plans) {
    c.at == b.clock && c.key in a.state.table && c.every == RowPace(a.state.table[c.key], plans)
  }

  /** Executions are only added, by ticks. */
  lemma NextRecords(a: Moment, b: Moment, plans: Plans, i: nat)
    requires Next(a, b, plans) && i < |b.state.calls|
    ensures if i < |a.state.calls| then b.state.calls[i] == a.state.calls[i] else MadeBy(b.state.calls[i], a, b, plans)
  {
    if a.clock <= b.clock && exists rd :: Ticked(a.state, b.state, rd, plans, b.clock) {
      var rd :| Ticked(a.state, b.state, rd, plans, b.clock);
      if i >= |a.state.calls| { IntervalRecorded(a.state, b.state, rd, plans, b.clock, i); }
    }
  }

  /** Every execution of a run was made by one of its operations. */
  lemma {:induction false} RunRecords(run: seq<Moment>, plans: Plans, m: nat, i: nat) returns (p: nat, q: nat)
    requires m < |run| && run[0].state == State(map[], [], 0)
    requires forall k :: 0 <= k < |run| - 1 ==> Next(run[k], run[k + 1], plans)
    requires i < |run[m].state.calls|
    ensures q == p + 1 && q <= m && MadeBy(run[m].state.calls[i], run[p], run[q], plans)
  {
    assert m > 0;
    p, q := m - 1, m;
    OneStep(run, plans, p, q);
    NextRecords(run[p], run[q], plans, i);
    if i < |run[p].state.calls| { p, q := RunRecords(run, plans, p, i); }
  }

  lemma OneStep(run: seq<Moment>, plans: Plans, p: nat, q: nat)
    requires forall k :: 0 <= k < |run| - 1 ==> Next(run[k], run[k + 1], plans)
    requires q == p + 1 && q < |run|
    ensures Next(run[p], run[q], plans)
  {
  }

  /** So two executions of a task are apart by the interval of the schedule that the
      task had when the later one ran. */
  lemma RunsApart(run: seq<Moment>, plans: Plans, m: nat, i: nat, j: nat) returns (p: nat, q: nat)
    requires Lawful(plans) && m < |run| && run[0].state == State(map[], [], 0)
    requires forall k :: 0 <= k < |run| - 1 ==> Next(run[k], run[k + 1], plans)
    requires i < j < |run[m].state.calls| && run[m].state.calls[i].key == run[m].state.calls[j].key
    ensures var (first, later) := (run[m].state.calls[i], run[m].state.calls[j]);
      && q == p + 1 && q <= m && MadeBy(later, run[p], run[q], plans)
      && later.at - first.at >= later.every * MINUTE
  {
    RunStaysTimed(run, plans, m);
    p, q := RunRecords(run, plans, m, j);
  }

  lemma NextKeeps(a: Moment, b: Moment, plans: Plans)
    requires Timed(a.state, plans, a.clock) && KeyedTable(a.state.table) && Next(a, b, plans)
    ensures Timed(b.state, plans, b.clock) && KeyedTable(b.state.table)
  {
    if a.clock <= b.clock && exists rd :: Ticked(a.state, b.state, rd, plans, b.clock) {
      var rd :| Ticked(a.state, b.state, rd, plans, b.clock);
      TimedLater(a.state, plans, a.clock, b.clock);
      TickKeepsTimed(a.state, b.state, rd, plans, b.clock);
      TickKeepsKeys(a.state, b.state, rd, plans, b.clock);
    } else if exists k, n :: k == KeyOf(n) && n.name != "" && Adds(a.state, b.state, k, n) {
      var k, n :| k == KeyOf(n) && n.name != "" && Adds(a.state, b.state, k, n);
      Added(a.state, b.state, k, n, plans, a.clock);
    } else if exists k :: Removes(a.state, b.state, k) {
      var k :| Removes(a.state, b.state, k);
      Removed(a.state, b.state, k, plans, a.clock);
    } else {
      var k, started :| Switches(a.state, b.state, k, started);
      Switched(a.state, b.state, k, started, plans, a.clock);
    }
  }
}

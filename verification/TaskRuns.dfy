/** Runs of tasks as values: what one execution changes, what a walk over the
    task tree has changed, and the spacing of executions in time. */
module TaskRuns {
  import opened Text
  import opened Cron
  import opened Names
  import opened TaskGraph

  datatype Times = Times(last: Option<int>, next: Option<int>)

  datatype Row = Row(node: Node, times: Times)

  /** A task executed at an instant; every is the interval in minutes of a root
      with an exact minute schedule, and zero for other tasks. */
  datatype Call = Call(key: string, at: int, every: int)

  function KeyOf(n: Node): string {
    Dotted(n.database, n.schema, n.name)
  }

  /** Every task is filed under its key and has a name. */
  predicate Keyed(ts: Tasks) {
    forall k :: k in ts ==> k == KeyOf(ts[k]) && ts[k].name != ""
  }

  /** How schedules set next runs: which instant may follow a run, and the exact
      interval in minutes that a root keeps, zero if it keeps none; and whether a
      condition holds at the n-th look. */
  datatype Plans = Plans(
    rule: (string, int, int) -> bool, pace: (string, string) -> int, told: (When, nat) -> bool)

  ghost predicate Lawful(plans: Plans) {
    && (forall p, s :: plans.pace(p, s) >= 0 && (plans.pace(p, s) > 0 ==> p == "" && s != ""))
    && forall p, s, now, next {:trigger plans.rule(s, now, next), plans.pace(p, s)} ::
         plans.rule(s, now, next) && plans.pace(p, s) > 0 ==> next == now + plans.pace(p, s) * MINUTE
  }

  predicate Past(calls: seq<Call>, now: int) {
    forall i :: 0 <= i < |calls| ==> calls[i].at <= now
  }

  /** Runs of a task are at least its interval apart. */
  predicate Spaced(calls: seq<Call>) {
    forall i, j :: 0 <= i < j < |calls| && calls[i].key == calls[j].key ==>
      calls[i].at + calls[j].every * MINUTE <= calls[j].at
  }

  /** No next run of the task is due before its interval has passed. */
  predicate Rests(calls: seq<Call>, key: string, pace: int, next: Option<int>) {
    pace > 0 && next.Some? ==>
      forall i :: 0 <= i < |calls| && calls[i].key == key ==> calls[i].at + pace * MINUTE <= next.value
  }

  type Table = map<string, Row>

  /** What the scheduler holds, every execution so far, and the number of looks at
      conditions. */
  datatype State = State(table: Table, calls: seq<Call>, looks: nat)

  /** After one more look. */
  function Looked(s: State): State {
    s.(looks := s.looks + 1)
  }

  /** What a look at a condition now gives. */
  function LookAt(plans: Plans, when: When, s: State): Look {
    Look(plans.told(when, s.looks), s.looks)
  }

  function Nodes(table: Table): Tasks {
    map k | k in table :: table[k].node
  }

  function RowPace(row: Row, plans: Plans): int {
    plans.pace(row.node.predecessor, row.node.schedule)
  }

  /** Executions are in the past and spaced, and next runs keep them so. */
  ghost predicate Timed(s: State, plans: Plans, now: int) {
    && Lawful(plans)
    && Past(s.calls, now) && Spaced(s.calls)
    && forall k :: k in s.table ==> Rests(s.calls, k, RowPace(s.table[k], plans), s.table[k].times.next)
  }

  predicate Rescheduled(schedule: string, plans: Plans, now: int, next: Option<int>) {
    next.Some? && plans.rule(schedule, now, next.value)
  }

  /** What a run leaves on a task. */
  predicate Stamped(schedule: string, plans: Plans, now: int, before: Times, after: Times) {
    && after.last == Some(now)
    && if schedule == "" then after.next == before.next else Rescheduled(schedule, plans, now, after.next)
  }

  /** Task k is executed and stamped; nothing else changes. */
  predicate Step(s: State, s': State, k: string, plans: Plans, now: int) {
    && k in s.table && k in s'.table
    && s'.table == s.table[k := Row(s.table[k].node, s'.table[k].times)]
    && Stamped(s.table[k].node.schedule, plans, now, s.table[k].times, s'.table[k].times)
    && s'.calls == s.calls + [Call(k, now, RowPace(s.table[k], plans))]
    && s'.looks == s.looks
  }

  /** A task may run if it has a predecessor or its next run has come. */
  predicate MayRun(row: Row, now: int) {
    row.node.predecessor == "" ==> row.times.next.Some? && row.times.next.value <= now
  }

  lemma StepTimed(s: State, s': State, k: string, plans: Plans, now: int)
    requires Timed(s, plans, now) && Step(s, s', k, plans, now) && MayRun(s.table[k], now)
    ensures Timed(s', plans, now)
  {
    var call := Call(k, now, RowPace(s.table[k], plans));
    SpacedOn(s.calls, call, s.table[k].times.next);
    forall j | j in s'.table ensures Rests(s'.calls, j, RowPace(s'.table[j], plans), s'.table[j].times.next) {
      if j != k {
        RestsOn(s.calls, call, j, RowPace(s.table[j], plans), s.table[j].times.next);
      } else if s.table[k].node.schedule != "" {
        RestsFromNow(s'.calls, k, s.table[k].node.predecessor, s.table[k].node.schedule, plans, now,
                     s'.table[k].times.next.value);
      }
    }
  }

  lemma SpacedOn(calls: seq<Call>, call: Call, next: Option<int>)
    requires Spaced(calls) && Past(calls, call.at) && Rests(calls, call.key, call.every, next)
    requires call.every > 0 ==> next.Some? && next.value <= call.at
    requires call.every >= 0
    ensures Spaced(calls + [call]) && Past(calls + [call], call.at)
  {
  }

  /** A call concerns only its own task. */
  lemma RestsOn(calls: seq<Call>, call: Call, j: string, pace: int, next: Option<int>)
    requires j != call.key && Rests(calls, j, pace, next)
    ensures Rests(calls + [call], j, pace, next)
  {
  }

  lemma RestsFromNow(
      calls: seq<Call>, key: string, predecessor: string, schedule: string, plans: Plans, now: int, next: int)
    requires Lawful(plans) && Past(calls, now) && plans.rule(schedule, now, next)
    ensures Rests(calls, key, plans.pace(predecessor, schedule), Some(next))
  {
    var pace := plans.pace(predecessor, schedule);
  }

  /** The record of one execution. */
  predicate Entry(c: Call, table: Table, k: string, plans: Plans, now: int) {
    c.key == k && c.at == now && k in table && c.every == RowPace(table[k], plans)
  }

  /** From s to s' exactly the tasks that run' has beyond run were executed, in
      that order, and stamped. */
  predicate Continues(
      s: State, s': State, run: seq<string>, run': seq<string>, plans: Plans, now: int) {
    && run <= run' && s.calls <= s'.calls && |s'.calls| - |s.calls| == |run'| - |run|
    && (forall i :: |run| <= i < |run'| ==>
          Entry(s'.calls[|s.calls| + i - |run|], s.table, run'[i], plans, now))
    && s'.table.Keys == s.table.Keys
    && forall k :: k in s.table ==>
         && s'.table[k].node == s.table[k].node
         && if k in run' && k !in run
            then Stamped(s.table[k].node.schedule, plans, now, s.table[k].times, s'.table[k].times)
            else s'.table[k].times == s.table[k].times
  }

  lemma StepContinues(s: State, s': State, k: string, run: seq<string>, plans: Plans, now: int)
    requires Step(s, s', k, plans, now) && k !in run
    ensures Continues(s, s', run, run + [k], plans, now)
  {
  }

  lemma ContinuesTwice(
      a: State, b: State, c: State, r0: seq<string>, r1: seq<string>, r2: seq<string>, plans: Plans, now: int)
    requires Continues(a, b, r0, r1, plans, now) && Continues(b, c, r1, r2, plans, now)
    ensures Continues(a, c, r0, r2, plans, now)
  {
    forall i | |r0| <= i < |r2| ensures Entry(c.calls[|a.calls| + i - |r0|], a.table, r2[i], plans, now) {
      if i < |r1| {
        assert Entry(b.calls[|a.calls| + i - |r0|], a.table, r1[i], plans, now);
      } else {
        assert Entry(c.calls[|b.calls| + i - |r1|], b.table, r2[i], plans, now);
      }
    }
  }

  /** The table holds the tasks ts. */
  predicate Shape(table: Table, ts: Tasks) {
    table.Keys == ts.Keys && forall k :: k in ts ==> table[k].node == ts[k]
  }

  lemma StepOf(s: State, s': State, k: string, times: Times, plans: Plans, now: int)
    requires k in s.table && s'.table.Keys == s.table.Keys
    requires forall j :: j in s.table && j != k ==> s'.table[j] == s.table[j]
    requires s'.table[k] == Row(s.table[k].node, times)
    requires Stamped(s.table[k].node.schedule, plans, now, s.table[k].times, times)
    requires s'.calls == s.calls + [Call(k, now, RowPace(s.table[k], plans))] && s'.looks == s.looks
    ensures Step(s, s', k, plans, now)
  {
    assert s'.table == s.table[k := Row(s.table[k].node, times)];
  }

  lemma TimedLater(s: State, plans: Plans, now: int, later: int)
    requires Timed(s, plans, now) && now <= later
    ensures Timed(s, plans, later)
  {
  }

  predicate KeyedTable(table: Table) {
    forall k :: k in table ==> k == KeyOf(table[k].node) && table[k].node.name != ""
  }

  lemma KeyedNodes(table: Table)
    requires KeyedTable(table)
    ensures Keyed(Nodes(table)) && Shape(table, Nodes(table))
  {
  }

  /** A new task, suspended and without times; nothing else changes. */
  predicate Adds(s: State, s': State, k: string, n: Node) {
    && k !in s.table && s'.calls == s.calls && s'.looks == s.looks && s'.table.Keys == s.table.Keys + {k}
    && (forall j :: j in s.table ==> s'.table[j] == s.table[j])
    && s'.table[k] == Row(n, Times(None, None))
  }

  lemma AddsOne(s: State, s': State, k: string, row: Row)
    requires k !in s.table && row.times == Times(None, None)
    requires s' == State(s.table[k := row], s.calls, s.looks)
    ensures Adds(s, s', k, row.node)
  {
  }

  lemma Added(s: State, s': State, k: string, n: Node, plans: Plans, now: int)
    requires Timed(s, plans, now) && KeyedTable(s.table) && k == KeyOf(n) && n.name != ""
    requires Adds(s, s', k, n)
    ensures Timed(s', plans, now) && KeyedTable(s'.table)
  {
  }

  predicate Removes(s: State, s': State, k: string) {
    && s'.calls == s.calls && s'.looks == s.looks && s'.table.Keys == s.table.Keys - {k}
    && forall j :: j in s'.table ==> s'.table[j] == s.table[j]
  }

  lemma Removed(s: State, s': State, k: string, plans: Plans, now: int)
    requires Timed(s, plans, now) && KeyedTable(s.table) && Removes(s, s', k)
    ensures Timed(s', plans, now) && KeyedTable(s'.table)
  {
  }

  /** A task is resumed or suspended, and nothing else changes. */
  predicate Switches(s: State, s': State, k: string, started: bool) {
    && k in s.table && s'.calls == s.calls && s'.looks == s.looks && s'.table.Keys == s.table.Keys
    && (forall j :: j in s.table && j != k ==> s'.table[j] == s.table[j])
    && s'.table[k] == Row(s.table[k].node.(started := started), s.table[k].times)
  }

  lemma Switched(s: State, s': State, k: string, started: bool, plans: Plans, now: int)
    requires Timed(s, plans, now) && KeyedTable(s.table) && Switches(s, s', k, started)
    ensures Timed(s', plans, now) && KeyedTable(s'.table)
  {
  }

  /** All that a walk keeps. */
  ghost predicate Walking(
      s: State, ts: Tasks, roots: set<string>, w: Walk, plans: Plans, now: int) {
    && Shape(s.table, ts) && Wellnamed(ts) && Roots(ts, roots) && Grounded(ts, roots, w) && Timed(s, plans, now)
    && Truthful(ts, w, plans.told, s.looks)
  }

  /** A task just looked at, and not run. */
  lemma SkipKeepsWalking(
      s: State, s': State, ts: Tasks, roots: set<string>, w: Walk, k: string, look: Look, plans: Plans, now: int)
    requires Walking(s, ts, roots, w, plans, now) && k in ts && k !in w.seen && Caused(ts, roots, w.run, k)
    requires s' == Looked(s) && look == LookAt(plans, ts[k].when, s) && !look.ok
    ensures Walking(s', ts, roots, Seen(w, k, look), plans, now)
  {
    SeenGrounded(ts, roots, w, k, look);
    SeenTruthful(ts, w, k, look, plans.told, s.looks, s'.looks);
  }

  /** Running a task just seen enabled. */
  lemma RunKeepsWalking(
      s: State, s': State, ts: Tasks, roots: set<string>, w: Walk, k: string, look: Look, plans: Plans, now: int)
    requires Walking(s, ts, roots, w, plans, now) && k in ts && Step(Looked(s), s', k, plans, now)
    requires MayRun(s.table[k], now) && look == LookAt(plans, ts[k].when, s) && look.ok
    requires k !in w.seen && Caused(ts, roots, w.run, k)
    ensures Walking(s', ts, roots, Seen(w, k, look), plans, now)
    ensures Continues(s, s', w.run, Seen(w, k, look).run, plans, now)
    ensures Untouched(ts, Seen(w, k, look), k)
  {
    var looked := Looked(s);
    StepTimed(looked, s', k, plans, now);
    StepContinues(looked, s', k, w.run, plans, now);
    SeenGrounded(ts, roots, w, k, look);
    SeenTruthful(ts, w, k, look, plans.told, s.looks, s'.looks);
    NothingBelow(ts, roots, w, k, look);
  }

  lemma NothingBelow(ts: Tasks, roots: set<string>, w: Walk, k: string, look: Look)
    requires Wellnamed(ts) && Roots(ts, roots) && Grounded(ts, roots, w) && k in ts
    requires k !in w.seen && Caused(ts, roots, w.run, k)
    ensures Untouched(ts, Seen(w, k, look), k)
  {
    UntouchedBelow(ts, roots, w, k);
    forall c | Follows(ts, k, c) ensures c !in Seen(w, k, look).seen {
      if c == k { SelfLoop(ts, roots, w, k); }
    }
  }

  /** No task that a walk reaches is its own predecessor. */
  lemma SelfLoop(ts: Tasks, roots: set<string>, w: Walk, k: string)
    requires Wellnamed(ts) && Roots(ts, roots) && Grounded(ts, roots, w) && k !in w.seen && Caused(ts, roots, w.run, k)
    ensures !Follows(ts, k, k)
  {
    if k in roots {
      assert k in ts && ts[k].predecessor == "";
      RootFollowsNone(ts, k, k);
    } else {
      var p :| p in w.run && Follows(ts, p, k);
      if Follows(ts, k, k) { OnePredecessor(ts, p, k, k); }
    }
  }

  /** The two relations above by name, for methods that only pass them on. */
  datatype Story = Story(kept: (State, Walk) -> bool, since: (State, Walk, State, Walk) -> bool)

  ghost predicate Tells(story: Story, ts: Tasks, roots: set<string>, plans: Plans, now: int) {
    && (forall s: State, w: Walk {:trigger Walking(s, ts, roots, w, plans, now)} ::
          Walking(s, ts, roots, w, plans, now) <==> story.kept(s, w))
    && (forall a: State, b: State, u: Walk, v: Walk
          {:trigger Continues(a, b, u.run, v.run, plans, now), story.since(a, u, b, v)} ::
          Continues(a, b, u.run, v.run, plans, now) <==> story.since(a, u, b, v))
  }

  lemma SinceTwice(
      story: Story, ts: Tasks, roots: set<string>, plans: Plans, now: int,
      a: State, u: Walk, b: State, v: Walk, c: State, w: Walk)
    requires Tells(story, ts, roots, plans, now) && story.since(a, u, b, v) && story.since(b, v, c, w)
    ensures story.since(a, u, c, w)
  {
    assert Continues(a, b, u.run, v.run, plans, now) && Continues(b, c, v.run, w.run, plans, now);
    ContinuesTwice(a, b, c, u.run, v.run, w.run, plans, now);
  }

  lemma SinceNone(story: Story, ts: Tasks, roots: set<string>, plans: Plans, now: int, s: State, u: Walk, v: Walk)
    requires Tells(story, ts, roots, plans, now) && u.run == v.run
    ensures story.since(s, u, s, v)
  {
    assert Continues(s, s, u.run, v.run, plans, now);
  }

  lemma KeptFacts(story: Story, ts: Tasks, roots: set<string>, plans: Plans, now: int, s: State, w: Walk)
    requires Tells(story, ts, roots, plans, now) && story.kept(s, w)
    ensures Shape(s.table, ts) && Wellnamed(ts)
    ensures forall k :: k in w.run ==> k in w.seen
  {
    assert Walking(s, ts, roots, w, plans, now);
  }

  lemma KeptSuccessor(
      story: Story, ts: Tasks, roots: set<string>, plans: Plans, now: int, s: State, w: Walk, p: string, k: string)
    requires Tells(story, ts, roots, plans, now) && story.kept(s, w) && p in w.run && Follows(ts, p, k)
    ensures k in s.table && s.table[k].node == ts[k] && ts[k].predecessor != ""
    ensures Caused(ts, roots, w.run, k)
  {
    assert Walking(s, ts, roots, w, plans, now);
    if ts[k].predecessor == "" { RootFollowsNone(ts, p, k); }
  }

  /** Halfway through the successors of p, which had run at s0. */
  ghost predicate OnTheWay(
      story: Story, ts: Tasks, s0: State, w: Walk, list: seq<string>, p: string, s: State, v: Walk, i: int) {
    story.kept(s, v) && Halfway(ts, w, v, list, i, p) && story.since(s0, w, s, v)
  }

  ghost predicate Ways(
      way: (State, Walk, int) -> bool, story: Story, ts: Tasks, s0: State, w: Walk, list: seq<string>, p: string) {
    forall s: State, v: Walk, i: int {:trigger way(s, v, i)} ::
      way(s, v, i) <==> OnTheWay(story, ts, s0, w, list, p, s, v, i)
  }

  /** list has the successors of p, each once. */
  predicate Lists(ts: Tasks, p: string, list: seq<string>) {
    && (forall j :: 0 <= j < |list| ==> Follows(ts, p, list[j]))
    && (forall j, k :: 0 <= j < k < |list| ==> list[j] != list[k])
  }

  lemma WayBegin(
      story: Story, ts: Tasks, roots: set<string>, plans: Plans, now: int, s0: State, w: Walk, list: seq<string>,
      p: string) returns (way: (State, Walk, int) -> bool)
    requires Tells(story, ts, roots, plans, now) && story.kept(s0, w) && Untouched(ts, w, p) && Lists(ts, p, list)
    ensures Ways(way, story, ts, s0, w, list, p) && way(s0, w, 0)
  {
    SinceNone(story, ts, roots, plans, now, s0, w, w);
    Halfway0(ts, w, list, p);
    way := (s: State, v: Walk, i: int) => OnTheWay(story, ts, s0, w, list, p, s, v, i);
  }

  lemma WayEnd(
      way: (State, Walk, int) -> bool, story: Story, ts: Tasks, s0: State, w: Walk, list: seq<string>, p: string,
      s: State, v: Walk, n: int)
    requires Ways(way, story, ts, s0, w, list, p) && way(s, v, n) && n == |list|
    requires forall k :: Follows(ts, p, k) ==> k in list
    ensures story.kept(s, v) && Swept(ts, w, v, p) && story.since(s0, w, s, v)
  {
    AllTheWay(ts, w, v, list, p);
  }

  lemma WayFacts(
      way: (State, Walk, int) -> bool, story: Story, ts: Tasks, s0: State, w: Walk, list: seq<string>, p: string,
      s: State, v: Walk, i: int, k: string)
    requires Ways(way, story, ts, s0, w, list, p) && way(s, v, i) && Lists(ts, p, list) && p in w.run
    requires 0 <= i < |list| && k == list[i]
    ensures story.kept(s, v) && p in v.run && Follows(ts, p, k) && k !in v.seen && w.seen.Keys <= v.seen.Keys
  {
    assert OnTheWay(story, ts, s0, w, list, p, s, v, i);
  }

  lemma KeptTurn(
      way: (State, Walk, int) -> bool, story: Story, ts: Tasks, roots: set<string>, plans: Plans, now: int, s0: State,
      w: Walk, s: State, v: Walk, s': State, v': Walk, list: seq<string>, i: int, next: int, k: string, look: Look,
      p: string)
    requires Tells(story, ts, roots, plans, now) && Ways(way, story, ts, s0, w, list, p) && way(s, v, i)
    requires story.kept(s', v') && story.since(s, v, s', v')
    requires Lists(ts, p, list) && 0 <= i < |list| && p in w.run && next == i + 1 && k == list[i]
    requires if look.ok then Swept(ts, Seen(v, k, look), v', k) else v' == Seen(v, k, look)
    ensures way(s', v', next)
  {
    assert OnTheWay(story, ts, s0, w, list, p, s, v, i);
    KeptFacts(story, ts, roots, plans, now, s, v);
    Turn(ts, w, v, v', list, i, look, p);
    SinceTwice(story, ts, roots, plans, now, s0, w, s, v, s', v');
    assert OnTheWay(story, ts, s0, w, list, p, s', v', next);
  }

  lemma KeptSkip(
      story: Story, ts: Tasks, roots: set<string>, plans: Plans, now: int, s: State, s': State, w: Walk, k: string,
      look: Look)
    requires Tells(story, ts, roots, plans, now) && story.kept(s, w)
    requires k in ts && k !in w.seen && Caused(ts, roots, w.run, k)
    requires s' == Looked(s) && look == LookAt(plans, ts[k].when, s) && !look.ok
    ensures story.kept(s', Seen(w, k, look)) && story.since(s, w, s', Seen(w, k, look))
  {
    assert Walking(s, ts, roots, w, plans, now);
    SkipKeepsWalking(s, s', ts, roots, w, k, look, plans, now);
    assert Walking(s', ts, roots, Seen(w, k, look), plans, now);
    assert Continues(s, s', w.run, Seen(w, k, look).run, plans, now);
  }

  lemma KeptRun(
      story: Story, ts: Tasks, roots: set<string>, plans: Plans, now: int, s: State, s': State, w: Walk, k: string,
      look: Look)
    requires Tells(story, ts, roots, plans, now) && story.kept(s, w)
    requires k in ts && k in s.table && Step(Looked(s), s', k, plans, now) && MayRun(s.table[k], now)
    requires look == LookAt(plans, ts[k].when, s) && look.ok
    requires k !in w.seen && Caused(ts, roots, w.run, k)
    ensures story.kept(s', Seen(w, k, look)) && story.since(s, w, s', Seen(w, k, look))
    ensures Untouched(ts, Seen(w, k, look), k)
  {
    assert Walking(s, ts, roots, w, plans, now);
    RunKeepsWalking(s, s', ts, roots, w, k, look, plans, now);
    assert Walking(s', ts, roots, Seen(w, k, look), plans, now);
  }

  lemma Begin(ts: Tasks, roots: set<string>, plans: Plans, now: int, s: State, w: Walk) returns (story: Story)
    requires Walking(s, ts, roots, w, plans, now)
    ensures Tells(story, ts, roots, plans, now) && story.kept(s, w)
  {
    story := Story((s, w) => Walking(s, ts, roots, w, plans, now),
                   (a: State, u: Walk, b: State, v: Walk) => Continues(a, b, u.run, v.run, plans, now));
  }

  lemma End(
      story: Story, ts: Tasks, roots: set<string>, plans: Plans, now: int, a: State, u: Walk, b: State, v: Walk)
    requires Tells(story, ts, roots, plans, now) && story.kept(b, v) && story.since(a, u, b, v)
    ensures Walking(b, ts, roots, v, plans, now) && Continues(a, b, u.run, v.run, plans, now)
  {
  }

  lemma KeyedWellnamed(ts: Tasks)
    requires Keyed(ts)
    ensures Wellnamed(ts)
  {
  }
}

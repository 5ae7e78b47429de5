/** The scheduler of internal/task/task.go: ticks, the walk over a root and its
    successors, and the times it leaves on the tasks. Whatever a run's SQL does to
    the streams shows only in the outcomes of later WHEN conditions. */
module Scheduler {
  import opened Text
  import opened Cron
  import opened Schedule
  import opened TaskGraph
  import opened TaskRuns
  import opened TaskTicks
  import opened DependencyOrder
  import opened StreamConditions
  import opened Names

  // ---- WHEN conditions ----

  /** The stream callback, which may give a different answer at each look. */
  type Callback = (nat, string, string, string) -> bool

  /** What evaluateWhen gives at the n-th look: a condition without such a call holds,
      and without a callback no stream has data. */
  function Told(callback: Option<Callback>, when: When, n: nat): bool {
    match StreamIn(when.condition)
    case None => true
    case Some(stream) => callback.Some? && callback.value(n, when.database, when.schema, stream)
  }

  /** A condition asks the callback about the stream of the leftmost call in it, with the
      task's own database and schema; one without a call holds. */
  lemma ToldOf(callback: Option<Callback>, when: When, n: nat)
    ensures forall i: nat, name :: CallAt(when.condition, i, name) && NoCallBefore(when.condition, i) ==>
              (Told(callback, when, n) <==> callback.Some? && callback.value(n, when.database, when.schema, name))
    ensures (forall i, name :: !CallAt(when.condition, i, name)) ==> Told(callback, when, n)
  {
    forall i: nat, name | CallAt(when.condition, i, name) && NoCallBefore(when.condition, i)
      ensures StreamIn(when.condition) == Some(name)
    {
      LeftmostCall(when.condition, i, name);
    }
    if forall i, name :: !CallAt(when.condition, i, name) { NoCall(when.condition); }
  }

  // ---- Tasks ----

  class Task {
    const database: string
    const schema: string
    const name: string
    const schedule: string
    const predecessor: string
    const condition: string
    var started: bool
    var lastRunAt: Option<int>
    var nextRunAt: Option<int>

    constructor (
        database: string, schema: string, name: string, schedule: string, predecessor: string, condition: string)
      ensures this.database == database && this.schema == schema && this.name == name
      ensures this.schedule == schedule && this.predecessor == predecessor && this.condition == condition
      ensures !started && lastRunAt == None && nextRunAt == None
    {
      this.database, this.schema, this.name := database, schema, name;
      this.schedule, this.predecessor, this.condition := schedule, predecessor, condition;
      started, lastRunAt, nextRunAt := false, None, None;
    }

    ghost function AsRow(): Row
      reads this
    {
      Row(Node(ToLower(database), ToLower(schema), ToLower(name), ToLower(predecessor), schedule, started,
               When(condition, database, schema)),
          Times(lastRunAt, nextRunAt))
    }

    /** nextRunTime, as the plans see it. */
    static method NextFor(schedule: string, zones: string -> Option<int>, now: int, ghost plans: Plans)
        returns (next: int)
      requires Reads(plans, zones)
      ensures plans.rule(schedule, now, next)
    {
      next := NextRunTime(schedule, zones, now);
    }

    /** The times that runTask writes after the execution. */
    method Finish(zones: string -> Option<int>, now: int, ghost plans: Plans)
      requires Reads(plans, zones)
      modifies `lastRunAt, `nextRunAt
      ensures AsRow().node == old(AsRow()).node
      ensures Stamped(schedule, plans, now, old(AsRow()).times, AsRow().times)
    {
      lastRunAt := Some(now);
      if schedule != "" {
        var next := NextFor(schedule, zones, now, plans);
        nextRunAt := Some(next);
      }
    }

    /** Moving the next run without a run. */
    method Reschedule(zones: string -> Option<int>, now: int, ghost plans: Plans)
      requires Reads(plans, zones)
      modifies `nextRunAt
      ensures AsRow().node == old(AsRow()).node && AsRow().times.last == old(AsRow()).times.last
      ensures Rescheduled(schedule, plans, now, AsRow().times.next)
    {
      var next := NextFor(schedule, zones, now, plans);
      nextRunAt := Some(next);
    }

  }

  /** plans describes the schedules of a scheduler with these time zones. */
  ghost predicate Reads(plans: Plans, zones: string -> Option<int>) {
    && Lawful(plans)
    && forall s, now, next {:trigger NextRun(ParseSchedule(s, zones), zones, now, next)} ::
         NextRun(ParseSchedule(s, zones), zones, now, next) ==> plans.rule(s, now, next)
  }

  /** And its conditions with this callback. */
  ghost predicate Obeys(plans: Plans, zones: string -> Option<int>, callback: Option<Callback>) {
    Reads(plans, zones) && forall when, n :: plans.told(when, n) == Told(callback, when, n)
  }

  /** The plans that the schedule strings and the callback make. */
  ghost function PlansOf(zones: string -> Option<int>, callback: Option<Callback>): Plans {
    Plans((s, now, next) => NextRun(ParseSchedule(s, zones), zones, now, next), (p, s) => Pace(p, s, zones),
          (when: When, n: nat) => Told(callback, when, n))
  }

  function Pace(predecessor: string, schedule: string, zones: string -> Option<int>): (n: int)
    ensures n >= 0
  {
    var plan := ParseSchedule(schedule, zones);
    if predecessor == "" && schedule != "" && plan.Some? && plan.value.Every? && plan.value.minutes <= MAX_MINUTES
    then plan.value.minutes
    else 0
  }

  lemma PlansObeyed(zones: string -> Option<int>, callback: Option<Callback>)
    ensures Obeys(PlansOf(zones, callback), zones, callback)
  {
    var plans := PlansOf(zones, callback);
    forall p, s ensures plans.pace(p, s) >= 0 && (plans.pace(p, s) > 0 ==> p == "" && s != "") { }
    forall p, s, now, next | plans.rule(s, now, next) && plans.pace(p, s) > 0
      ensures next == now + plans.pace(p, s) * MINUTE
    {
      PaceExact(p, s, zones, now, next);
    }
  }

  lemma PaceExact(p: string, s: string, zones: string -> Option<int>, now: int, next: int)
    requires NextRun(ParseSchedule(s, zones), zones, now, next) && Pace(p, s, zones) > 0
    ensures next == now + Pace(p, s, zones) * MINUTE
  {
    EveryExact(Pace(p, s, zones));
  }

  lemma PaceSaid(schedule: string, n: nat, zones: string -> Option<int>)
    requires SaysMinutes(schedule, n) && 0 < n <= MAX_MINUTES
    ensures Pace("", schedule, zones) == n
  {
    MinutesParse(schedule, n, zones);
    var before, digits, blanks, word, after :| MinutesText(schedule, n, before, digits, blanks, word, after);
    assert |schedule| >= |digits|;
  }

  /** In every run, executions of a root whose schedule says N minutes are at least N
      minutes apart. */
  lemma MinuteRootsApart(
      run: seq<Moment>, zones: string -> Option<int>, callback: Option<Callback>, m: nat, i: nat, j: nat)
      returns (p: nat, q: nat)
    requires m < |run| && run[0].state == State(map[], [], 0)
    requires forall k :: 0 <= k < |run| - 1 ==> Next(run[k], run[k + 1], PlansOf(zones, callback))
    requires i < j < |run[m].state.calls| && run[m].state.calls[i].key == run[m].state.calls[j].key
    ensures var (first, later) := (run[m].state.calls[i], run[m].state.calls[j]);
      && q == p + 1 && q <= m && MadeBy(later, run[p], run[q], PlansOf(zones, callback))
      && forall n: nat :: 0 < n <= MAX_MINUTES && RootEvery(run[p].state.table[later.key], n) ==>
           later.at - first.at >= n * MINUTE
  {
    PlansObeyed(zones, callback);
    p, q := RunsApart(run, PlansOf(zones, callback), m, i, j);
    var row := run[p].state.table[run[m].state.calls[j].key];
    forall n: nat | 0 < n <= MAX_MINUTES && RootEvery(row, n) ensures RowPace(row, PlansOf(zones, callback)) == n {
      PaceSaid(row.node.schedule, n, zones);
    }
  }

  ghost predicate RootEvery(row: Row, n: nat) {
    row.node.predecessor == "" && SaysMinutes(row.node.schedule, n)
  }

  /** After a tick the next run of a started root on a schedule lies ahead. */
  lemma NextRunAhead(
      s0: State, s: State, rd: Round, zones: string -> Option<int>, callback: Option<Callback>, now: int, k: string)
    requires Ticked(s0, s, rd, PlansOf(zones, callback), now) && k in s0.table && IsRoot(s0.table[k])
    requires Advances(ParseSchedule(s0.table[k].node.schedule, zones))
    ensures k in s.table && s.table[k].times.next.Some? && s.table[k].times.next.value > now
  {
    var schedule := s0.table[k].node.schedule;
    forall next | PlansOf(zones, callback).rule(schedule, now, next) ensures next > now {
      NextRunLater(ParseSchedule(schedule, zones), zones, now, next);
    }
    RootsAhead(s0, s, rd, PlansOf(zones, callback), now, k);
  }

  /** The rule that the ticks follow is what the schedule strings say. */
  lemma RuleSaid(
      schedule: string, zones: string -> Option<int>, callback: Option<Callback>, now: int, next: Option<int>)
    requires Rescheduled(schedule, PlansOf(zones, callback), now, next)
    ensures next.Some? && SaysNext(schedule, zones, now, next.value)
  {
    NextIsSaid(schedule, zones, now, next.value);
  }

  /** The condition of k has just been looked at, and held. */
  predicate Passed(s: State, s': State, ts: Tasks, k: string, look: Look, plans: Plans) {
    k in ts && s' == Looked(s) && look == LookAt(plans, ts[k].when, s) && look.ok
  }

  /** A task whose condition names no stream needs no answer. */
  predicate NamesNoStream(when: When) {
    StreamIn(when.condition).None?
  }

  /** Whatever the callback answers, a due root without a stream condition is executed,
      and so is every started task below it up to the first stream condition. */
  lemma PlainRouteRuns(
      s0: State, s: State, rd: Round, plans: Plans, zones: string -> Option<int>, callback: Option<Callback>, now: int,
      c: seq<string>, i: nat)
    requires Obeys(plans, zones, callback) && Ticked(s0, s, rd, plans, now)
    requires OpenRoute(s0, now, NamesNoStream, c) && i < |c|
    ensures Executed(s0, s, c[i])
  {
    RouteRuns(s0, s, rd, plans, now, c, i);
  }

  /** Without a callback, exactly the tasks run that have no stream condition on their
      route, their own included; in particular, where there are no stream conditions
      at all, exactly the tasks below due roots. */
  lemma PlainTickRuns(
      s0: State, s: State, rd: Round, plans: Plans, zones: string -> Option<int>, callback: Option<Callback>, now: int,
      k: string)
    requires Obeys(plans, zones, callback) && Ticked(s0, s, rd, plans, now)
    requires callback.None? || forall j :: j in s0.table ==> NamesNoStream(s0.table[j].node.when)
    ensures Executed(s0, s, k) <==> exists c :: OpenRoute(s0, now, NamesNoStream, c) && c[|c| - 1] == k
  {
    SteadyTickRuns(s0, s, rd, plans, now, NamesNoStream, k);
  }

  class Scheduler {
    const zones: string -> Option<int>
    /** The stream callback, if one is set. */
    const callback: Option<Callback>
    /** What the schedules mean with these time zones. */
    ghost const plans: Plans
    var tasks: map<string, Task>
    /** The number of looks at conditions so far, which tells them apart for the callback. */
    var looks: nat
    ghost var calls: seq<Call>
    ghost var clock: int

    constructor (zones: string -> Option<int>, callback: Option<Callback>, ghost now: int)
      ensures Valid() && View() == State(map[], [], 0) && clock == now
      ensures this.zones == zones && this.callback == callback && plans == PlansOf(zones, callback)
    {
      this.zones, this.callback, plans := zones, callback, PlansOf(zones, callback);
      tasks, looks, calls, clock := map[], 0, [], now;
      PlansObeyed(zones, callback);
    }

    ghost function View(): State
      reads `tasks, `looks, `calls, tasks.Values
    {
      State(map k | k in tasks :: tasks[k].AsRow(), calls, looks)
    }

    /** Distinct keys hold distinct tasks. */
    ghost predicate Apart()
      reads `tasks
    {
      forall j, k :: j in tasks && k in tasks && j != k ==> tasks[j] != tasks[k]
    }

    ghost predicate Valid()
      reads this, tasks.Values
    {
      Apart() && KeyedTable(View().table) && Timed(View(), plans, clock) && Obeys(plans, zones, callback)
    }

    /** evaluateWhen asks the callback only if the condition names a stream. */
    method Ask(t: Task) returns (ok: bool)
      ensures ok == Told(callback, When(t.condition, t.database, t.schema), looks)
    {
      if t.condition == "" { return true; }
      match StreamIn(t.condition) {
        case Some(stream) => return callback.Some? && callback.value(looks, t.database, t.schema, stream);
        case None => return true;
      }
    }

    /** evaluateWhen, counted. */
    method EvaluateWhen(t: Task, ghost when: When) returns (ok: bool, ghost look: Look)
      requires Obeys(plans, zones, callback) && when == When(t.condition, t.database, t.schema)
      modifies `looks
      ensures View() == Looked(old(View())) && look == LookAt(plans, when, old(View())) && ok == look.ok
    {
      ok := Ask(t);
      look := Look(ok, looks);
      looks := looks + 1;
    }

    /** runTask. */
    method RunTask(k: string, t: Task, now: int)
      requires Obeys(plans, zones, callback) && Apart() && k in tasks && tasks[k] == t
      modifies t`lastRunAt, t`nextRunAt, `calls
      ensures View().table.Keys == old(View().table).Keys
      ensures forall j :: j in tasks && j != k ==> View().table[j] == old(View().table)[j]
      ensures t.AsRow().node == old(t.AsRow()).node
      ensures Stamped(t.schedule, plans, now, old(t.AsRow()).times, t.AsRow().times)
      ensures calls == old(calls) + [Call(k, now, plans.pace(ToLower(t.predecessor), t.schedule))]
    {
      calls := calls + [Call(k, now, plans.pace(ToLower(t.predecessor), t.schedule))];
      t.Finish(zones, now, plans);
      assert forall j :: j in tasks && j != k ==> tasks[j].AsRow() == old(tasks[j].AsRow());
    }

    /** The collecting loop of runSuccessors. */
    method Successors(database: string, schema: string, name: string, ghost ts: Tasks, ghost p: string)
        returns (list: seq<string>)
      requires Shape(View().table, ts) && p in ts
      requires ToLower(database) == ts[p].database && ToLower(schema) == ts[p].schema && ToLower(name) == ts[p].name
      ensures (forall k :: k in list <==> Follows(ts, p, k)) && Lists(ts, p, list)
    {
      list := [];
      var todo := tasks.Keys;
      while todo != {}
        invariant todo <= tasks.Keys
        invariant forall k :: k in list <==> k !in todo && Follows(ts, p, k)
        invariant forall i, j :: 0 <= i < j < |list| ==> list[i] != list[j]
        decreases todo
      {
        var k :| k in todo;
        todo := todo - {k};
        var t := tasks[k];
        assert View().table[k] == t.AsRow();
        if t.started && ToLower(t.database) == ToLower(database) && ToLower(t.schema) == ToLower(schema) &&
           ToLower(t.predecessor) == ToLower(name) {
          list := list + [k];
        }
      }
    }

    /** runSuccessors: the walk below a task that has run. */
    method RunSuccessors(database: string, schema: string, name: string, now: int,
        ghost story: Story, ghost ts: Tasks, ghost roots: set<string>,
        ghost w: Walk, ghost p: string, ghost left: set<string>, ghost objs: set<Task>)
        returns (ghost w': Walk)
      requires Obeys(plans, zones, callback) && Tells(story, ts, roots, plans, now)
      requires tasks.Values <= objs && Apart() && story.kept(View(), w)
      requires p in w.run && p in ts && Untouched(ts, w, p) && ts.Keys <= w.seen.Keys + left
      requires ToLower(database) == ts[p].database && ToLower(schema) == ts[p].schema && ToLower(name) == ts[p].name
      modifies objs, `looks, `calls
      ensures story.kept(View(), w') && Swept(ts, w, w', p) && story.since(old(View()), w, View(), w')
      decreases left, 1
    {
      ghost var s0 := View();
      KeptFacts(story, ts, roots, plans, now, s0, w);
      var list := Successors(database, schema, name, ts, p);
      assert View() == s0;
      ghost var way := WayBegin(story, ts, roots, plans, now, s0, w, list, p);
      w' := w;
      for i := 0 to |list|
        invariant way(View(), w', i)
      {
        ghost var next := i + 1;
        w' := VisitNext(list, i, next, database, schema, now, way, story, ts, roots, s0, w, w', p, left, objs);
      }
      WayEnd(way, story, ts, s0, w, list, p, View(), w', |list|);
    }

    /** The body of that loop. */
    method VisitNext(list: seq<string>, i: nat, ghost next: nat, database: string, schema: string, now: int,
        ghost way: (State, Walk, int) -> bool, ghost story: Story, ghost ts: Tasks, ghost roots: set<string>,
        ghost s0: State, ghost w: Walk, ghost v: Walk, ghost p: string, ghost left: set<string>, ghost objs: set<Task>)
        returns (ghost v': Walk)
      requires Obeys(plans, zones, callback) && Tells(story, ts, roots, plans, now)
      requires tasks.Values <= objs && Apart() && Ways(way, story, ts, s0, w, list, p) && way(View(), v, i)
      requires i < |list| && next == i + 1 && Lists(ts, p, list)
      requires p in w.run && p in ts && ts.Keys <= w.seen.Keys + left
      requires ToLower(database) == ts[p].database && ToLower(schema) == ts[p].schema
      modifies objs, `looks, `calls
      ensures way(View(), v', next)
      decreases left, 0, 2
    {
      ghost var s1 := View();
      var k := list[i];
      WayFacts(way, story, ts, s0, w, list, p, s1, v, i, k);
      ghost var look;
      look, v' := VisitSuccessor(k, database, schema, now, story, ts, roots, v, p, left, objs);
      ghost var s2 := View();
      KeptTurn(way, story, ts, roots, plans, now, s0, w, s1, v, s2, v', list, i, next, k, look, p);
    }

    /** One turn of the loop: look at a successor and, if it runs, walk on below it. */
    method VisitSuccessor(k: string, database: string, schema: string, now: int,
        ghost story: Story, ghost ts: Tasks, ghost roots: set<string>,
        ghost v: Walk, ghost p: string, ghost left: set<string>, ghost objs: set<Task>)
        returns (ghost look: Look, ghost v': Walk)
      requires Obeys(plans, zones, callback) && Tells(story, ts, roots, plans, now)
      requires tasks.Values <= objs && Apart() && story.kept(View(), v)
      requires p in v.run && Follows(ts, p, k) && k !in v.seen && ts.Keys <= v.seen.Keys + left
      requires ToLower(database) == ts[p].database && ToLower(schema) == ts[p].schema
      modifies objs, `looks, `calls
      ensures story.kept(View(), v') && story.since(old(View()), v, View(), v')
      ensures look == LookAt(plans, ts[k].when, old(View()))
      ensures if look.ok then Swept(ts, Seen(v, k, look), v', k) else v' == Seen(v, k, look)
      decreases left, 0, 1
    {
      ghost var s0 := View();
      KeptSuccessor(story, ts, roots, plans, now, s0, v, p, k);
      var t := tasks[k];
      var ok;
      ok, look := EvaluateWhen(t, ts[k].when);
      v' := Seen(v, k, look);
      if !ok {
        KeptSkip(story, ts, roots, plans, now, s0, View(), v, k, look);
        return;
      }
      v' := RunBelow(k, t, database, schema, now, story, ts, roots, s0, v, look, left, objs);
    }

    /** Run a successor and walk on; s was the state before its condition was looked at. */
    method RunBelow(k: string, t: Task, database: string, schema: string, now: int,
        ghost story: Story, ghost ts: Tasks, ghost roots: set<string>, ghost s: State, ghost v: Walk, ghost look: Look,
        ghost left: set<string>, ghost objs: set<Task>) returns (ghost v': Walk)
      requires Obeys(plans, zones, callback) && Tells(story, ts, roots, plans, now)
      requires tasks.Values <= objs && Apart() && story.kept(s, v) && Passed(s, View(), ts, k, look, plans)
      requires k in tasks && tasks[k] == t && Caused(ts, roots, v.run, k) && k !in v.seen && k in left
      requires t.predecessor != "" && ts.Keys <= v.seen.Keys + left
      requires ToLower(database) == ts[k].database && ToLower(schema) == ts[k].schema && ToLower(t.name) == ts[k].name
      modifies objs, `looks, `calls
      ensures story.kept(View(), v') && story.since(s, v, View(), v')
      ensures Swept(ts, Seen(v, k, look), v', k)
      decreases left, 0, 0
    {
      ghost var u := Seen(v, k, look);
      RunSeen(k, t, now, story, ts, roots, s, v, look, objs);
      ghost var s1 := View();
      v' := RunSuccessors(database, schema, t.name, now, story, ts, roots, u, k, left - {k}, objs);
      SinceTwice(story, ts, roots, plans, now, s, v, s1, u, View(), v');
    }

    /** runTask within a walk. */
    method RunSeen(k: string, t: Task, now: int,
        ghost story: Story, ghost ts: Tasks, ghost roots: set<string>,
        ghost s: State, ghost v: Walk, ghost look: Look, ghost objs: set<Task>)
      requires Obeys(plans, zones, callback) && Tells(story, ts, roots, plans, now)
      requires tasks.Values <= objs && Apart() && story.kept(s, v) && Passed(s, View(), ts, k, look, plans)
      requires k in tasks && tasks[k] == t && Caused(ts, roots, v.run, k) && k !in v.seen
      requires t.predecessor == "" ==> t.nextRunAt.Some? && t.nextRunAt.value <= now
      modifies objs, `looks, `calls
      ensures story.kept(View(), Seen(v, k, look)) && story.since(s, v, View(), Seen(v, k, look))
      ensures Untouched(ts, Seen(v, k, look), k)
    {
      ghost var s1 := View();
      RunTask(k, t, now);
      StepOf(s1, View(), k, t.AsRow().times, plans, now);
      KeptRun(story, ts, roots, plans, now, s, View(), v, k, look);
    }

    /** Setting a root's next run, as tick does on first sight and executeDAG when
        the WHEN condition is false. */
    method Postpone(k: string, t: Task, now: int)
      requires Obeys(plans, zones, callback) && Apart() && k in tasks && tasks[k] == t
      modifies t`nextRunAt
      ensures Moved(old(View()), View(), k, plans, now)
    {
      t.Reschedule(zones, now, plans);
      assert forall j :: j in tasks && j != k ==> tasks[j].AsRow() == old(tasks[j].AsRow());
    }

    /** A root that runs, and the walk below it. */
    method RunTree(k: string, root: Task, now: int,
        ghost story: Story, ghost ts: Tasks, ghost roots: set<string>, ghost s: State, ghost v: Walk, ghost look: Look,
        ghost objs: set<Task>) returns (ghost w: Walk)
      requires Obeys(plans, zones, callback) && Tells(story, ts, roots, plans, now)
      requires tasks.Values <= objs && Apart() && story.kept(s, v) && Passed(s, View(), ts, k, look, plans)
      requires k in tasks && tasks[k] == root && k in roots && k !in v.seen
      requires root.nextRunAt.Some? && root.nextRunAt.value <= now
      modifies objs, `looks, `calls
      ensures story.kept(View(), w) && Swept(ts, Seen(v, k, look), w, k) && story.since(s, v, View(), w)
    {
      KeptFacts(story, ts, roots, plans, now, s, v);
      RunSeen(k, root, now, story, ts, roots, s, v, look, objs);
      ghost var s1, u := View(), Seen(v, k, look);
      w := RunSuccessors(root.database, root.schema, root.name, now, story, ts, roots, u, k, ts.Keys, objs);
      SinceTwice(story, ts, roots, plans, now, s, v, s1, u, View(), w);
    }

    /** executeDAG. */
    method ExecuteDAG(k: string, root: Task, now: int, ghost ticking: (State, Round) -> bool,
        ghost ts: Tasks, ghost s0: State, ghost rd: Round, ghost objs: set<Task>) returns (ghost rd': Round)
      requires Obeys(plans, zones, callback) && tasks.Values <= objs && Apart()
      requires KeepsTick(ticking, s0, ts, plans, now) && ticking(View(), rd) && Waiting(ts, rd, k)
      requires k in tasks && tasks[k] == root && root.AsRow().node == ts[k]
      requires root.nextRunAt.Some? && root.nextRunAt.value <= now
      modifies objs, `looks, `calls
      ensures ticking(View(), rd') && rd'.armed == rd.armed && rd'.roots == rd.roots + {k}
      ensures k in rd'.walk.seen && rd'.walk.seen[k] == LookAt(plans, ts[k].when, old(View()))
    {
      ghost var s := View();
      ghost var roots := rd.roots + {k};
      ghost var look;
      var ok;
      ok, look := EvaluateWhen(root, ts[k].when);
      if !ok {
        Postpone(k, root, now);
        rd' := Round(rd.armed, roots, Seen(rd.walk, k, look));
        SkipRoot(ticking, s0, s, View(), ts, rd, rd', k, look, plans, now);
        return;
      }
      ghost var story := BeginRoot(ticking, s0, s, ts, rd, k, roots, plans, now);
      ghost var w := RunTree(k, root, now, story, ts, roots, s, rd.walk, look, objs);
      rd' := Round(rd.armed, roots, w);
      ExtendsSeen(rd.walk, k, look, w);
      EndRoot(ticking, story, s0, s, View(), ts, rd, rd', k, look, plans, now);
    }

    /** The collecting loop of tick. */
    method CollectRoots() returns (list: seq<string>)
      ensures forall k :: k in list <==> k in tasks && IsRoot(tasks[k].AsRow())
      ensures forall i, j :: 0 <= i < j < |list| ==> list[i] != list[j]
    {
      list := [];
      var todo := tasks.Keys;
      while todo != {}
        invariant todo <= tasks.Keys
        invariant forall k :: k in list <==> k in tasks && k !in todo && IsRoot(tasks[k].AsRow())
        invariant forall i, j :: 0 <= i < j < |list| ==> list[i] != list[j]
        decreases todo
      {
        var k :| k in todo;
        todo := todo - {k};
        var t := tasks[k];
        if t.started && t.schedule != "" && t.predecessor == "" { list := list + [k]; }
      }
    }

    /** The loop of tick, over the roots collected in any order. */
    method TickAll(now: int, ghost ticking: (State, Round) -> bool, ghost ts: Tasks, ghost s0: State,
        ghost objs: set<Task>) returns (ghost rd: Round)
      requires Obeys(plans, zones, callback) && tasks.Values <= objs && Apart() && View() == s0
      requires KeepsTick(ticking, s0, ts, plans, now) && ticking(s0, Round({}, {}, Walk(map[], [], s0.looks)))
      requires Shape(s0.table, ts)
      modifies objs, `looks, `calls
      ensures ticking(View(), rd) && Collected(s0, rd, now)
    {
      var list := CollectRoots();
      rd := Round({}, {}, Walk(map[], [], s0.looks));
      assert View() == s0;
      ListsRoots(s0, list, rd, now);
      for i := 0 to |list|
        invariant ticking(View(), rd) && Sorted(s0, rd, list, i, now)
      {
        ghost var next := i + 1;
        rd := TickRoot(list, i, next, now, ticking, ts, s0, rd, objs);
      }
      SortedAll(s0, rd, list, |list|, now);
    }

    /** One root's turn. */
    method TickRoot(list: seq<string>, i: nat, ghost next: nat, now: int, ghost ticking: (State, Round) -> bool,
        ghost ts: Tasks, ghost s0: State, ghost rd: Round, ghost objs: set<Task>) returns (ghost rd': Round)
      requires Obeys(plans, zones, callback) && tasks.Values <= objs && Apart()
      requires KeepsTick(ticking, s0, ts, plans, now) && ticking(View(), rd) && Shape(s0.table, ts)
      requires i < |list| && next == i + 1 && list[i] in tasks && ListsAll(s0, list)
      requires Sorted(s0, rd, list, i, now)
      modifies objs, `looks, `calls
      ensures ticking(View(), rd') && Sorted(s0, rd', list, next, now)
    {
      var k := list[i];
      SortedWaiting(s0, ts, rd, list, i, k, now);
      rd' := RootTurn(k, now, ticking, ts, s0, rd, objs);
      SortedNext(s0, rd, rd', list, i, next, k, now);
    }

    /** A root is armed, run, or left alone. */
    method RootTurn(k: string, now: int, ghost ticking: (State, Round) -> bool,
        ghost ts: Tasks, ghost s0: State, ghost rd: Round, ghost objs: set<Task>) returns (ghost rd': Round)
      requires Obeys(plans, zones, callback) && tasks.Values <= objs && Apart()
      requires KeepsTick(ticking, s0, ts, plans, now) && ticking(View(), rd) && Shape(s0.table, ts)
      requires k in tasks && k in s0.table && IsRoot(s0.table[k]) && Waiting(ts, rd, k)
      modifies objs, `looks, `calls
      ensures ticking(View(), rd') && SortedOne(s0, rd, rd', k, now)
    {
      ghost var s := View();
      TickFacts(ticking, s0, s, ts, rd, k, plans, now);
      var t := tasks[k];
      assert s.table[k] == t.AsRow();
      rd' := rd;
      if t.nextRunAt.None? {
        Postpone(k, t, now);
        ghost var s1 := View();
        ArmRoot(ticking, s0, s, s1, ts, rd, k, plans, now);
        rd' := Round(rd.armed + {k}, rd.roots, rd.walk);
      } else if now >= t.nextRunAt.value {
        rd' := ExecuteDAG(k, t, now, ticking, ts, s0, rd, objs);
      }
      OneSorted(s0, rd, rd', k, now);
    }

    /** tick: clocks do not go back. */
    method Tick(now: int) returns (ghost rd: Round)
      requires Valid() && clock <= now
      modifies tasks.Values, `looks, `calls, `clock
      ensures Valid() && clock == now
      ensures Ticked(old(View()), View(), rd, plans, now)
    {
      ghost var s0 := View();
      TimedLater(s0, plans, clock, now);
      clock := now;
      assert View() == s0;
      rd := TickTable(now);
      ghost var s1 := View();
      assert Ticked(s0, s1, rd, plans, now);
    }

    method TickTable(now: int) returns (ghost rd: Round)
      requires Apart() && KeyedTable(View().table) && Timed(View(), plans, now) && Obeys(plans, zones, callback)
      modifies tasks.Values, `looks, `calls
      ensures Apart() && KeyedTable(View().table) && Timed(View(), plans, now)
      ensures Ticked(old(View()), View(), rd, plans, now)
    {
      ghost var s0 := View();
      ghost var ts := Nodes(s0.table);
      KeyedNodes(s0.table);
      ghost var ticking := TickBegin(s0, ts, plans, now);
      rd := TickAll(now, ticking, ts, s0, tasks.Values);
      ghost var s1 := View();
      TickEnd(ticking, s0, s1, ts, rd, plans, now);
      TickDone(s0, s1, ts, rd, plans, now);
    }

    /** CreateTask. */
    method CreateTask(
        database: string, schema: string, name: string, schedule: string, predecessor: string, condition: string)
        returns (ok: bool)
      requires Valid() && name != ""
      modifies `tasks
      ensures Valid()
      ensures ok <==> Key(database, schema, name) !in old(tasks) &&
                      (schedule == "" || predecessor != "" || ParseSchedule(schedule, zones).Some?)
      ensures if !ok then View() == old(View()) else
                Adds(old(View()), View(), Key(database, schema, name),
                  Node(ToLower(database), ToLower(schema), ToLower(name), ToLower(predecessor), schedule, false,
                    When(condition, database, schema)))
    {
      var key := Key(database, schema, name);
      if key in tasks { return false; }
      if schedule != "" && predecessor == "" && ParseSchedule(schedule, zones).None? { return false; }
      KeyFolds(database, schema, name);
      var t := new Task(database, schema, name, schedule, predecessor, condition);
      File(key, t);
      return true;
    }

    method File(key: string, t: Task)
      requires Valid() && key !in tasks && t !in tasks.Values && t.AsRow().times == Times(None, None)
      requires key == KeyOf(t.AsRow().node) && t.AsRow().node.name != ""
      modifies `tasks
      ensures Valid() && Adds(old(View()), View(), key, t.AsRow().node)
    {
      ghost var s0, node := View(), t.AsRow().node;
      Insert(key, t);
      Added(s0, View(), key, node, plans, clock);
    }

    method Insert(key: string, t: Task)
      requires Apart() && key !in tasks && t !in tasks.Values && t.AsRow().times == Times(None, None)
      modifies `tasks
      ensures Apart() && Adds(old(View()), View(), key, t.AsRow().node)
    {
      ghost var s0, row := View(), t.AsRow();
      tasks := tasks[key := t];
      assert View().table == s0.table[key := row];
      AddsOne(s0, View(), key, row);
    }

    /** GetDependencyOrder. */
    method GetDependencyOrder(database: string, schema: string) returns (order: seq<string>)
      requires Valid()
      ensures order in OrdersOf(Nodes(View().table), ToLower(database), ToLower(schema))
    {
      ghost var s0 := View();
      ghost var ts := Nodes(s0.table);
      KeyedNodes(s0.table);
      KeyedWellnamed(ts);
      var adj, inDegree;
      ghost var nodes, pred;
      adj, inDegree, nodes, pred := BuildGraph(ToLower(database), ToLower(schema), ts);
      order := Ordering(adj, inDegree, ts, ToLower(database), ToLower(schema), nodes, pred);
      assert View() == s0;
    }

    /** The building loop. */
    method BuildGraph(database: string, schema: string, ghost ts: Tasks)
        returns (adj: map<string, seq<string>>, inDegree: map<string, int>,
                 ghost nodes: set<string>, ghost pred: map<string, string>)
      requires Shape(View().table, ts) && Wellnamed(ts)
      ensures Network(ts, database, schema, nodes, pred) && Wired(adj, inDegree, nodes, pred)
    {
      adj, inDegree, nodes, pred := map[], map[], {}, map[];
      var todo := tasks.Keys;
      ghost var sub: Tasks := map[];
      while todo != {}
        invariant todo <= tasks.Keys && forall u :: u in ts ==> (u in sub <==> u !in todo)
        invariant Building(ts, sub, database, schema, adj, inDegree, nodes, pred)
        decreases todo
      {
        var k :| k in todo;
        todo := todo - {k};
        assert View().table[k] == tasks[k].AsRow();
        adj, inDegree, sub, nodes, pred := AddOne(k, tasks[k], database, schema, adj, inDegree, ts, sub, nodes, pred);
      }
      Built(ts, sub, database, schema, adj, inDegree, nodes, pred);
    }

    /** One turn of the building loop. */
    static method AddOne(
        k: string, t: Task, database: string, schema: string, adj: map<string, seq<string>>, inDegree: map<string, int>,
        ghost ts: Tasks, ghost sub: Tasks, ghost nodes: set<string>, ghost pred: map<string, string>)
        returns (adj': map<string, seq<string>>, inDegree': map<string, int>,
                 ghost sub': Tasks, ghost nodes': set<string>, ghost pred': map<string, string>)
      requires k in ts && k !in sub && t.AsRow().node == ts[k]
      requires Building(ts, sub, database, schema, adj, inDegree, nodes, pred)
      ensures sub' == sub[k := ts[k]]
      ensures Building(ts, sub', database, schema, adj', inDegree', nodes', pred')
    {
      ghost var n := ts[k];
      sub', nodes', pred' := sub[k := n], nodes, pred;
      adj', inDegree' := adj, inDegree;
      if ToLower(t.database) == database && ToLower(t.schema) == schema {
        NotYet(ts, sub, k, database, schema, nodes, pred);
        nodes' := nodes + {n.name} + if n.predecessor == "" then {} else {n.predecessor};
        pred' := if n.predecessor == "" then pred else pred[n.name := n.predecessor];
        adj', inDegree' := AddTask(adj, inDegree, ToLower(t.name), ToLower(t.predecessor), nodes, pred);
        assert nodes + {n.name} + {} == nodes + {n.name};
      }
      NetworkGrows(sub, k, n, database, schema, nodes, pred, nodes', pred');
    }

    /** DropTask. */
    method DropTask(database: string, schema: string, name: string) returns (ok: bool)
      requires Valid()
      modifies `tasks
      ensures Valid()
      ensures ok <==> Key(database, schema, name) in old(tasks)
      ensures if ok then Removes(old(View()), View(), Key(database, schema, name)) else View() == old(View())
    {
      var key := Key(database, schema, name);
      if key !in tasks { return false; }
      ghost var s0 := View();
      Delete(key);
      Removed(s0, View(), key, plans, clock);
      return true;
    }

    method Delete(key: string)
      requires Apart()
      modifies `tasks
      ensures Apart() && Removes(old(View()), View(), key)
    {
      tasks := tasks - {key};
    }

    /** AlterTask. */
    method AlterTask(database: string, schema: string, name: string, started: bool) returns (ok: bool)
      requires Valid()
      modifies tasks.Values
      ensures Valid()
      ensures ok <==> Key(database, schema, name) in tasks
      ensures if ok then Switches(old(View()), View(), Key(database, schema, name), started)
              else View() == old(View())
    {
      var key := Key(database, schema, name);
      if key !in tasks { return false; }
      ghost var s0 := View();
      Switch(key, tasks[key], started);
      Switched(s0, View(), key, started, plans, clock);
      return true;
    }

    method Switch(key: string, t: Task, started: bool)
      requires Apart() && key in tasks && tasks[key] == t
      modifies t`started
      ensures Switches(old(View()), View(), key, started)
    {
      t.started := started;
      assert forall j :: j in tasks && j != key ==> tasks[j].AsRow() == old(tasks[j].AsRow());
    }
  }
}

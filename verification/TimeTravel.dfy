/** Over every run: what a timestamp query answers, what UNDROP restores, and what
    Cleanup takes away (internal/timetravel/timetravel.go and the statements of
    internal/orchestrator that call it). */
module TimeTravel {
  import opened Text
  import opened Snapshots

  /** A list of snapshots and their files hold these contents of the past. */
  predicate Linked(list: seq<Snapshot>, h: seq<Before>, files: map<File, Contents>) {
    && |list| == |h|
    && forall i :: 0 <= i < |list| ==>
         && list[i].time == h[i].time && list[i].file.nanos == list[i].time
         && list[i].file in files && files[list[i].file] == h[i].contents
  }

  /** Nothing is newer than the clock, and files are named by their snapshots' times. */
  predicate Clocked(w: World, clock: int) {
    && (forall f :: f in w.files ==> f.nanos <= clock)
    && (forall t, i :: t in w.snaps && 0 <= i < |w.snaps[t]| ==>
          w.snaps[t][i].file.nanos == w.snaps[t][i].time && w.snaps[t][i].time <= clock)
  }

  lemma {:induction false} KeptLinked(list: seq<Snapshot>, h: seq<Before>, files: map<File, Contents>, cutoff: int)
    requires Linked(list, h, files)
    ensures Linked(Kept(list, cutoff), KeepYoung(h, Some(cutoff)), files)
    decreases |list|
  {
    if list != [] { KeptLinked(list[..|list| - 1], h[..|h| - 1], files, cutoff); }
  }

  lemma {:induction false} KeepTwice(h: seq<Before>, c: Option<int>, cutoff: int)
    requires c.Some? ==> c.value <= cutoff
    ensures KeepYoung(KeepYoung(h, c), Some(cutoff)) == KeepYoung(h, Some(cutoff))
    decreases |h|
  {
    if h != [] {
      var n := |h| - 1;
      var k := KeepYoung(h[..n], c);
      KeepTwice(h[..n], c, cutoff);
      if Young(h[n].time, c) {
        assert (k + [h[n]])[..|k|] == k;
      } else {
        assert k + [] == k;
        assert KeepYoung(h[..n], Some(cutoff)) + [] == KeepYoung(h[..n], Some(cutoff));
      }
    }
  }

  // ---- Steps ----

  lemma CapturedClock(w: World, table: string, saved: bool, now: int)
    requires Clocked(w, now)
    ensures Clocked(Captured(w, table, saved, now), now)
  {
  }

  lemma StepClock(w: World, e: Event, maxAge: int, clock: int)
    requires Clocked(w, clock) && clock < e.now
    ensures Clocked(Step(w, e, maxAge), e.now)
  {
    assert Clocked(w, e.now);
    match e.op
    case Write(table, saved, _) => CapturedClock(w, table, saved, e.now);
    case Drop(table, saved, _) => CapturedClock(w, table, saved, e.now);
    case Cleanup =>
      var c := Cleaned(w, e.now - maxAge);
      forall t, i | t in c.snaps && 0 <= i < |c.snaps[t]|
        ensures c.snaps[t][i].file.nanos == c.snaps[t][i].time && c.snaps[t][i].time <= e.now
      {
        assert c.snaps[t][i] in w.snaps[t];
      }
    case _ =>
  }

  lemma {:induction false} RunClock(events: seq<Event>, maxAge: int)
    requires Increasing(events) && events != [] && maxAge > 0
    ensures Clocked(Run(events, maxAge), events[|events| - 1].now)
    ensures Cutoff(events, maxAge).Some? ==> Cutoff(events, maxAge).value <= events[|events| - 1].now - maxAge
    decreases |events|
  {
    var n := |events| - 1;
    if n == 0 {
      assert Clocked(Run([], maxAge), events[0].now - 1);
      StepClock(Run([], maxAge), events[0], maxAge, events[0].now - 1);
      assert events[..0] == [];
    } else {
      RunClock(events[..n], maxAge);
      StepClock(Run(events[..n], maxAge), events[n], maxAge, events[n - 1].now);
    }
  }

  /** A list captures on. */
  lemma CaptureLinked(w: World, table: string, saved: bool, now: int, t: string, h: seq<Before>, clock: int)
    requires Clocked(w, clock) && clock < now && Linked(ListOf(w, t), h, w.files) && Sorted(ListOf(w, t))
    ensures var (c, touched) := (Captured(w, table, saved, now), ToLower(table) == t && t in w.tables && saved);
      && Linked(ListOf(c, t), if touched then h + [Before(now, w.tables[t])] else h, c.files)
      && Sorted(ListOf(c, t))
  {
    var c := Captured(w, table, saved, now);
    var list := ListOf(w, t);
    forall i | 0 <= i < |list|
      ensures list[i].file in c.files && c.files[list[i].file] == h[i].contents && list[i].time < now
    {
      assert list[i].file in w.files && list[i].file.nanos <= clock;
    }
  }

  /** Cleanup takes no file that a kept snapshot names. */
  lemma CleanLinked(w: World, cutoff: int, t: string, h: seq<Before>, clock: int)
    requires Clocked(w, clock) && Linked(ListOf(w, t), h, w.files) && Sorted(ListOf(w, t))
    ensures var c := Cleaned(w, cutoff);
      Linked(ListOf(c, t), KeepYoung(h, Some(cutoff)), c.files) && Sorted(ListOf(c, t))
  {
    var c := Cleaned(w, cutoff);
    var (list, kept) := (ListOf(w, t), Kept(ListOf(w, t), cutoff));
    KeptLinked(list, h, w.files, cutoff);
    KeptSorted(list, cutoff);
    assert ListOf(c, t) == kept;
    forall i | 0 <= i < |kept| ensures kept[i].file in c.files && c.files[kept[i].file] == w.files[kept[i].file] {
      assert kept[i] in list && kept[i].time >= cutoff;
      assert !TooOld(w, kept[i].file, cutoff);
    }
  }

  /** In every run, a table's list holds its history back to the last cutoff. */
  lemma {:induction false} RunLinked(events: seq<Event>, maxAge: int, t: string)
    requires Increasing(events) && maxAge > 0
    ensures Holds(Run(events, maxAge), t, History(events, maxAge, t), Cutoff(events, maxAge))
    decreases |events|
  {
    if events != [] {
      var n := |events| - 1;
      var (init, e) := (events[..n], events[n]);
      RunLinked(init, maxAge, t);
      var clock := if n == 0 then e.now - 1 else events[n - 1].now;
      if n == 0 { assert init == []; } else { RunClock(init, maxAge); }
      LinkedStep(Run(init, maxAge), e, maxAge, t, History(init, maxAge, t), Cutoff(init, maxAge), clock,
                 History(events, maxAge, t), Cutoff(events, maxAge), Run(events, maxAge), e.now - maxAge);
    }
  }

  predicate Holds(w: World, t: string, h: seq<Before>, cut: Option<int>) {
    Linked(ListOf(w, t), KeepYoung(h, cut), w.files) && Sorted(ListOf(w, t))
  }

  lemma LinkedStep(w: World, e: Event, maxAge: int, t: string, h: seq<Before>, cut: Option<int>, clock: int,
      h': seq<Before>, cut': Option<int>, s: World, cutoff: int)
    requires Clocked(w, clock) && clock < e.now && (cut.Some? ==> cut.value <= cutoff) && cutoff < e.now
    requires cutoff == e.now - maxAge
    requires Holds(w, t, h, cut) && s == Step(w, e, maxAge)
    requires h' == h + if Touches(w, e, t) then [Before(e.now, w.tables[t])] else []
    requires cut' == if e.op.Cleanup? then Some(cutoff) else cut
    ensures Holds(s, t, h', cut')
  {
    match e.op
    case Write(_, _, _) => TouchStep(w, e, t, h, cut, clock, h', s, maxAge);
    case Drop(_, _, _) => TouchStep(w, e, t, h, cut, clock, h', s, maxAge);
    case Cleanup => CleanStep(w, cutoff, t, h, cut, clock, s, h', cut');
    case Create(_, _) => SameLists(w, s, t, h, cut, h');
    case Undrop(_) => SameLists(w, s, t, h, cut, h');
  }

  lemma SameLists(w: World, s: World, t: string, h: seq<Before>, cut: Option<int>, h': seq<Before>)
    requires Holds(w, t, h, cut) && s.snaps == w.snaps && s.files == w.files && h' == h + []
    ensures Holds(s, t, h', cut)
  {
    assert h' == h;
  }

  lemma CleanStep(w: World, cutoff: int, t: string, h: seq<Before>, cut: Option<int>, clock: int,
      s: World, h': seq<Before>, cut': Option<int>)
    requires Clocked(w, clock) && Holds(w, t, h, cut) && (cut.Some? ==> cut.value <= cutoff)
    requires s == Cleaned(w, cutoff) && h' == h + [] && cut' == Some(cutoff)
    ensures Holds(s, t, h', cut')
  {
    CleanLinked(w, cutoff, t, KeepYoung(h, cut), clock);
    KeepTwice(h, cut, cutoff);
    assert h' == h;
  }

  lemma TouchStep(
      w: World, e: Event, t: string, h: seq<Before>, cut: Option<int>, clock: int, h': seq<Before>, s: World,
      maxAge: int)
    requires Clocked(w, clock) && clock < e.now && (cut.Some? ==> cut.value < e.now)
    requires Holds(w, t, h, cut) && (e.op.Write? || e.op.Drop?) && s == Step(w, e, maxAge)
    requires h' == h + if Touches(w, e, t) then [Before(e.now, w.tables[t])] else []
    ensures Holds(s, t, h', cut)
  {
    var c := Captured(w, e.op.table, e.op.saved, e.now);
    CaptureStep(w, e, t, h, cut, clock, h', c);
    assert s.snaps == c.snaps && s.files == c.files;
  }

  lemma CaptureStep(
      w: World, e: Event, t: string, h: seq<Before>, cut: Option<int>, clock: int, h': seq<Before>, c: World)
    requires Clocked(w, clock) && clock < e.now && (cut.Some? ==> cut.value < e.now)
    requires Holds(w, t, h, cut) && (e.op.Write? || e.op.Drop?)
    requires h' == h + if Touches(w, e, t) then [Before(e.now, w.tables[t])] else []
    requires c == Captured(w, e.op.table, e.op.saved, e.now)
    ensures Holds(c, t, h', cut)
  {
    CaptureLinked(w, e.op.table, e.op.saved, e.now, t, KeepYoung(h, cut), clock);
    YoungGrows(w, e, t, h, cut);
  }

  lemma YoungGrows(w: World, e: Event, t: string, h: seq<Before>, cut: Option<int>)
    requires cut.Some? ==> cut.value < e.now
    ensures var more := if Touches(w, e, t) then [Before(e.now, w.tables[t])] else [];
      KeepYoung(h + more, cut) == KeepYoung(h, cut) + more
  {
    if Touches(w, e, t) {
      var b := Before(e.now, w.tables[t]);
      assert (h + [b])[..|h|] == h;
    } else {
      assert h + [] == h && KeepYoung(h, cut) + [] == KeepYoung(h, cut);
    }
  }

  // ---- Timestamp queries ----

  predicate InOrder(h: seq<Before>) {
    forall i, j :: 0 <= i < j < |h| ==> h[i].time < h[j].time
  }

  lemma {:induction false} HistoryInOrder(events: seq<Event>, maxAge: int, t: string)
    requires Increasing(events)
    ensures InOrder(History(events, maxAge, t))
    ensures forall b :: b in History(events, maxAge, t) ==> events != [] && b.time <= events[|events| - 1].now
    decreases |events|
  {
    if events != [] {
      var n := |events| - 1;
      HistoryInOrder(events[..n], maxAge, t);
      var h := History(events[..n], maxAge, t);
      forall i | 0 <= i < |h| ensures h[i].time < events[n].now { assert h[i] in h; }
    }
  }

  function Fresh(r: Option<Before>, cut: Option<int>): Option<Before> {
    if r.Some? && Young(r.value.time, cut) then r else None
  }

  lemma LatestOf(h: seq<Before>, b: Before, ts: int)
    ensures LatestBefore(h + [b], ts) == if b.time <= ts then Some(b) else LatestBefore(h, ts)
  {
    assert (h + [b])[..|h|] == h;
  }

  lemma {:induction false} LatestIn(h: seq<Before>, ts: int)
    ensures LatestBefore(h, ts).Some? ==> LatestBefore(h, ts).value in h
    decreases |h|
  {
    if h != [] { LatestIn(h[..|h| - 1], ts); }
  }

  /** Looking up what is left of a history. */
  lemma {:induction false} YoungLatest(h: seq<Before>, cut: Option<int>, ts: int)
    requires InOrder(h)
    ensures LatestBefore(KeepYoung(h, cut), ts) == Fresh(LatestBefore(h, ts), cut)
    decreases |h|
  {
    if h != [] {
      var (init, last) := (h[..|h| - 1], h[|h| - 1]);
      YoungLatest(init, cut, ts);
      LatestIn(init, ts);
      YoungOne(h, init, last, cut, ts);
    }
  }

  lemma YoungOne(h: seq<Before>, init: seq<Before>, last: Before, cut: Option<int>, ts: int)
    requires h == init + [last] && forall b :: b in init ==> b.time < last.time
    requires LatestBefore(KeepYoung(init, cut), ts) == Fresh(LatestBefore(init, ts), cut)
    requires LatestBefore(init, ts).Some? ==> LatestBefore(init, ts).value in init
    ensures LatestBefore(KeepYoung(h, cut), ts) == Fresh(LatestBefore(h, ts), cut)
  {
    LatestOf(init, last, ts);
    assert h[..|init|] == init;
    if Young(last.time, cut) {
      LatestOf(KeepYoung(init, cut), last, ts);
    } else {
      assert KeepYoung(init, cut) + [] == KeepYoung(init, cut);
    }
  }

  lemma {:induction false} LinkedLatest(list: seq<Snapshot>, h: seq<Before>, files: map<File, Contents>, ts: int)
    requires Linked(list, h, files)
    ensures var (s, b) := (LastAt(list, ts), LatestBefore(h, ts));
      s.Some? == b.Some? && (s.Some? ==> s.value.file in files && files[s.value.file] == b.value.contents)
    decreases |list|
  {
    if list != [] { LinkedLatest(list[..|list| - 1], h[..|h| - 1], files, ts); }
  }

  /** In every run, a query at a timestamp gives the contents the table had just
      before its latest write or drop at or before it, unless that is older than the
      last cleanup kept; then, and if there is none, it is an error. */
  lemma QueryGivesBefore(events: seq<Event>, maxAge: int, t: string, ts: int)
    requires Increasing(events) && maxAge > 0
    ensures Answer(Run(events, maxAge), t, ts) ==
      match Fresh(LatestBefore(History(events, maxAge, t), ts), Cutoff(events, maxAge))
      case None => None
      case Some(b) => Some(b.contents)
  {
    var (w, h, cut) := (Run(events, maxAge), History(events, maxAge, t), Cutoff(events, maxAge));
    RunLinked(events, maxAge, t);
    HistoryInOrder(events, maxAge, t);
    YoungLatest(h, cut, ts);
    LinkedLatest(ListOf(w, t), KeepYoung(h, cut), w.files, ts);
  }

  /** Event i is a write or drop of the table, at or before ts. */
  predicate TouchedAt(events: seq<Event>, maxAge: int, t: string, ts: int, i: nat) {
    i < |events| && events[i].now <= ts && Touches(Run(events[..i], maxAge), events[i], t)
  }

  /** Event i is the latest such. */
  ghost predicate IsLatest(events: seq<Event>, maxAge: int, t: string, ts: int, i: nat) {
    TouchedAt(events, maxAge, t, ts, i) && forall j: nat :: j > i ==> !TouchedAt(events, maxAge, t, ts, j)
  }

  lemma TouchedBefore(events: seq<Event>, maxAge: int, t: string, ts: int)
    requires events != []
    ensures forall i: nat :: i != |events| - 1 ==>
      (TouchedAt(events, maxAge, t, ts, i) <==> TouchedAt(events[..|events| - 1], maxAge, t, ts, i))
  {
    var init := events[..|events| - 1];
    forall i: nat | i < |init| ensures init[..i] == events[..i] && init[i] == events[i] { }
  }

  /** Which statement that is, in the run itself. */
  lemma {:induction false} LatestStatement(events: seq<Event>, maxAge: int, t: string, ts: int) returns (i: nat)
    ensures var b := LatestBefore(History(events, maxAge, t), ts);
      if b.None? then forall j: nat :: !TouchedAt(events, maxAge, t, ts, j)
      else IsLatest(events, maxAge, t, ts, i) &&
           b.value.time == events[i].now && b.value.contents == Run(events[..i], maxAge).tables[t]
    decreases |events|
  {
    i := 0;
    if events != [] {
      var n := |events| - 1;
      var init := events[..n];
      i := LatestStatement(init, maxAge, t, ts);
      TouchedBefore(events, maxAge, t, ts);
      LatestOneMore(events, maxAge, t, ts);
      if TouchedAt(events, maxAge, t, ts, n) {
        i := n;
      } else if LatestBefore(History(init, maxAge, t), ts).Some? {
        assert init[..i] == events[..i];
      }
    }
  }

  lemma LatestOneMore(events: seq<Event>, maxAge: int, t: string, ts: int)
    requires events != []
    ensures var (n, init) := (|events| - 1, events[..|events| - 1]);
      LatestBefore(History(events, maxAge, t), ts) ==
        if TouchedAt(events, maxAge, t, ts, n) then Some(Before(events[n].now, Run(init, maxAge).tables[t]))
        else LatestBefore(History(init, maxAge, t), ts)
  {
    var (n, init) := (|events| - 1, events[..|events| - 1]);
    var h := History(init, maxAge, t);
    if Touches(Run(init, maxAge), events[n], t) {
      LatestOf(h, Before(events[n].now, Run(init, maxAge).tables[t]), ts);
    } else {
      assert h + [] == h;
    }
  }

  /** So right after a successful write the table at that time is not what the query
      gives: that is what the write replaced. The two agree exactly if the write
      changed nothing. */
  lemma QueryLagsBehind(events: seq<Event>, maxAge: int, e: Event, ts: int, contents: Contents)
    requires Increasing(events + [e]) && maxAge > 0 && ts >= e.now
    requires e.op.Write? && e.op.saved && e.op.result == Some(contents)
    requires ToLower(e.op.table) in Run(events, maxAge).tables
    ensures var (t, w) := (ToLower(e.op.table), Run(events + [e], maxAge));
      && t in w.tables && w.tables[t] == contents
      && Answer(w, t, ts) == Some(Run(events, maxAge).tables[t])
      && (Answer(w, t, ts) == Some(w.tables[t]) <==> contents == Run(events, maxAge).tables[t])
  {
    var (t, all) := (ToLower(e.op.table), events + [e]);
    assert all[..|events|] == events;
    QueryGivesBefore(all, maxAge, t, ts);
    LatestOf(History(events, maxAge, t), Before(e.now, Run(events, maxAge).tables[t]), ts);
    RunClock(all, maxAge);
  }

  // ---- What the table held at that time ----

  /** How many events there were up to ts. */
  function UpTo(events: seq<Event>, ts: int): (n: nat)
    ensures n <= |events|
    decreases |events|
  {
    if events == [] then 0
    else if events[|events| - 1].now <= ts then |events|
    else UpTo(events[..|events| - 1], ts)
  }

  lemma {:induction false} UpToExact(events: seq<Event>, ts: int)
    requires Increasing(events)
    ensures forall j :: 0 <= j < |events| ==> (events[j].now <= ts <==> j < UpTo(events, ts))
    decreases |events|
  {
    if events != [] {
      var init := events[..|events| - 1];
      UpToExact(init, ts);
      assert forall j :: 0 <= j < |init| ==> init[j] == events[j];
    }
  }

  function Held(w: World, t: string): Option<Contents> {
    if t in w.tables then Some(w.tables[t]) else None
  }

  /** The table at time ts of a run. */
  function TableAt(events: seq<Event>, maxAge: int, t: string, ts: int): Option<Contents> {
    Held(Run(events[..UpTo(events, ts)], maxAge), t)
  }

  /** What a write or drop leaves of a table that is there. */
  function Leaves(op: Op, before: Contents): Option<Contents>
    requires op.Write? || op.Drop?
  {
    if op.Write? then if op.result.Some? then op.result else Some(before)
    else if op.done then None else Some(before)
  }

  /** No statement names the table after event i and up to ts. */
  predicate QuietAfter(events: seq<Event>, t: string, ts: int, i: nat) {
    forall j :: i < j < |events| && events[j].now <= ts ==> TableOf(events[j].op) != Some(t)
  }

  lemma StepLeaves(w: World, e: Event, maxAge: int, t: string)
    requires Touches(w, e, t)
    ensures Held(Step(w, e, maxAge), t) == Leaves(e.op, w.tables[t])
  {
  }

  lemma OtherStepHolds(w: World, e: Event, maxAge: int, t: string)
    requires TableOf(e.op) != Some(t)
    ensures Held(Step(w, e, maxAge), t) == Held(w, t)
  {
  }

  lemma {:induction false} QuietHolds(events: seq<Event>, maxAge: int, t: string, from: nat, n: nat)
    requires from <= n <= |events| && forall j :: from <= j < n ==> TableOf(events[j].op) != Some(t)
    ensures Held(Run(events[..n], maxAge), t) == Held(Run(events[..from], maxAge), t)
    decreases n
  {
    if from < n {
      var last := n - 1;
      QuietHolds(events, maxAge, t, from, last);
      assert events[..n] == events[..last] + [events[last]];
      RunLast(events[..last], events[last], maxAge);
      OtherStepHolds(Run(events[..last], maxAge), events[last], maxAge, t);
    }
  }

  /** If no statement named the table in between, it still was as the latest statement
      left it. */
  lemma TableAsLeft(events: seq<Event>, maxAge: int, t: string, ts: int, i: nat)
    requires Increasing(events) && TouchedAt(events, maxAge, t, ts, i) && QuietAfter(events, t, ts, i)
    ensures TableAt(events, maxAge, t, ts) == Leaves(events[i].op, Run(events[..i], maxAge).tables[t])
  {
    var (n, next) := (UpTo(events, ts), i + 1);
    UpToExact(events, ts);
    QuietHolds(events, maxAge, t, next, n);
    assert events[..next] == events[..i] + [events[i]];
    RunLast(events[..i], events[i], maxAge);
    StepLeaves(Run(events[..i], maxAge), events[i], maxAge, t);
  }

  /** For all times: if a snapshot for the latest statement up to ts is left, the query
      answers what the table held at ts exactly if that is what the statement found;
      unless another statement named the table since, exactly if it changed nothing.
      Otherwise the query fails, rightly only if the table was not there at ts. */
  lemma AnswerIsTable(events: seq<Event>, maxAge: int, t: string, ts: int) returns (i: nat)
    requires Increasing(events) && maxAge > 0
    ensures var (answer, table) := (Answer(Run(events, maxAge), t, ts), TableAt(events, maxAge, t, ts));
      if IsLatest(events, maxAge, t, ts, i) && Young(events[i].now, Cutoff(events, maxAge)) then
        var before := Run(events[..i], maxAge).tables[t];
        && answer == Some(before) && (answer == table <==> table == Some(before))
        && (QuietAfter(events, t, ts, i) ==> (answer == table <==> Leaves(events[i].op, before) == Some(before)))
      else
        && answer == None
        && forall j: nat :: !(IsLatest(events, maxAge, t, ts, j) && Young(events[j].now, Cutoff(events, maxAge)))
  {
    i := LatestStatement(events, maxAge, t, ts);
    QueryGivesBefore(events, maxAge, t, ts);
    if IsLatest(events, maxAge, t, ts, i) && QuietAfter(events, t, ts, i) { TableAsLeft(events, maxAge, t, ts, i); }
    forall j: nat | IsLatest(events, maxAge, t, ts, j) ensures IsLatest(events, maxAge, t, ts, i) && j == i {
      assert TouchedAt(events, maxAge, t, ts, j);
    }
  }

  // ---- UNDROP ----

  function TableOf(op: Op): Option<string> {
    match op
    case Write(table, _, _) => Some(ToLower(table))
    case Drop(table, _, _) => Some(ToLower(table))
    case Create(table, _) => Some(ToLower(table))
    case Undrop(table) => Some(ToLower(table))
    case Cleanup => None
  }

  /** The table is gone, and its newest snapshot holds these contents. */
  predicate Restorable(w: World, t: string, at: int, contents: Contents) {
    var list := ListOf(w, t);
    && t !in w.tables && list != []
    && var s := list[|list| - 1];
       s.time == at && s.file.nanos == at && s.file in w.files && w.files[s.file] == contents
  }

  lemma DroppedIsRestorable(w: World, e: Event, maxAge: int)
    requires e.op.Drop? && e.op.saved && e.op.done && ToLower(e.op.table) in w.tables
    ensures Restorable(Step(w, e, maxAge), ToLower(e.op.table), e.now, w.tables[ToLower(e.op.table)])
  {
  }

  /** Statements on other tables, and cleanups within retention, leave it so. */
  lemma OtherStepRestorable(w: World, e: Event, maxAge: int, t: string, at: int, contents: Contents, cutoff: int)
    requires Restorable(w, t, at, contents) && Clocked(w, e.now - 1) && at < e.now
    requires TableOf(e.op) != Some(t) && cutoff == e.now - maxAge && (e.op.Cleanup? ==> cutoff <= at)
    ensures Restorable(Step(w, e, maxAge), t, at, contents)
  {
    var list := ListOf(w, t);
    if e.op.Cleanup? {
      var s := list[|list| - 1];
      var k := Kept(list[..|list| - 1], cutoff);
      assert Kept(list, cutoff) == k + [s];
      assert !TooOld(w, s.file, cutoff);
    }
  }

  lemma LastNotBefore(events: seq<Event>, more: seq<Event>)
    requires Increasing(events + more) && events != []
    ensures events[|events| - 1].now <= (events + more)[|events + more| - 1].now
  {
    var all := events + more;
    assert events[|events| - 1] == all[|events| - 1];
  }

  lemma ClockLater(w: World, clock: int, later: int)
    requires Clocked(w, clock) && clock <= later
    ensures Clocked(w, later)
  {
  }

  lemma {:induction false} StaysRestorable(
      events: seq<Event>, more: seq<Event>, maxAge: int, t: string, at: int, contents: Contents)
    requires Increasing(events + more) && events != [] && maxAge > 0
    requires Restorable(Run(events, maxAge), t, at, contents) && at <= events[|events| - 1].now
    requires forall i :: 0 <= i < |more| ==>
      TableOf(more[i].op) != Some(t) && (more[i].op.Cleanup? ==> more[i].now - maxAge <= at)
    ensures Restorable(Run(events + more, maxAge), t, at, contents)
    decreases |more|
  {
    if more == [] {
      assert events + more == events;
    } else {
      var n := |more| - 1;
      var (e, init) := (more[n], events + more[..n]);
      assert events + more == init + [e];
      IncreasingInit(init, e);
      StaysRestorable(events, more[..n], maxAge, t, at, contents);
      RunClock(init, maxAge);
      LastNotBefore(events, more[..n]);
      RunLast(init, e, maxAge);
      ClockLater(Run(init, maxAge), init[|init| - 1].now, e.now - 1);
      OtherStepRestorable(Run(init, maxAge), e, maxAge, t, at, contents, e.now - maxAge);
    }
  }

  /** UNDROP after DROP, with no statement on that table in between and no cleanup
      past the drop, restores exactly the dropped contents. */
  lemma UndropRestores(events: seq<Event>, drop: Event, more: seq<Event>, undrop: Event, maxAge: int, t: string)
    requires Increasing(events + [drop] + more + [undrop]) && maxAge > 0 && t in Run(events, maxAge).tables
    requires drop.op.Drop? && drop.op.saved && drop.op.done && ToLower(drop.op.table) == t
    requires undrop.op.Undrop? && ToLower(undrop.op.table) == t
    requires forall i :: 0 <= i < |more| ==>
      TableOf(more[i].op) != Some(t) && (more[i].op.Cleanup? ==> more[i].now - maxAge <= drop.now)
    ensures var w := Run(events + [drop] + more + [undrop], maxAge);
      t in w.tables && w.tables[t] == Run(events, maxAge).tables[t]
  {
    var a := events + [drop];
    var b := a + more;
    IncreasingInit(b, undrop);
    RunLast(events, drop, maxAge);
    DroppedIsRestorable(Run(events, maxAge), drop, maxAge);
    StaysRestorable(a, more, maxAge, t, drop.now, Run(events, maxAge).tables[t]);
    RunLast(b, undrop, maxAge);
    RestorableComesBack(Run(b, maxAge), undrop, maxAge, t, drop.now, Run(events, maxAge).tables[t]);
  }

  lemma RestorableComesBack(w: World, e: Event, maxAge: int, t: string, at: int, contents: Contents)
    requires Restorable(w, t, at, contents) && e.op.Undrop? && ToLower(e.op.table) == t
    ensures var s := Step(w, e, maxAge); t in s.tables && s.tables[t] == contents
  {
  }

  lemma RunLast(events: seq<Event>, e: Event, maxAge: int)
    ensures Run(events + [e], maxAge) == Step(Run(events, maxAge), e, maxAge)
  {
    assert (events + [e])[..|events|] == events;
  }

  lemma IncreasingInit(events: seq<Event>, e: Event)
    requires Increasing(events + [e])
    ensures Increasing(events) && (events != [] ==> events[|events| - 1].now < e.now)
  {
    var all := events + [e];
    assert forall i, j :: 0 <= i < j < |events| ==> events[i] == all[i] && events[j] == all[j];
    if events != [] { assert all[|events| - 1].now < all[|events|].now; }
  }
}

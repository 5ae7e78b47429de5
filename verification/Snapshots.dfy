/** Snapshot lists of internal/timetravel/timetravel.go as values, and the runs in
    which the orchestrator's statements fill them. */
module Snapshots {
  import opened Text

  /** What a table holds. */
  type Contents = seq<string>

  /** A data file, named by the table as it was spelled and the time in nanoseconds. */
  datatype File = File(table: string, nanos: int)

  datatype Snapshot = Snapshot(id: nat, time: int, file: File)

  // ---- One table's list ----

  /** The snapshots that Cleanup keeps. */
  function Kept(list: seq<Snapshot>, cutoff: int): (r: seq<Snapshot>)
    ensures forall s :: s in r <==> s in list && s.time >= cutoff
    decreases |list|
  {
    if list == [] then []
    else
      var last := list[|list| - 1];
      Kept(list[..|list| - 1], cutoff) + if last.time < cutoff then [] else [last]
  }

  /** The latest snapshot at or before a time. */
  function LastAt(list: seq<Snapshot>, ts: int): (r: Option<Snapshot>)
    ensures r.Some? ==> r.value in list && r.value.time <= ts
    ensures r.None? ==> forall s :: s in list ==> s.time > ts
    decreases |list|
  {
    if list == [] then None
    else if list[|list| - 1].time <= ts then Some(list[|list| - 1])
    else LastAt(list[..|list| - 1], ts)
  }

  predicate Sorted(list: seq<Snapshot>) {
    forall i, j :: 0 <= i < j < |list| ==> list[i].time < list[j].time
  }

  lemma {:induction false} KeptSorted(list: seq<Snapshot>, cutoff: int)
    requires Sorted(list)
    ensures Sorted(Kept(list, cutoff))
    decreases |list|
  {
    if list != [] {
      KeptSorted(list[..|list| - 1], cutoff);
      KeptBefore(list, cutoff);
    }
  }

  /** An answer, if it is not older than the cutoff. */
  function Since(r: Option<Snapshot>, cutoff: int): Option<Snapshot> {
    if r.Some? && r.value.time >= cutoff then r else None
  }

  /** Of all timestamp queries on a sorted list, Cleanup makes exactly those fail
      whose answer was older than the cutoff; the others keep their answer. */
  lemma {:induction false} CleanupAnswers(list: seq<Snapshot>, cutoff: int, ts: int)
    requires Sorted(list)
    ensures LastAt(Kept(list, cutoff), ts) == Since(LastAt(list, ts), cutoff)
    decreases |list|
  {
    if list != [] {
      var (init, last) := (list[..|list| - 1], list[|list| - 1]);
      CleanupAnswers(init, cutoff, ts);
      if last.time < cutoff {
        OldAnswer(list, cutoff, ts);
        assert Kept(init, cutoff) + [] == Kept(init, cutoff);
      } else {
        LastOf(Kept(init, cutoff), last, ts);
      }
    }
  }

  lemma LastOf(k: seq<Snapshot>, s: Snapshot, ts: int)
    ensures LastAt(k + [s], ts) == if s.time <= ts then Some(s) else LastAt(k, ts)
  {
    assert (k + [s])[..|k|] == k;
  }

  lemma KeptBefore(list: seq<Snapshot>, cutoff: int)
    requires Sorted(list) && list != []
    ensures var k := Kept(list[..|list| - 1], cutoff);
      forall i :: 0 <= i < |k| ==> k[i].time < list[|list| - 1].time
  {
    var (k, init) := (Kept(list[..|list| - 1], cutoff), list[..|list| - 1]);
    forall i | 0 <= i < |k| ensures k[i].time < list[|list| - 1].time {
      assert k[i] in init;
    }
  }

  /** If the newest snapshot is too old, so are all answers. */
  lemma OldAnswer(list: seq<Snapshot>, cutoff: int, ts: int)
    requires Sorted(list) && list != [] && list[|list| - 1].time < cutoff
    ensures LastAt(list, ts).Some? ==> LastAt(list, ts).value.time < cutoff
    ensures LastAt(list[..|list| - 1], ts).Some? ==> LastAt(list[..|list| - 1], ts).value.time < cutoff
  {
    assert forall s :: s in list ==> s.time < cutoff;
    assert forall s :: s in list[..|list| - 1] ==> s in list;
  }

  // ---- Statements ----

  /** What the engine and the database hold; tables and lists are keyed by folded
      names, files by the spelling. */
  datatype World = World(
    tables: map<string, Contents>, snaps: map<string, seq<Snapshot>>, files: map<File, Contents>, nextId: nat)

  /** saved says whether writing the data file worked, result what a write leaves or
      None if the statement fails. */
  datatype Op =
    | Write(table: string, saved: bool, result: Option<Contents>)
    | Drop(table: string, saved: bool, done: bool)
    | Create(table: string, contents: Contents)
    | Undrop(table: string)
    | Cleanup

  datatype Event = Event(now: int, op: Op)

  function ListOf(w: World, t: string): seq<Snapshot> {
    if t in w.snaps then w.snaps[t] else []
  }

  /** CaptureSnapshot: fails if there is no such table or the file is not written. */
  function Captured(w: World, table: string, saved: bool, now: int): World {
    var t := ToLower(table);
    if t !in w.tables || !saved then w
    else
      var file := File(table, now);
      World(w.tables, w.snaps[t := ListOf(w, t) + [Snapshot(w.nextId, now, file)]],
            w.files[file := w.tables[t]], w.nextId + 1)
  }

  /** Undrop's file is that of the newest snapshot; the table must not exist. */
  function Undropped(w: World, table: string): World {
    var (t, list) := (ToLower(table), ListOf(w, ToLower(table)));
    if list == [] || t in w.tables || list[|list| - 1].file !in w.files then w
    else w.(tables := w.tables[t := w.files[list[|list| - 1].file]])
  }

  predicate TooOld(w: World, file: File, cutoff: int) {
    exists t, i :: t in w.snaps && 0 <= i < |w.snaps[t]| && w.snaps[t][i].file == file && w.snaps[t][i].time < cutoff
  }

  function CleanedSnaps(snaps: map<string, seq<Snapshot>>, cutoff: int): map<string, seq<Snapshot>> {
    map t | t in snaps && Kept(snaps[t], cutoff) != [] :: Kept(snaps[t], cutoff)
  }

  function Cleaned(w: World, cutoff: int): World {
    World(w.tables, CleanedSnaps(w.snaps, cutoff),
          map f | f in w.files && !TooOld(w, f, cutoff) :: w.files[f], w.nextId)
  }

  function Step(w: World, e: Event, maxAge: int): World {
    match e.op
    case Write(table, saved, result) =>
      var c := Captured(w, table, saved, e.now);
      if result.Some? && ToLower(table) in w.tables then c.(tables := c.tables[ToLower(table) := result.value]) else c
    case Drop(table, saved, done) =>
      var c := Captured(w, table, saved, e.now);
      if done then c.(tables := c.tables - {ToLower(table)}) else c
    case Create(table, contents) => w.(tables := w.tables[ToLower(table) := contents])
    case Undrop(table) => Undropped(w, table)
    case Cleanup => Cleaned(w, e.now - maxAge)
  }

  function Run(events: seq<Event>, maxAge: int): World
    decreases |events|
  {
    if events == [] then World(map[], map[], map[], 1)
    else Step(Run(events[..|events| - 1], maxAge), events[|events| - 1], maxAge)
  }

  predicate Increasing(events: seq<Event>) {
    forall i, j :: 0 <= i < j < |events| ==> events[i].now < events[j].now
  }

  // ---- The true history ----

  /** A write or drop of t at a time when t was there, with a snapshot saved. */
  predicate Touches(w: World, e: Event, t: string) {
    && (e.op.Write? || e.op.Drop?)
    && ToLower(e.op.table) == t && t in w.tables && e.op.saved
  }

  datatype Before = Before(time: int, contents: Contents)

  /** For every such statement, the contents just before it. */
  function History(events: seq<Event>, maxAge: int, t: string): seq<Before>
    decreases |events|
  {
    if events == [] then []
    else
      var (init, e) := (events[..|events| - 1], events[|events| - 1]);
      var w := Run(init, maxAge);
      History(init, maxAge, t) + if Touches(w, e, t) then [Before(e.now, w.tables[t])] else []
  }

  /** Nothing older than this is left; None before the first cleanup. */
  function Cutoff(events: seq<Event>, maxAge: int): Option<int>
    decreases |events|
  {
    if events == [] then None
    else if events[|events| - 1].op.Cleanup? then Some(events[|events| - 1].now - maxAge)
    else Cutoff(events[..|events| - 1], maxAge)
  }

  predicate Young(time: int, cutoff: Option<int>) {
    cutoff.Some? ==> time >= cutoff.value
  }

  function KeepYoung(h: seq<Before>, cutoff: Option<int>): (r: seq<Before>)
    ensures forall b :: b in r <==> b in h && Young(b.time, cutoff)
    decreases |h|
  {
    if h == [] then []
    else
      var last := h[|h| - 1];
      KeepYoung(h[..|h| - 1], cutoff) + if Young(last.time, cutoff) then [last] else []
  }

  /** The latest entry at or before a time. */
  function LatestBefore(h: seq<Before>, ts: int): Option<Before>
    decreases |h|
  {
    if h == [] then None else if h[|h| - 1].time <= ts then Some(h[|h| - 1]) else LatestBefore(h[..|h| - 1], ts)
  }

  /** What QueryAtTimestamp's file holds; None is its error. */
  function Answer(w: World, t: string, ts: int): Option<Contents> {
    match LastAt(ListOf(w, t), ts)
    case None => None
    case Some(s) => if s.file in w.files then Some(w.files[s.file]) else None
  }
}

/** The numbers that internal/timetravel/timetravel.go gives its snapshots. */
module SnapshotNumbers {
  import opened Text
  import opened Snapshots

  predicate Rising(list: seq<Snapshot>) {
    forall i, j :: 0 <= i < j < |list| ==> list[i].id < list[j].id
  }

  predicate Below(list: seq<Snapshot>, n: nat) {
    forall s :: s in list ==> s.id < n
  }

  predicate Disjoint(a: seq<Snapshot>, b: seq<Snapshot>) {
    forall s, r :: s in a && r in b ==> s.id != r.id
  }

  /** No two snapshots have the same number, and the next number is above them all. */
  predicate Numbered(snaps: map<string, seq<Snapshot>>, n: nat) {
    && (forall t :: t in snaps ==> Rising(snaps[t]) && Below(snaps[t], n))
    && forall t, u :: t in snaps && u in snaps && t != u ==> Disjoint(snaps[t], snaps[u])
  }

  lemma {:induction false} KeptRising(list: seq<Snapshot>, cutoff: int)
    requires Rising(list)
    ensures Rising(Kept(list, cutoff))
    decreases |list|
  {
    if list != [] {
      var (init, last) := (list[..|list| - 1], list[|list| - 1]);
      KeptRising(init, cutoff);
      forall s | s in Kept(init, cutoff) ensures s.id < last.id { assert s in init; }
    }
  }

  lemma CleanedNumbered(snaps: map<string, seq<Snapshot>>, cutoff: int, n: nat)
    requires Numbered(snaps, n)
    ensures Numbered(CleanedSnaps(snaps, cutoff), n)
  {
    var kept := CleanedSnaps(snaps, cutoff);
    forall t | t in kept ensures Rising(kept[t]) && Below(kept[t], n) { KeptRising(snaps[t], cutoff); }
    forall t, u | t in kept && u in kept && t != u ensures Disjoint(kept[t], kept[u]) {
      assert Disjoint(snaps[t], snaps[u]);
    }
  }

  lemma BelowMore(list: seq<Snapshot>, n: nat, m: nat)
    requires Below(list, n) && n <= m
    ensures Below(list, m)
  {
  }

  lemma RisingAdd(list: seq<Snapshot>, s: Snapshot, n: nat, m: nat, longer: seq<Snapshot>)
    requires Rising(list) && Below(list, n) && s.id == n && m == n + 1 && longer == list + [s]
    ensures Rising(longer) && Below(longer, m)
  {
    assert forall i :: 0 <= i < |list| ==> list[i] in list && longer[i] == list[i];
    assert forall r :: r in longer ==> r in list || r == s;
  }

  lemma DisjointAdd(list: seq<Snapshot>, s: Snapshot, other: seq<Snapshot>)
    requires Disjoint(list, other) && Below(other, s.id)
    ensures Disjoint(list + [s], other) && Disjoint(other, list + [s])
  {
    assert forall r :: r in list + [s] ==> r in list || r == s;
  }

  lemma AddedNumbered(snaps: map<string, seq<Snapshot>>, t: string, list: seq<Snapshot>, s: Snapshot, n: nat, m: nat)
    requires Numbered(snaps, n) && s.id == n && m == n + 1 && list == if t in snaps then snaps[t] else []
    ensures Numbered(snaps[t := list + [s]], m)
  {
    var more := snaps[t := list + [s]];
    RisingAdd(list, s, n, m, list + [s]);
    forall u | u in snaps && u != t ensures Below(snaps[u], m) && Disjoint(list, snaps[u]) {
      BelowMore(snaps[u], n, m);
      if t in snaps { assert Disjoint(snaps[t], snaps[u]); }
    }
    forall u, v | u in more && v in more && u != v ensures Disjoint(more[u], more[v]) {
      if u == t {
        DisjointAdd(list, s, snaps[v]);
      } else if v == t {
        DisjointAdd(list, s, snaps[u]);
      }
    }
  }

  predicate InNumber(w: World) {
    Numbered(w.snaps, w.nextId)
  }

  predicate IsCaptured(w: World, table: string, saved: bool, now: int, c: World) {
    c == Captured(w, table, saved, now)
  }

  lemma CapturedNumbered(w: World, table: string, saved: bool, now: int, c: World)
    requires InNumber(w) && IsCaptured(w, table, saved, now, c)
    ensures InNumber(c)
  {
    var t := ToLower(table);
    if t in w.tables && saved {
      AddedNumbered(w.snaps, t, ListOf(w, t), Snapshot(w.nextId, now, File(table, now)), w.nextId, c.nextId);
    }
  }

  predicate IsCleaned(w: World, cutoff: int, c: World) {
    c == Cleaned(w, cutoff)
  }

  lemma CleanupNumbered(w: World, cutoff: int, c: World)
    requires InNumber(w) && IsCleaned(w, cutoff, c)
    ensures InNumber(c)
  {
    CleanedNumbered(w.snaps, cutoff, w.nextId);
  }

  predicate SameSnapshots(c: World, s: World) {
    s.snaps == c.snaps && s.nextId == c.nextId
  }

  lemma SameNumbers(c: World, s: World)
    requires InNumber(c) && SameSnapshots(c, s)
    ensures InNumber(s)
  {
  }

  /** c is what a statement makes of the snapshots. */
  predicate Makes(w: World, e: Event, maxAge: int, c: World) {
    match e.op
    case Write(table, saved, _) => IsCaptured(w, table, saved, e.now, c)
    case Drop(table, saved, _) => IsCaptured(w, table, saved, e.now, c)
    case Cleanup => IsCleaned(w, e.now - maxAge, c)
    case _ => c == w
  }

  lemma StepMakes(w: World, e: Event, maxAge: int) returns (c: World)
    ensures Makes(w, e, maxAge, c) && SameSnapshots(c, Step(w, e, maxAge))
  {
    match e.op
    case Write(table, saved, _) => c := Captured(w, table, saved, e.now);
    case Drop(table, saved, _) => c := Captured(w, table, saved, e.now);
    case Cleanup => c := Cleaned(w, e.now - maxAge);
    case _ => c := w;
  }

  lemma MadeNumbered(w: World, e: Event, maxAge: int, c: World)
    requires InNumber(w) && Makes(w, e, maxAge, c)
    ensures InNumber(c)
  {
    match e.op
    case Write(table, saved, _) => CapturedNumbered(w, table, saved, e.now, c);
    case Drop(table, saved, _) => CapturedNumbered(w, table, saved, e.now, c);
    case Cleanup => CleanupNumbered(w, e.now - maxAge, c);
    case _ =>
  }

  /** In every run, snapshots have different numbers, rising in each table's list. */
  lemma {:induction false} RunNumbered(events: seq<Event>, maxAge: int)
    ensures Numbered(Run(events, maxAge).snaps, Run(events, maxAge).nextId)
    decreases |events|
  {
    if events != [] {
      RunNumbered(events[..|events| - 1], maxAge);
      var c := StepMakes(Run(events[..|events| - 1], maxAge), events[|events| - 1], maxAge);
      MadeNumbered(Run(events[..|events| - 1], maxAge), events[|events| - 1], maxAge, c);
      SameNumbers(c, Run(events, maxAge));
    }
  }
}

/** The engine of internal/timetravel/timetravel.go, its map of lists updated in
    place. The disk is a map of data files. */
module SnapshotEngine {
  import opened Text
  import opened Snapshots

  class Engine {
    var snapshots: map<string, seq<Snapshot>>
    var disk: map<File, Contents>
    var nextId: nat
    const maxAge: int

    constructor (maxAge: int)
      ensures snapshots == map[] && disk == map[] && nextId == 1
      ensures this.maxAge == if maxAge <= 0 then 86_400_000_000_000 else maxAge
    {
      snapshots, disk, nextId := map[], map[], 1;
      this.maxAge := if maxAge <= 0 then 86_400_000_000_000 else maxAge;
    }

    /** The world with these tables in the database. */
    ghost function With(tables: map<string, Contents>): World
      reads this
    {
      World(tables, snapshots, disk, nextId)
    }

    /** CaptureSnapshot. exported is what the COPY statement wrote: nothing if it
        failed, as it does for a table that is not there. */
    method CaptureSnapshot(table: string, exported: Option<Contents>, now: int, ghost tables: map<string, Contents>)
        returns (ok: bool)
      requires exported.Some? ==> ToLower(table) in tables && tables[ToLower(table)] == exported.value
      modifies this
      ensures ok == exported.Some?
      ensures With(tables) == Captured(old(With(tables)), table, exported.Some?, now)
    {
      var fqn := ToLower(table);
      var file := File(table, now);
      if exported.None? { return false; }
      disk := disk[file := exported.value];
      var snap := Snapshot(nextId, now, file);
      nextId := nextId + 1;
      snapshots := snapshots[fqn := (if fqn in snapshots then snapshots[fqn] else []) + [snap]];
      return true;
    }

    /** QueryAtTimestamp: the backward search. */
    method QueryAtTimestamp(table: string, ts: int) returns (r: Option<File>)
      ensures r == match LastAt(ListOf(With(map[]), ToLower(table)), ts) case None => None case Some(s) => Some(s.file)
    {
      var fqn := ToLower(table);
      var snaps := if fqn in snapshots then snapshots[fqn] else [];
      if |snaps| == 0 { return None; }
      var i := |snaps|;
      assert snaps[..i] == snaps;
      while i > 0
        invariant 0 <= i <= |snaps|
        invariant LastAt(snaps, ts) == LastAt(snaps[..i], ts)
      {
        i := i - 1;
        assert snaps[..i + 1][..i] == snaps[..i];
        if snaps[i].time <= ts { return Some(snaps[i].file); }
      }
      return None;
    }

    /** Undrop: the newest snapshot. */
    method Undrop(table: string) returns (r: Option<File>)
      ensures var list := ListOf(With(map[]), ToLower(table));
        r == if list == [] then None else Some(list[|list| - 1].file)
    {
      var fqn := ToLower(table);
      var snaps := if fqn in snapshots then snapshots[fqn] else [];
      if |snaps| == 0 { return None; }
      return Some(snaps[|snaps| - 1].file);
    }

    /** Cleanup, over the tables in any order. */
    method Cleanup(now: int, ghost tables: map<string, Contents>)
      modifies `snapshots, `disk
      ensures With(tables) == Cleaned(old(With(tables)), now - maxAge)
    {
      RemoveOlder(now - maxAge, tables);
    }

    method RemoveOlder(cutoff: int, ghost tables: map<string, Contents>)
      modifies `snapshots, `disk
      ensures With(tables) == Cleaned(old(With(tables)), cutoff)
    {
      ghost var (was, files) := (snapshots, disk);
      var todo := snapshots.Keys;
      ghost var gone: set<File> := {};
      while todo != {}
        invariant todo <= snapshots.Keys <= was.Keys && disk == files - gone
        invariant Partly(was, snapshots, todo, gone, cutoff)
        decreases todo
      {
        var t :| t in todo;
        var kept, removed := Split(snapshots[t], cutoff);
        MinusTwice(files, gone, removed);
        disk := disk - removed;
        PartlyNext(was, snapshots, todo, gone, t, kept, removed, cutoff);
        gone := gone + removed;
        snapshots := if kept == [] then snapshots - {t} else snapshots[t := kept];
        todo := todo - {t};
      }
      AllCleaned(World(tables, was, files, nextId), snapshots, gone, cutoff);
    }

    /** The inner loop: what is kept, and the files to remove. */
    static method Split(snaps: seq<Snapshot>, cutoff: int) returns (kept: seq<Snapshot>, removed: set<File>)
      ensures kept == Kept(snaps, cutoff) && removed == OldFiles(snaps, cutoff)
    {
      kept, removed := [], {};
      for i := 0 to |snaps|
        invariant kept == Kept(snaps[..i], cutoff) && removed == OldFiles(snaps[..i], cutoff)
      {
        SplitNext(snaps, i, snaps[..i], snaps[..i + 1], cutoff);
        if snaps[i].time < cutoff {
          removed := removed + {snaps[i].file};
        } else {
          kept := kept + [snaps[i]];
        }
      }
      assert snaps[..|snaps|] == snaps;
    }
  }

  ghost function OldFiles(snaps: seq<Snapshot>, cutoff: int): set<File> {
    set i | 0 <= i < |snaps| && snaps[i].time < cutoff :: snaps[i].file
  }

  lemma SplitNext(snaps: seq<Snapshot>, i: nat, before: seq<Snapshot>, after: seq<Snapshot>, cutoff: int)
    requires i < |snaps| && before == snaps[..i] && after == snaps[..i + 1]
    ensures Kept(after, cutoff) ==
      if snaps[i].time < cutoff then Kept(before, cutoff) else Kept(before, cutoff) + [snaps[i]]
    ensures OldFiles(after, cutoff) == OldFiles(before, cutoff) + if snaps[i].time < cutoff then {snaps[i].file} else {}
  {
    var s := snaps[i];
    assert after == before + [s] && after[..|after| - 1] == before;
    OldFilesNext(before, s, cutoff);
    assert Kept(before, cutoff) + [] == Kept(before, cutoff);
  }

  lemma OldFilesNext(snaps: seq<Snapshot>, s: Snapshot, cutoff: int)
    ensures OldFiles(snaps + [s], cutoff) == OldFiles(snaps, cutoff) + if s.time < cutoff then {s.file} else {}
  {
    var more := snaps + [s];
    assert more[|snaps|] == s;
    forall f | f in OldFiles(snaps, cutoff) ensures f in OldFiles(more, cutoff) {
      var i :| 0 <= i < |snaps| && snaps[i].time < cutoff && snaps[i].file == f;
      assert more[i] == snaps[i];
    }
  }

  /** Halfway through: the tables in todo are still to come. */
  ghost predicate Partly(
      was: map<string, seq<Snapshot>>, now: map<string, seq<Snapshot>>, todo: set<string>, gone: set<File>,
      cutoff: int) {
    && (forall t :: t in todo ==> t in was && t in now && now[t] == was[t])
    && (forall t :: t in was && t !in todo ==>
          if Kept(was[t], cutoff) == [] then t !in now else t in now && now[t] == Kept(was[t], cutoff))
    && (forall f :: f in gone <==> exists t :: t in was && t !in todo && f in OldFiles(was[t], cutoff))
  }

  lemma PartlyNext(
      was: map<string, seq<Snapshot>>, now: map<string, seq<Snapshot>>, todo: set<string>, gone: set<File>,
      t: string, kept: seq<Snapshot>, removed: set<File>, cutoff: int)
    requires Partly(was, now, todo, gone, cutoff) && t in todo
    requires kept == Kept(was[t], cutoff) && removed == OldFiles(was[t], cutoff)
    ensures Partly(was, if kept == [] then now - {t} else now[t := kept], todo - {t}, gone + removed, cutoff)
  {
    forall f | f in gone + removed ensures exists u :: u in was && u !in todo - {t} && f in OldFiles(was[u], cutoff) {
      if f in gone {
        var u :| u in was && u !in todo && f in OldFiles(was[u], cutoff);
        assert u !in todo - {t};
      } else {
        assert t !in todo - {t};
      }
    }
  }

  lemma MinusTwice(files: map<File, Contents>, a: set<File>, b: set<File>)
    ensures (files - a) - b == files - (a + b)
  {
  }

  lemma AllCleaned(w: World, now: map<string, seq<Snapshot>>, gone: set<File>, cutoff: int)
    requires Partly(w.snaps, now, {}, gone, cutoff) && now.Keys <= w.snaps.Keys
    ensures World(w.tables, now, w.files - gone, w.nextId) == Cleaned(w, cutoff)
  {
    assert now == CleanedSnaps(w.snaps, cutoff);
    GoneIsOld(w, gone, cutoff);
    assert w.files - gone == Cleaned(w, cutoff).files;
  }

  lemma GoneIsOld(w: World, gone: set<File>, cutoff: int)
    requires forall f :: f in gone <==> exists t :: t in w.snaps && f in OldFiles(w.snaps[t], cutoff)
    ensures forall f :: f in gone <==> TooOld(w, f, cutoff)
  {
    forall f ensures f in gone <==> TooOld(w, f, cutoff) {
      if TooOld(w, f, cutoff) {
        var t, i :| t in w.snaps && 0 <= i < |w.snaps[t]| && w.snaps[t][i].file == f && w.snaps[t][i].time < cutoff;
        assert f in OldFiles(w.snaps[t], cutoff);
      }
    }
  }
}

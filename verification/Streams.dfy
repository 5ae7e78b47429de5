/** The engine of internal/stream/stream.go: streams whose changes and offsets are
    updated in place. */
module Streams {
  import opened Text
  import L = StreamLog
  import opened Names

  class Stream {
    const table: string
    const appendOnly: bool
    var offset: nat
    var changes: seq<L.Change>

    constructor (table: string, appendOnly: bool)
      ensures this.table == table && this.appendOnly == appendOnly && offset == 0 && changes == []
    {
      this.table, this.appendOnly, offset, changes := table, appendOnly, 0, [];
    }

    function AsValue(): L.Stream
      reads this
    {
      L.Stream(table, appendOnly, offset, changes)
    }
  }

  class Engine {
    var streams: map<string, Stream>

    ghost function View(): L.State
      reads this, streams.Values
    {
      map k | k in streams :: streams[k].AsValue()
    }

    ghost predicate Valid()
      reads this, streams.Values
    {
      && (forall j, k :: j in streams && k in streams && j != k ==> streams[j] != streams[k])
      && forall k :: k in streams ==> streams[k].offset <= |streams[k].changes|
    }

    constructor ()
      ensures Valid() && View() == map[]
    {
      streams := map[];
    }

    method CreateStream(database: string, schema: string, name: string, table: string, streamType: string)
        returns (ok: bool)
      requires Valid()
      modifies `streams
      ensures var op := L.Create(Key(database, schema, name), Key(database, schema, table), L.KindOf(streamType));
        Valid() && ok == !L.Fails(old(View()), op) && View() == L.Step(old(View()), op)
    {
      var key := Key(database, schema, name);
      var kind := L.KindOf(streamType);
      if kind.None? { return false; }
      if key in streams { return false; }
      var s := new Stream(Key(database, schema, table), kind.value);
      streams := streams[key := s];
      return true;
    }

    method DropStream(database: string, schema: string, name: string) returns (ok: bool)
      requires Valid()
      modifies `streams
      ensures var op := L.Drop(Key(database, schema, name));
        Valid() && ok == !L.Fails(old(View()), op) && View() == L.Step(old(View()), op)
    {
      var key := Key(database, schema, name);
      if key !in streams { return false; }
      streams := streams - {key};
      return true;
    }

    /** RecordChange appends to every stream of the table, in whatever order the
        map of streams yields them. */
    method RecordChange(database: string, schema: string, table: string, change: L.Change, now: int)
      requires Valid()
      modifies streams.Values
      ensures Valid()
      ensures View() == L.Step(old(View()), L.Record(Key(database, schema, table), L.Stamped(change, now)))
    {
      var tKey := Key(database, schema, table);
      var stamped := L.Stamped(change, now);
      var todo := streams.Keys;
      while todo != {}
        invariant todo <= streams.Keys
        invariant forall k :: k in todo ==> streams[k].AsValue() == old(streams[k].AsValue())
        invariant forall k :: k in streams && k !in todo ==>
                    streams[k].AsValue() == L.Appended(old(streams[k].AsValue()), tKey, stamped)
        decreases todo
      {
        var k :| k in todo;
        todo := todo - {k};
        var s := streams[k];
        if s.table == tKey && !(s.appendOnly && stamped.action != L.Insert) {
          s.changes := s.changes + [stamped];
        }
      }
    }

    /** ConsumeStream: None is its error. */
    method ConsumeStream(database: string, schema: string, name: string) returns (r: Option<seq<L.Change>>)
      requires Valid()
      modifies streams.Values
      ensures var (key, op) := (Key(database, schema, name), L.Consume(Key(database, schema, name)));
        && Valid() && View() == L.Step(old(View()), op)
        && r == if L.Fails(old(View()), op) then None else Some(L.Batch(old(View()), op, key))
    {
      var key := Key(database, schema, name);
      if key !in streams { return None; }
      var s := streams[key];
      if s.offset >= |s.changes| {
        assert s.offset == |s.changes| && L.Pending(View()[key]) == [];
        assert View()[key].(offset := |View()[key].changes|) == View()[key];
        return Some([]);
      }
      var records := s.changes[s.offset..];
      s.offset := |s.changes|;
      return Some(records);
    }

    method HasData(database: string, schema: string, name: string) returns (has: bool)
      requires Valid()
      ensures has == L.HasData(View(), Key(database, schema, name))
    {
      var key := Key(database, schema, name);
      if key !in streams { return false; }
      return streams[key].offset < |streams[key].changes|;
    }
  }
}

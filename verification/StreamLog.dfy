/** Change streams of internal/stream/stream.go as values: the operations, and what
    every run delivers. */
module StreamLog {
  import opened Text

  datatype Action = Insert | Delete | Update

  /** at is None for a change recorded without a time. */
  datatype Change = Change(action: Action, isUpdate: bool, rowId: string, data: string, at: Option<int>)

  /** Every change in a stream has a time, its own or that of its recording. */
  function Stamped(change: Change, now: int): (r: Change)
    ensures r.at == Some(now) || (r.at.Some? && r.at == change.at)
    ensures r.(at := change.at) == change && (change.at.Some? ==> r == change)
  {
    if change.at.None? then change.(at := Some(now)) else change
  }

  datatype Stream = Stream(table: string, appendOnly: bool, offset: nat, changes: seq<Change>)

  /** Streams by key; tables and streams are named by folded keys. */
  type State = map<string, Stream>

  datatype Op =
    | Create(key: string, table: string, kind: Option<bool>)
    | Drop(key: string)
    | Record(table: string, change: Change)
    | Consume(key: string)

  /** APPEND_ONLY, STANDARD, or no stream type at all. */
  function KindOf(streamType: string): Option<bool> {
    var t := ToUpper(if streamType == "" then "STANDARD" else streamType);
    if t == "APPEND_ONLY" then Some(true) else if t == "STANDARD" then Some(false) else None
  }

  predicate Takes(s: Stream, table: string, change: Change) {
    s.table == table && (s.appendOnly ==> change.action == Insert)
  }

  function Appended(s: Stream, table: string, change: Change): Stream {
    if Takes(s, table, change) then s.(changes := s.changes + [change]) else s
  }

  predicate Fails(st: State, op: Op) {
    match op
    case Create(k, _, kind) => kind.None? || k in st
    case Drop(k) => k !in st
    case Record(_, _) => false
    case Consume(k) => k !in st
  }

  function Step(st: State, op: Op): State {
    if Fails(st, op) then st
    else
      match op
      case Create(k, t, kind) => st[k := Stream(t, kind.value, 0, [])]
      case Drop(k) => st - {k}
      case Record(t, c) => map k | k in st :: Appended(st[k], t, c)
      case Consume(k) => st[k := st[k].(offset := |st[k].changes|)]
  }

  function Pending(s: Stream): seq<Change> {
    if s.offset <= |s.changes| then s.changes[s.offset..] else []
  }

  /** What an operation hands out from stream k. */
  function Batch(st: State, op: Op, k: string): seq<Change> {
    if op.Consume? && op.key == k && k in st then Pending(st[k]) else []
  }

  predicate HasData(st: State, k: string) {
    k in st && st[k].offset < |st[k].changes|
  }

  // ---- Runs ----

  function Run(ops: seq<Op>): State
    decreases |ops|
  {
    if ops == [] then map[] else Step(Run(ops[..|ops| - 1]), ops[|ops| - 1])
  }

  predicate Creates(st: State, op: Op, k: string) {
    op.Create? && op.key == k && !Fails(st, op)
  }

  /** All batches handed out from stream k since it was created, in order. */
  function Delivered(ops: seq<Op>, k: string): seq<Change>
    decreases |ops|
  {
    if ops == [] then []
    else
      var (before, op) := (ops[..|ops| - 1], ops[|ops| - 1]);
      if Creates(Run(before), op, k) then [] else Delivered(before, k) + Batch(Run(before), op, k)
  }

  /** The changes recorded for a table, inserts only for an append-only stream. */
  function Accepted(ops: seq<Op>, table: string, appendOnly: bool): seq<Change>
    decreases |ops|
  {
    if ops == [] then []
    else
      var (before, op) := (ops[..|ops| - 1], ops[|ops| - 1]);
      Accepted(before, table, appendOnly) +
      if op.Record? && op.table == table && (appendOnly ==> op.change.action == Insert) then [op.change] else []
  }

  /** How many operations there were up to and including the creation of k. */
  function Born(ops: seq<Op>, k: string): (n: nat)
    ensures n <= |ops|
    decreases |ops|
  {
    if ops == [] then 0
    else if Creates(Run(ops[..|ops| - 1]), ops[|ops| - 1], k) then |ops|
    else Born(ops[..|ops| - 1], k)
  }

  lemma AcceptedNext(ops: seq<Op>, b: nat, table: string, appendOnly: bool)
    requires b < |ops|
    ensures var op := ops[|ops| - 1];
      Accepted(ops[b..], table, appendOnly) == Accepted(ops[..|ops| - 1][b..], table, appendOnly) +
      if op.Record? && op.table == table && (appendOnly ==> op.change.action == Insert) then [op.change] else []
  {
    var s := ops[b..];
    assert s[..|s| - 1] == ops[..|ops| - 1][b..] && s[|s| - 1] == ops[|ops| - 1];
  }

  /** What has been handed out and what is pending make up what was accepted. */
  predicate InStep(s: Stream, delivered: seq<Change>, accepted: seq<Change>) {
    s.offset <= |s.changes| && delivered == s.changes[..s.offset] && s.changes == accepted
  }

  lemma InStepNext(was: Stream, s: Stream, op: Op, k: string, delivered: seq<Change>, accepted: seq<Change>,
      handed: seq<Change>, added: seq<Change>)
    requires InStep(was, delivered, accepted)
    requires added == if op.Record? && Takes(was, op.table, op.change) then [op.change] else []
    requires if op.Consume? && op.key == k
             then s == was.(offset := |was.changes|) && handed == Pending(was)
             else s == was.(changes := was.changes + added) && handed == []
    ensures InStep(s, delivered + handed, accepted + added)
  {
    assert was.changes[..was.offset] + was.changes[was.offset..] == was.changes;
    assert accepted + [] == accepted && delivered + [] == delivered;
    if !(op.Consume? && op.key == k) { assert s.changes[..s.offset] == was.changes[..was.offset]; }
    else { assert s.changes[..|s.changes|] == s.changes; }
  }

  lemma StepOf(st: State, op: Op, k: string)
    requires k in st && k in Step(st, op) && !Creates(st, op, k)
    ensures var (was, s) := (st[k], Step(st, op)[k]);
      var added := if op.Record? && Takes(was, op.table, op.change) then [op.change] else [];
      if op.Consume? && op.key == k then s == was.(offset := |was.changes|)
      else s == was.(changes := was.changes + added)
  {
    assert st[k].changes + [] == st[k].changes;
  }

  lemma {:induction false} RunInStep(ops: seq<Op>, k: string)
    requires k in Run(ops)
    ensures var s := Run(ops)[k];
      InStep(s, Delivered(ops, k), Accepted(ops[Born(ops, k)..], s.table, s.appendOnly))
    decreases |ops|
  {
    var n := |ops| - 1;
    var (before, op) := (ops[..n], ops[n]);
    var (st, s, b) := (Run(before), Run(ops)[k], Born(ops, k));
    if Creates(st, op, k) {
      assert ops[b..] == [];
    } else {
      RunInStep(before, k);
      AcceptedNext(ops, b, s.table, s.appendOnly);
      StepOf(st, op, k);
      var added := if op.Record? && Takes(st[k], op.table, op.change) then [op.change] else [];
      InStepNext(st[k], s, op, k, Delivered(before, k), Accepted(before[b..], s.table, s.appendOnly),
                 Batch(st, op, k), added);
    }
  }

  /** Over every run, the batches a stream has handed out and the changes still
      pending are together exactly the changes recorded for its table since the
      stream was created: each once, and in order. */
  lemma ExactlyOnce(ops: seq<Op>, k: string)
    requires k in Run(ops)
    ensures var s := Run(ops)[k];
      s.offset <= |s.changes| && Delivered(ops, k) + Pending(s) == Accepted(ops[Born(ops, k)..], s.table, s.appendOnly)
  {
    RunInStep(ops, k);
    var s := Run(ops)[k];
    InStepWhole(s, Delivered(ops, k), Accepted(ops[Born(ops, k)..], s.table, s.appendOnly));
  }

  lemma InStepWhole(s: Stream, delivered: seq<Change>, accepted: seq<Change>)
    requires InStep(s, delivered, accepted)
    ensures s.offset <= |s.changes| && delivered + Pending(s) == accepted
  {
    assert s.changes[..s.offset] + s.changes[s.offset..] == s.changes;
  }

  /** There is data exactly when the next consumption hands something out. */
  lemma HasDataMeansBatch(ops: seq<Op>, k: string)
    ensures HasData(Run(ops), k) <==> Batch(Run(ops), Consume(k), k) != []
  {
    if k in Run(ops) { ExactlyOnce(ops, k); }
  }

  /** A stream dropped and created again starts from nothing. */
  lemma RecreatedIsEmpty(ops: seq<Op>, k: string, table: string, appendOnly: bool)
    requires k in Run(ops)
    ensures var again := ops + [Drop(k), Create(k, table, Some(appendOnly))];
      k in Run(again) && Pending(Run(again)[k]) == [] && Delivered(again, k) == []
  {
    var dropped := ops + [Drop(k)];
    var again := ops + [Drop(k), Create(k, table, Some(appendOnly))];
    assert dropped[..|ops|] == ops && again[..|ops| + 1] == dropped;
    assert Run(dropped) == Run(ops) - {k};
    assert Creates(Run(dropped), again[|ops| + 1], k);
  }

  // ---- What the stream type decides ----

  /** Every change recorded for a table. */
  function RecordedFor(ops: seq<Op>, table: string): seq<Change>
    decreases |ops|
  {
    if ops == [] then []
    else
      var (before, op) := (ops[..|ops| - 1], ops[|ops| - 1]);
      if op.Record? && op.table == table then RecordedFor(before, table) + [op.change] else RecordedFor(before, table)
  }

  function Inserts(changes: seq<Change>): seq<Change> {
    if changes == [] then []
    else
      var (before, change) := (changes[..|changes| - 1], changes[|changes| - 1]);
      if change.action == Insert then Inserts(before) + [change] else Inserts(before)
  }

  lemma {:induction false} AcceptedIsRecorded(ops: seq<Op>, table: string)
    ensures Accepted(ops, table, false) == RecordedFor(ops, table)
    ensures Accepted(ops, table, true) == Inserts(RecordedFor(ops, table))
    decreases |ops|
  {
    if ops != [] {
      var (before, op) := (ops[..|ops| - 1], ops[|ops| - 1]);
      AcceptedIsRecorded(before, table);
      var cs := RecordedFor(before, table);
      if op.Record? { assert (cs + [op.change])[..|cs|] == cs; }
    }
  }

  /** k is there, with this table and kind, since operation number born. */
  ghost predicate Lives(ops: seq<Op>, k: string, table: string, kind: bool, born: nat) {
    k in Run(ops) && Run(ops)[k].table == table && Run(ops)[k].appendOnly == kind && Born(ops, k) == born
  }

  lemma LivesOn(ops: seq<Op>, k: string, table: string, kind: bool, born: nat, op: Op, next: seq<Op>)
    requires Lives(ops, k, table, kind, born) && op != Drop(k) && next == ops + [op]
    ensures Lives(next, k, table, kind, born)
  {
    assert next[..|next| - 1] == ops;
  }

  /** A stream keeps its table and its kind until it is dropped. */
  lemma {:induction false} KeepsKind(
      start: seq<Op>, k: string, table: string, kind: bool, born: nat, more: seq<Op>, all: seq<Op>)
    requires Lives(start, k, table, kind, born) && all == start + more
    requires forall i :: 0 <= i < |more| ==> more[i] != Drop(k)
    ensures Lives(all, k, table, kind, born)
    decreases |more|
  {
    if more == [] {
      assert all == start;
    } else {
      var m := |more| - 1;
      KeepsKind(start, k, table, kind, born, more[..m], start + more[..m]);
      LivesOn(start + more[..m], k, table, kind, born, more[m], all);
    }
  }

  lemma KindDelivers(ops: seq<Op>, k: string, table: string, kind: bool, more: seq<Op>, all: seq<Op>)
    requires k !in Run(ops) && all == ops + [Create(k, table, Some(kind))] + more
    requires forall i :: 0 <= i < |more| ==> more[i] != Drop(k)
    ensures k in Run(all)
    ensures Delivered(all, k) + Pending(Run(all)[k]) ==
              if kind then Inserts(RecordedFor(more, table)) else RecordedFor(more, table)
  {
    var start := ops + [Create(k, table, Some(kind))];
    var born := |start|;
    assert start[..|ops|] == ops;
    assert Creates(Run(ops), Create(k, table, Some(kind)), k);
    KeepsKind(start, k, table, kind, born, more, all);
    assert all[born..] == more;
    ExactlyOnce(all, k);
    AcceptedIsRecorded(more, table);
  }

  lemma KindNames(streamType: string)
    ensures streamType == "" || ToUpper(streamType) == "STANDARD" ==> KindOf(streamType) == Some(false)
    ensures ToUpper(streamType) == "APPEND_ONLY" ==> KindOf(streamType) == Some(true)
    ensures streamType != "" && ToUpper(streamType) != "STANDARD" && ToUpper(streamType) != "APPEND_ONLY" ==>
              KindOf(streamType) == None
  {
  }

  /** A stream created as STANDARD, or with no type, delivers every change recorded for
      its table from then on, one created as APPEND_ONLY the inserts among them; there is
      no stream of another type. */
  lemma TypeDecides(ops: seq<Op>, k: string, table: string, streamType: string, more: seq<Op>)
    requires k !in Run(ops) && forall i :: 0 <= i < |more| ==> more[i] != Drop(k)
    ensures var all := ops + [Create(k, table, KindOf(streamType))] + more;
      && (streamType == "" || ToUpper(streamType) == "STANDARD" ==>
            k in Run(all) && Delivered(all, k) + Pending(Run(all)[k]) == RecordedFor(more, table))
      && (ToUpper(streamType) == "APPEND_ONLY" ==>
            k in Run(all) && Delivered(all, k) + Pending(Run(all)[k]) == Inserts(RecordedFor(more, table)))
    ensures streamType != "" && ToUpper(streamType) != "STANDARD" && ToUpper(streamType) != "APPEND_ONLY" ==>
              Run(ops + [Create(k, table, KindOf(streamType))]) == Run(ops)
  {
    KindNames(streamType);
    var kind := KindOf(streamType);
    var start := ops + [Create(k, table, kind)];
    if kind.Some? {
      KindDelivers(ops, k, table, kind.value, more, start + more);
    } else {
      assert start[..|ops|] == ops;
    }
  }
}

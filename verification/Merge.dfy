/** rewriteMerge of internal/rewriter/snowflake_ddl.go: a MERGE with one matched and
    one not-matched branch against the INSERT ... ON CONFLICT that replaces it. */
module Merge {
  import opened Text

  datatype Val = Null | V(n: int)

  type Row = map<string, Val>

  datatype Side = Target | Source

  /** A column of one of the tables. In the upsert the source is the row proposed
      for insertion, excluded. */
  datatype Term = Of(side: Side, col: string) | Const(v: Val) | Op(name: string, args: Terms)

  datatype Terms = Nil | Cons(first: Term, rest: Terms)

  type Ops = (string, seq<Val>) -> Val

  function Get(row: Row, col: string): Val {
    if col in row then row[col] else Null
  }

  function Eval(ops: Ops, t: Term, target: Row, source: Row): Val {
    match t
    case Of(Target, c) => Get(target, c)
    case Of(Source, c) => Get(source, c)
    case Const(v) => v
    case Op(name, args) => ops(name, EvalAll(ops, args, target, source))
  }

  function EvalAll(ops: Ops, ts: Terms, target: Row, source: Row): seq<Val> {
    match ts
    case Nil => []
    case Cons(t, rest) => [Eval(ops, t, target, source)] + EvalAll(ops, rest, target, source)
  }

  datatype Assignment = Assignment(col: string, term: Term)

  /** One equality of two columns, an update list, and the inserted columns. */
  datatype Statement = Statement(left: Term, right: Term, updates: seq<Assignment>, inserts: seq<Assignment>)

  /** All assignments at once: every term sees the old row. */
  function Assign(ops: Ops, updates: seq<Assignment>, was: Row, source: Row): Row {
    if updates == [] then was
    else
      var last := updates[|updates| - 1];
      Assign(ops, updates[..|updates| - 1], was, source)[last.col := Eval(ops, last.term, was, source)]
  }

  /** The row made of the inserted columns; the others are NULL. */
  function Proposed(ops: Ops, inserts: seq<Assignment>, source: Row): Row {
    if inserts == [] then map[]
    else
      var last := inserts[|inserts| - 1];
      Proposed(ops, inserts[..|inserts| - 1], source)[last.col := Eval(ops, last.term, map[], source)]
  }

  /** SQL equality, false on NULL. */
  predicate Equal(v: Val, w: Val) {
    v.V? && v == w
  }

  // ---- MERGE ----

  predicate Matches(ops: Ops, m: Statement, target: Row, source: Row) {
    Equal(Eval(ops, m.left, target, source), Eval(ops, m.right, target, source))
  }

  /** The index of the first matching source row; |sources| if there is none. */
  function FirstMatch(ops: Ops, m: Statement, target: Row, sources: seq<Row>): (i: nat)
    ensures i <= |sources|
    ensures i < |sources| ==> Matches(ops, m, target, sources[i])
    ensures forall j :: 0 <= j < i ==> !Matches(ops, m, target, sources[j])
  {
    if sources == [] then 0
    else if Matches(ops, m, target, sources[0]) then 0
    else 1 + FirstMatch(ops, m, target, sources[1..])
  }

  function Updated(ops: Ops, m: Statement, target: Row, sources: seq<Row>): Row {
    var i := FirstMatch(ops, m, target, sources);
    if i < |sources| then Assign(ops, m.updates, target, sources[i]) else target
  }

  predicate IsMatched(ops: Ops, m: Statement, targets: seq<Row>, source: Row) {
    exists i :: 0 <= i < |targets| && Matches(ops, m, targets[i], source)
  }

  function Inserted(ops: Ops, m: Statement, targets: seq<Row>, sources: seq<Row>): seq<Row> {
    if sources == [] then []
    else
      var last := sources[|sources| - 1];
      Inserted(ops, m, targets, sources[..|sources| - 1]) +
      if IsMatched(ops, m, targets, last) then [] else [Proposed(ops, m.inserts, last)]
  }

  /** Both branches look at the target as it was before the statement. */
  function MergeResult(ops: Ops, m: Statement, targets: seq<Row>, sources: seq<Row>): seq<Row> {
    seq(|targets|, i requires 0 <= i < |targets| => Updated(ops, m, targets[i], sources)) +
    Inserted(ops, m, targets, sources)
  }

  // ---- INSERT ... ON CONFLICT (key) DO UPDATE ----

  /** In the update list the source stands for the proposed row, excluded. */
  datatype Replacement = Replacement(key: string, updates: seq<Assignment>, inserts: seq<Assignment>)

  /** ON must be one equality of two columns; the left one is the conflict key,
      whichever table it is written for. */
  function RewriteMerge(m: Statement): Option<Replacement> {
    if m.left.Of? && m.right.Of? then Some(Replacement(m.left.col, m.updates, m.inserts)) else None
  }

  /** The index of the row that the proposed one conflicts with; |table| if none. */
  function Conflict(table: seq<Row>, key: string, proposed: Row): (i: nat)
    ensures i <= |table|
    ensures i < |table| ==> Equal(Get(table[i], key), Get(proposed, key))
    ensures forall j :: 0 <= j < i ==> !Equal(Get(table[j], key), Get(proposed, key))
  {
    if table == [] then 0
    else if Equal(Get(table[0], key), Get(proposed, key)) then 0
    else 1 + Conflict(table[1..], key, proposed)
  }

  /** One proposed row at a time, against the table as it then is. */
  function Upsert(ops: Ops, r: Replacement, table: seq<Row>, sources: seq<Row>): seq<Row>
    decreases |sources|
  {
    if sources == [] then table
    else
      var before := Upsert(ops, r, table, sources[..|sources| - 1]);
      var proposed := Proposed(ops, r.inserts, sources[|sources| - 1]);
      var i := Conflict(before, r.key, proposed);
      if i < |before| then before[i := Assign(ops, r.updates, before[i], proposed)] else before + [proposed]
  }

  // ---- When they agree ----

  /** Keys that are not NULL occur once. */
  predicate UniqueKey(rows: seq<Row>, key: string) {
    forall i, j :: 0 <= i < j < |rows| ==> !Equal(Get(rows[i], key), Get(rows[j], key))
  }

  /** The columns of the source that a term reads. */
  predicate Reads(t: Term, col: string) {
    match t
    case Of(side, c) => side == Source && c == col
    case Const(_) => false
    case Op(_, args) => ReadsAny(args, col)
  }

  predicate ReadsAny(ts: Terms, col: string) {
    ts.Cons? && (Reads(ts.first, col) || ReadsAny(ts.rest, col))
  }

  /** The inserted row has a source column's value in this column: its last
      assignment is that plain column. */
  predicate CopiesFrom(inserts: seq<Assignment>, col: string, from: string) {
    exists i :: 0 <= i < |inserts| && inserts[i] == Assignment(col, Of(Source, from)) &&
      forall j :: i < j < |inserts| ==> inserts[j].col != col
  }

  predicate Copies(inserts: seq<Assignment>, col: string) {
    CopiesFrom(inserts, col, col)
  }

  /** ON compares column key of the target with column from of the source. */
  predicate OnKeys(m: Statement, key: string, from: string) {
    || (m.left == Of(Target, key) && m.right == Of(Source, from))
    || (m.left == Of(Source, from) && m.right == Of(Target, key))
  }

  /** The column on the left of ON names the target's key, which is not assigned, and
      INSERT sets it from the source's and copies every source column that SET reads. */
  ghost predicate Simple(m: Statement, key: string, from: string) {
    && OnKeys(m, key, from) && m.left.col == key
    && (forall i :: 0 <= i < |m.updates| ==> m.updates[i].col != key)
    && CopiesFrom(m.inserts, key, from)
    && forall i, c :: 0 <= i < |m.updates| && Reads(m.updates[i].term, c) ==> Copies(m.inserts, c)
  }

  lemma {:induction false} CopiedValue(ops: Ops, inserts: seq<Assignment>, col: string, from: string, source: Row)
    requires CopiesFrom(inserts, col, from)
    ensures Get(Proposed(ops, inserts, source), col) == Get(source, from)
    decreases |inserts|
  {
    var n := |inserts| - 1;
    var i :| 0 <= i < |inserts| && inserts[i] == Assignment(col, Of(Source, from)) &&
      forall j :: i < j < |inserts| ==> inserts[j].col != col;
    if i < n {
      assert inserts[..n][i] == inserts[i];
      CopiedValue(ops, inserts[..n], col, from, source);
    }
  }

  lemma {:induction false} SameReading(ops: Ops, t: Term, row: Row, s: Row, p: Row)
    requires forall c :: Reads(t, c) ==> Get(s, c) == Get(p, c)
    ensures Eval(ops, t, row, s) == Eval(ops, t, row, p)
  {
    match t
    case Of(side, c) => if side == Source { assert Reads(t, c); }
    case Const(_) =>
    case Op(_, args) =>
      forall c | ReadsAny(args, c) ensures Get(s, c) == Get(p, c) { assert Reads(t, c); }
      SameReadings(ops, args, row, s, p);
  }

  lemma {:induction false} SameReadings(ops: Ops, ts: Terms, row: Row, s: Row, p: Row)
    requires forall c :: ReadsAny(ts, c) ==> Get(s, c) == Get(p, c)
    ensures EvalAll(ops, ts, row, s) == EvalAll(ops, ts, row, p)
  {
    if ts.Cons? {
      forall c | Reads(ts.first, c) ensures Get(s, c) == Get(p, c) { assert ReadsAny(ts, c); }
      forall c | ReadsAny(ts.rest, c) ensures Get(s, c) == Get(p, c) { assert ReadsAny(ts, c); }
      SameReading(ops, ts.first, row, s, p);
      SameReadings(ops, ts.rest, row, s, p);
    }
  }

  lemma {:induction false} SameAssign(
      ops: Ops, updates: seq<Assignment>, inserts: seq<Assignment>, was: Row, source: Row)
    requires forall i, c :: 0 <= i < |updates| && Reads(updates[i].term, c) ==> Copies(inserts, c)
    ensures Assign(ops, updates, was, source) == Assign(ops, updates, was, Proposed(ops, inserts, source))
    decreases |updates|
  {
    if updates != [] {
      var n := |updates| - 1;
      var (p, t) := (Proposed(ops, inserts, source), updates[n].term);
      forall c | Reads(t, c) ensures Get(source, c) == Get(p, c) {
        assert Reads(updates[n].term, c) && Copies(inserts, c);
        CopiedValue(ops, inserts, c, c, source);
      }
      SameReading(ops, t, was, source, p);
      SameAssign(ops, updates[..n], inserts, was, source);
    }
  }

  lemma {:induction false} KeyKept(ops: Ops, updates: seq<Assignment>, key: string, was: Row, source: Row)
    requires forall i :: 0 <= i < |updates| ==> updates[i].col != key
    ensures Get(Assign(ops, updates, was, source), key) == Get(was, key)
    decreases |updates|
  {
    if updates != [] { KeyKept(ops, updates[..|updates| - 1], key, was, source); }
  }

  lemma MatchIsEqualKey(ops: Ops, m: Statement, key: string, from: string, target: Row, source: Row)
    requires OnKeys(m, key, from)
    ensures Matches(ops, m, target, source) <==> Equal(Get(target, key), Get(source, from))
  {
  }

  /** The updated rows keep their keys. */
  lemma UpdatedKey(ops: Ops, m: Statement, key: string, from: string, target: Row, sources: seq<Row>)
    requires Simple(m, key, from)
    ensures Get(Updated(ops, m, target, sources), key) == Get(target, key)
  {
    var i := FirstMatch(ops, m, target, sources);
    if i < |sources| { KeyKept(ops, m.updates, key, target, sources[i]); }
  }

  /** Every inserted row has the key of a source row that matched nothing. */
  lemma {:induction false} InsertedKey(
      ops: Ops, m: Statement, key: string, from: string, targets: seq<Row>, sources: seq<Row>, j: nat)
      returns (i: nat)
    requires Simple(m, key, from) && j < |Inserted(ops, m, targets, sources)|
    ensures i < |sources| && Get(Inserted(ops, m, targets, sources)[j], key) == Get(sources[i], from)
    decreases |sources|
  {
    var n := |sources| - 1;
    var rest := Inserted(ops, m, targets, sources[..n]);
    if j < |rest| {
      i := InsertedKey(ops, m, key, from, targets, sources[..n], j);
    } else {
      i := n;
      CopiedValue(ops, m.inserts, key, from, sources[n]);
    }
  }

  /** One more source row changes a target row's fate only if it matches it. */
  lemma {:induction false} OneMoreSource(ops: Ops, m: Statement, target: Row, sources: seq<Row>)
    requires sources != []
    ensures var (n, i) := (|sources| - 1, FirstMatch(ops, m, target, sources[..|sources| - 1]));
      FirstMatch(ops, m, target, sources) ==
        if i < n then i else if Matches(ops, m, target, sources[n]) then n else n + 1
    decreases |sources|
  {
    if |sources| > 1 && !Matches(ops, m, target, sources[0]) {
      var n := |sources| - 1;
      OneMoreSource(ops, m, target, sources[1..]);
      assert sources[1..][..n - 1] == sources[..n][1..];
      assert sources[1..][n - 1] == sources[n] && sources[..n][0] == sources[0];
    }
  }

  // ---- The equivalence ----

  /** The upsert, one source row at a time, keeps to the MERGE of the rows so far. */
  lemma {:induction false} UpsertIsMerge(
      ops: Ops, m: Statement, key: string, from: string, targets: seq<Row>, sources: seq<Row>)
    requires Simple(m, key, from) && UniqueKey(targets, key) && UniqueKey(sources, from)
    ensures RewriteMerge(m).Some?
    ensures Upsert(ops, RewriteMerge(m).value, targets, sources) == MergeResult(ops, m, targets, sources)
    decreases |sources|
  {
    if sources == [] {
      assert MergeResult(ops, m, targets, []) == targets;
    } else {
      var n := |sources| - 1;
      UpsertIsMerge(ops, m, key, from, targets, sources[..n]);
      OneMore(ops, m, key, from, targets, sources, RewriteMerge(m).value);
    }
  }

  lemma OneMore(ops: Ops, m: Statement, key: string, from: string, targets: seq<Row>, sources: seq<Row>, r: Replacement)
    requires r == Replacement(key, m.updates, m.inserts)
    requires Simple(m, key, from) && UniqueKey(targets, key) && UniqueKey(sources, from) && sources != []
    requires var n := |sources| - 1;
      Upsert(ops, r, targets, sources[..n]) == MergeResult(ops, m, targets, sources[..n])
    ensures Upsert(ops, r, targets, sources) == MergeResult(ops, m, targets, sources)
  {
    var n := |sources| - 1;
    var (s, before) := (sources[n], MergeResult(ops, m, targets, sources[..n]));
    var p := Proposed(ops, m.inserts, s);
    CopiedValue(ops, m.inserts, key, from, s);
    var i := Conflict(before, key, p);
    assert Upsert(ops, r, targets, sources) ==
      if i < |before| then before[i := Assign(ops, m.updates, before[i], p)] else before + [p];
    forall k | 0 <= k < |targets|
      ensures Equal(Get(before[k], key), Get(p, key)) <==> Matches(ops, m, targets[k], s)
    {
      UpdatedKey(ops, m, key, from, targets[k], sources[..n]);
      MatchIsEqualKey(ops, m, key, from, targets[k], s);
    }
    NoConflictWithInserted(ops, m, key, from, targets, sources, p);
    if IsMatched(ops, m, targets, s) {
      var k :| 0 <= k < |targets| && Matches(ops, m, targets[k], s);
      assert i < |targets|;
      UpdateOne(ops, m, key, from, targets, sources, i);
    } else {
      assert i == |before|;
      InsertOne(ops, m, key, from, targets, sources);
    }
  }

  /** No row inserted so far has the key of the next source row. */
  lemma NoConflictWithInserted(
      ops: Ops, m: Statement, key: string, from: string, targets: seq<Row>, sources: seq<Row>, p: Row)
    requires Simple(m, key, from) && UniqueKey(sources, from) && sources != []
    requires Get(p, key) == Get(sources[|sources| - 1], from)
    ensures var before := MergeResult(ops, m, targets, sources[..|sources| - 1]);
      forall k :: |targets| <= k < |before| ==> !Equal(Get(before[k], key), Get(p, key))
  {
    var n := |sources| - 1;
    var before := MergeResult(ops, m, targets, sources[..n]);
    forall k | |targets| <= k < |before| ensures !Equal(Get(before[k], key), Get(p, key)) {
      var j := InsertedKey(ops, m, key, from, targets, sources[..n], k - |targets|);
      assert !Equal(Get(sources[j], from), Get(sources[n], from));
    }
  }

  /** The matched row had not been updated before, and is the only one to change. */
  lemma UpdateOne(ops: Ops, m: Statement, key: string, from: string, targets: seq<Row>, sources: seq<Row>, i: nat)
    requires Simple(m, key, from) && UniqueKey(targets, key) && UniqueKey(sources, from) && sources != []
    requires i < |targets| && Matches(ops, m, targets[i], sources[|sources| - 1])
    ensures var (n, before) := (|sources| - 1, MergeResult(ops, m, targets, sources[..|sources| - 1]));
      MergeResult(ops, m, targets, sources) ==
      before[i := Assign(ops, m.updates, before[i], Proposed(ops, m.inserts, sources[n]))]
  {
    var n := |sources| - 1;
    var (s, before) := (sources[n], MergeResult(ops, m, targets, sources[..n]));
    assert IsMatched(ops, m, targets, s);
    forall k | 0 <= k < |targets|
      ensures Updated(ops, m, targets[k], sources) ==
        if k == i then Assign(ops, m.updates, targets[i], s) else before[k]
      ensures k == i ==> before[k] == targets[k]
    {
      OneMoreSource(ops, m, targets[k], sources);
      MatchIsEqualKey(ops, m, key, from, targets[k], s);
      MatchIsEqualKey(ops, m, key, from, targets[i], s);
      if k != i {
        if k < i { assert !Equal(Get(targets[k], key), Get(targets[i], key)); }
        else { assert !Equal(Get(targets[i], key), Get(targets[k], key)); }
      } else {
        OnlyMatch(ops, m, key, from, targets[i], sources);
      }
    }
    SameAssign(ops, m.updates, m.inserts, targets[i], s);
    assert MergeResult(ops, m, targets, sources) == before[i := Assign(ops, m.updates, targets[i], s)];
  }

  /** A target row that the last source row matches is matched by no other. */
  lemma OnlyMatch(ops: Ops, m: Statement, key: string, from: string, target: Row, sources: seq<Row>)
    requires OnKeys(m, key, from) && UniqueKey(sources, from) && sources != []
    requires Matches(ops, m, target, sources[|sources| - 1])
    ensures FirstMatch(ops, m, target, sources[..|sources| - 1]) == |sources| - 1
  {
    var n := |sources| - 1;
    var j := FirstMatch(ops, m, target, sources[..n]);
    MatchIsEqualKey(ops, m, key, from, target, sources[n]);
    assert forall i :: 0 <= i < n ==> !Equal(Get(sources[i], from), Get(sources[n], from));
    if j < n { MatchIsEqualKey(ops, m, key, from, target, sources[j]); }
  }

  lemma InsertOne(ops: Ops, m: Statement, key: string, from: string, targets: seq<Row>, sources: seq<Row>)
    requires sources != [] && !IsMatched(ops, m, targets, sources[|sources| - 1])
    ensures var n := |sources| - 1;
      MergeResult(ops, m, targets, sources) ==
      MergeResult(ops, m, targets, sources[..n]) + [Proposed(ops, m.inserts, sources[n])]
  {
    var n := |sources| - 1;
    forall k | 0 <= k < |targets|
      ensures Updated(ops, m, targets[k], sources) == Updated(ops, m, targets[k], sources[..n])
    {
      OneMoreSource(ops, m, targets[k], sources);
    }
  }

  // ---- And only then ----

  predicate IsPlain(t: Term) {
    t.Of? || t.Const?
  }

  /** Columns and constants only, every column assigned once, and the key not. */
  predicate PlainStatement(m: Statement, key: string, from: string) {
    && OnKeys(m, key, from)
    && (forall i :: 0 <= i < |m.updates| ==> m.updates[i].col != key && IsPlain(m.updates[i].term))
    && (forall i, j :: 0 <= i < j < |m.updates| ==> m.updates[i].col != m.updates[j].col)
    && (forall i :: 0 <= i < |m.inserts| ==> IsPlain(m.inserts[i].term))
  }

  ghost predicate CopiesAll(m: Statement, key: string, from: string) {
    CopiesFrom(m.inserts, key, from) &&
    forall i, c :: 0 <= i < |m.updates| && Reads(m.updates[i].term, c) ==> Copies(m.inserts, c)
  }

  /** The two statements do the same to all tables with unique keys. */
  ghost predicate Agree(ops: Ops, m: Statement, key: string, from: string) {
    RewriteMerge(m).Some? &&
    forall targets, sources :: UniqueKey(targets, key) && UniqueKey(sources, from) ==>
      Upsert(ops, RewriteMerge(m).value, targets, sources) == MergeResult(ops, m, targets, sources)
  }

  /** A number above all constants of a list. */
  function Above(list: seq<Assignment>): (n: nat)
    ensures forall i, k :: 0 <= i < |list| && list[i].term == Const(V(k)) ==> k < n
  {
    if list == [] then 0
    else
      var (n, t) := (Above(list[1..]), list[0].term);
      assert forall i :: 1 <= i < |list| ==> list[i] == list[1..][i - 1];
      if t.Const? && t.v.V? && t.v.n >= n then t.v.n + 1 else n
  }

  /** A column that is not copied does not get the value that only its source has. */
  lemma {:induction false} NotCopiedValue(
      ops: Ops, inserts: seq<Assignment>, col: string, from: string, source: Row, x: int)
    requires !CopiesFrom(inserts, col, from) && forall i :: 0 <= i < |inserts| ==> IsPlain(inserts[i].term)
    requires x >= Above(inserts) && forall d :: d != from ==> Get(source, d) != V(x)
    ensures Get(Proposed(ops, inserts, source), col) != V(x)
    decreases |inserts|
  {
    if inserts != [] {
      var n := |inserts| - 1;
      var (init, last) := (inserts[..n], inserts[n]);
      if last.col == col {
        assert last == inserts[n];
        assert last.term == Of(Source, from) ==> CopiesFrom(inserts, col, from);
      } else {
        NotCopiedBefore(inserts, col, from);
        AboveBefore(inserts);
        NotCopiedValue(ops, init, col, from, source, x);
      }
    }
  }

  lemma NotCopiedBefore(inserts: seq<Assignment>, col: string, from: string)
    requires inserts != [] && !CopiesFrom(inserts, col, from) && inserts[|inserts| - 1].col != col
    ensures !CopiesFrom(inserts[..|inserts| - 1], col, from)
  {
    var init := inserts[..|inserts| - 1];
    if CopiesFrom(init, col, from) {
      var i :| 0 <= i < |init| && init[i] == Assignment(col, Of(Source, from)) &&
        forall j :: i < j < |init| ==> init[j].col != col;
      assert inserts[i] == init[i];
      assert forall j :: i < j < |init| ==> inserts[j] == init[j];
    }
  }

  lemma {:induction false} AboveBefore(list: seq<Assignment>)
    requires list != []
    ensures Above(list[..|list| - 1]) <= Above(list)
    decreases |list|
  {
    if |list| > 1 {
      assert list[..|list| - 1][1..] == list[1..][..|list| - 2];
      AboveBefore(list[1..]);
    }
  }

  /** An assigned column has its own term's value. */
  lemma {:induction false} AssignedValue(ops: Ops, updates: seq<Assignment>, i: nat, was: Row, source: Row)
    requires i < |updates| && forall j, k :: 0 <= j < k < |updates| ==> updates[j].col != updates[k].col
    ensures Get(Assign(ops, updates, was, source), updates[i].col) == Eval(ops, updates[i].term, was, source)
    decreases |updates|
  {
    var n := |updates| - 1;
    if i < n {
      assert updates[..n][i] == updates[i];
      AssignedValue(ops, updates[..n], i, was, source);
    }
  }

  lemma KeyMustBeCopied(ops: Ops, m: Statement, key: string, from: string)
    requires PlainStatement(m, key, from) && m.left.col == key && !CopiesFrom(m.inserts, key, from)
    ensures !Agree(ops, m, key, from)
  {
    var x := Above(m.inserts);
    var target: Row := map[key := V(x)];
    var source: Row := map[from := V(x)];
    NotCopiedValue(ops, m.inserts, key, from, source, x);
    OneEach(ops, m, key, from, target, source);
  }

  /** A matched source row that conflicts with nothing is inserted all the same. */
  lemma OneEach(ops: Ops, m: Statement, key: string, from: string, target: Row, source: Row)
    requires OnKeys(m, key, from) && Equal(Get(target, key), Get(source, from))
    requires !Equal(Get(target, m.left.col), Get(Proposed(ops, m.inserts, source), m.left.col))
    ensures !Agree(ops, m, key, from)
  {
    var (targets, sources) := ([target], [source]);
    var p := Proposed(ops, m.inserts, source);
    assert sources[..0] == [] && UniqueKey(targets, key) && UniqueKey(sources, from);
    assert Upsert(ops, RewriteMerge(m).value, targets, []) == targets;
    assert Conflict(targets, m.left.col, p) == 1;
    assert |Upsert(ops, RewriteMerge(m).value, targets, sources)| == 2;
    assert IsMatched(ops, m, targets, source) by { assert Matches(ops, m, targets[0], source); }
    assert Inserted(ops, m, targets, sources) == Inserted(ops, m, targets, []) == [];
    assert |MergeResult(ops, m, targets, sources)| == 1;
  }

  /** With the source's column on the left, under another name than the target's, the
      conflict is looked for in a column that is not the key. */
  lemma LeftMustBeKey(ops: Ops, m: Statement, key: string, from: string)
    requires PlainStatement(m, key, from) && m.left.col != key
    ensures !Agree(ops, m, key, from)
  {
    OneEach(ops, m, key, from, map[key := V(0)], map[from := V(0)]);
  }

  /** MERGE ... ON s.b = t.a WHEN MATCHED THEN UPDATE SET v = s.v WHEN NOT MATCHED THEN
      INSERT (a, v) VALUES (s.b, s.v), on a row with a = 1 and one with b = 1: the MERGE
      updates the row, the upsert adds another. */
  lemma SourceKeyOnTheLeft(ops: Ops)
    ensures var m := Statement(
        Of(Source, "b"), Of(Target, "a"), [Assignment("v", Of(Source, "v"))],
        [Assignment("a", Of(Source, "b")), Assignment("v", Of(Source, "v"))]);
      var (target, source) := (map["a" := V(1)], map["b" := V(1)]);
      && RewriteMerge(m).Some? && RewriteMerge(m).value.key == "b"
      && |MergeResult(ops, m, [target], [source])| == 1
      && |Upsert(ops, RewriteMerge(m).value, [target], [source])| == 2
  {
    var m := Statement(
      Of(Source, "b"), Of(Target, "a"), [Assignment("v", Of(Source, "v"))],
      [Assignment("a", Of(Source, "b")), Assignment("v", Of(Source, "v"))]);
    SourceKeyExample(ops, m, "a", "b", map["a" := V(1)], map["b" := V(1)]);
  }

  lemma SourceKeyExample(ops: Ops, m: Statement, key: string, from: string, target: Row, source: Row)
    requires key != from && m.left == Of(Source, from) && m.right == Of(Target, key)
    requires target == map[key := V(1)] && source == map[from := V(1)]
    ensures RewriteMerge(m).Some? && RewriteMerge(m).value.key == from
    ensures |MergeResult(ops, m, [target], [source])| == 1
    ensures |Upsert(ops, RewriteMerge(m).value, [target], [source])| == 2
  {
    var (targets, sources) := ([target], [source]);
    assert sources[..0] == [];
    assert Upsert(ops, RewriteMerge(m).value, targets, []) == targets;
    assert Conflict(targets, from, Proposed(ops, m.inserts, source)) == 1;
    assert IsMatched(ops, m, targets, source) by { assert Matches(ops, m, targets[0], source); }
    assert Inserted(ops, m, targets, sources) == Inserted(ops, m, targets, []) == [];
  }

  lemma ReadsMustBeCopied(ops: Ops, m: Statement, key: string, from: string, u: nat, c: string)
    requires PlainStatement(m, key, from) && m.left.col == key && CopiesFrom(m.inserts, key, from)
    requires u < |m.updates| && Reads(m.updates[u].term, c) && !Copies(m.inserts, c)
    ensures !Agree(ops, m, key, from)
  {
    var x := Above(m.inserts);
    var k := if c == from then x else x + 1;
    var target: Row := map[key := V(k)];
    var source: Row := map[from := V(k), c := V(x)];
    var (targets, sources) := ([target], [source]);
    var p := Proposed(ops, m.inserts, source);
    NotCopiedValue(ops, m.inserts, c, c, source, x);
    CopiedValue(ops, m.inserts, key, from, source);
    assert sources[..0] == [] && UniqueKey(targets, key) && UniqueKey(sources, from);
    assert Upsert(ops, RewriteMerge(m).value, targets, []) == targets;
    assert Conflict(targets, key, p) == 0;
    assert Upsert(ops, RewriteMerge(m).value, targets, sources) == targets[0 := Assign(ops, m.updates, target, p)];
    assert Matches(ops, m, targets[0], source);
    assert FirstMatch(ops, m, target, sources) == 0;
    assert MergeResult(ops, m, targets, sources)[0] == Assign(ops, m.updates, target, source);
    AssignedValue(ops, m.updates, u, target, p);
    AssignedValue(ops, m.updates, u, target, source);
  }

  /** For a statement of plain columns, the replacement does the same to all tables
      with unique keys exactly if the left column of ON names the target's key, and
      INSERT sets it from the source's and copies what SET reads. */
  lemma AgreeIffCopied(ops: Ops, m: Statement, key: string, from: string)
    requires PlainStatement(m, key, from)
    ensures Agree(ops, m, key, from) <==> m.left.col == key && CopiesAll(m, key, from)
  {
    if m.left.col != key {
      LeftMustBeKey(ops, m, key, from);
    } else if CopiesAll(m, key, from) {
      forall targets, sources | UniqueKey(targets, key) && UniqueKey(sources, from)
        ensures Upsert(ops, RewriteMerge(m).value, targets, sources) == MergeResult(ops, m, targets, sources)
      {
        UpsertIsMerge(ops, m, key, from, targets, sources);
      }
    } else if !CopiesFrom(m.inserts, key, from) {
      KeyMustBeCopied(ops, m, key, from);
    } else {
      var u, c :| 0 <= u < |m.updates| && Reads(m.updates[u].term, c) && !Copies(m.inserts, c);
      ReadsMustBeCopied(ops, m, key, from, u, c);
    }
  }
}

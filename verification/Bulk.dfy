/** Bulk binds of internal/binding/bulk.go: pivoting arrays into rows, finding
    the single VALUES tuple, and expanding a statement once per row. */
module Bulk {
  import opened Text
  import opened Scanner
  import opened Literals
  import opened Substitution

  type Bindings = map<string, Binding>

  predicate IsArray(j: Json) {
    j.Array? || j.BrokenArray?
  }

  predicate IsBulk(bindings: Bindings) {
    exists k :: k in bindings && IsArray(bindings[k].value)
  }

  // ---- One scalar binding map per row ----

  /** Every array parses and they all have n elements. */
  predicate Rectangular(bindings: Bindings, n: nat) {
    forall k :: k in bindings && IsArray(bindings[k].value) ==>
      bindings[k].value.Array? && |bindings[k].value.elems| == n
  }

  function Cell(b: Binding, r: nat): Binding
    requires b.value.Array? ==> r < |b.value.elems|
  {
    if b.value.Array? then Binding(b.typ, b.value.elems[r]) else b
  }

  function Row(bindings: Bindings, n: nat, r: nat): Bindings
    requires Rectangular(bindings, n) && r < n
  {
    map k | k in bindings :: Cell(bindings[k], r)
  }

  predicate SameKeys(bindings: Bindings, rows: seq<Bindings>) {
    forall i :: 0 <= i < |rows| ==> rows[i].Keys == bindings.Keys
  }

  /** What the rows hold under one key, from the first to the last. */
  function Column(bindings: Bindings, rows: seq<Bindings>, k: string): (column: seq<Binding>)
    requires SameKeys(bindings, rows) && k in bindings
    ensures |column| == |rows|
  {
    seq(|rows|, i requires 0 <= i < |rows| => rows[i][k])
  }

  /** An array gives its elements in order, each with the array's type; a scalar is
      the same in every row. */
  predicate ReadsDown(b: Binding, column: seq<Binding>) {
    match b.value
    case Array(elems) => column == seq(|elems|, i requires 0 <= i < |elems| => Binding(b.typ, elems[i]))
    case BrokenArray => false
    case _ => forall i :: 0 <= i < |column| ==> column[i] == b
  }

  /** The bindings, read down the rows. */
  predicate Pivots(bindings: Bindings, rows: seq<Bindings>) {
    SameKeys(bindings, rows) && forall k :: k in bindings ==> ReadsDown(bindings[k], Column(bindings, rows, k))
  }

  /** Only one list of rows reads back as the bindings. */
  lemma PivotsOnce(bindings: Bindings, rows: seq<Bindings>, rows': seq<Bindings>)
    requires exists k :: k in bindings && bindings[k].value.Array?
    requires Pivots(bindings, rows) && Pivots(bindings, rows')
    ensures rows == rows'
  {
    var k :| k in bindings && bindings[k].value.Array?;
    assert Column(bindings, rows, k) == Column(bindings, rows', k);
    forall i | 0 <= i < |rows| ensures rows[i] == rows'[i] {
      forall j | j in bindings ensures rows[i][j] == rows'[i][j] {
        SameDown(bindings[j], Column(bindings, rows, j), Column(bindings, rows', j), i);
      }
    }
  }

  lemma SameDown(b: Binding, column: seq<Binding>, column': seq<Binding>, i: nat)
    requires ReadsDown(b, column) && ReadsDown(b, column') && i < |column| == |column'|
    ensures column[i] == column'[i]
  {
  }

  lemma RowsPivot(bindings: Bindings, rows: seq<Bindings>)
    requires Rectangular(bindings, |rows|) && forall i :: 0 <= i < |rows| ==> rows[i] == Row(bindings, |rows|, i)
    ensures Pivots(bindings, rows)
  {
  }

  /** splitRows; the order in which keys are visited decides only which of
      several errors is reported. */
  method SplitRows(bindings: Bindings) returns (r: Result<seq<Bindings>>)
    requires IsBulk(bindings)
    ensures r.Ok? <==> exists n: nat :: n > 0 && Rectangular(bindings, n)
    ensures r.Ok? ==>
              var rows := r.value;
              && rows != [] && Rectangular(bindings, |rows|) && Pivots(bindings, rows)
              && forall i :: 0 <= i < |rows| ==> rows[i] == Row(bindings, |rows|, i)
  {
    var n: int := -1;
    var keys := bindings.Keys;
    ghost var someKey: string :| someKey in bindings && IsArray(bindings[someKey].value);
    while keys != {}
      invariant keys <= bindings.Keys
      invariant n == -1 ==> someKey in keys
      invariant n >= -1
      invariant forall k :: k in bindings.Keys - keys && IsArray(bindings[k].value) ==>
                  bindings[k].value.Array? && |bindings[k].value.elems| == n
      invariant n >= 0 ==> exists k :: k in bindings && bindings[k].value.Array? && |bindings[k].value.elems| == n
      decreases keys
    {
      var k :| k in keys;
      keys := keys - {k};
      var v := bindings[k].value;
      if !IsArray(v) { continue; }
      if v.BrokenArray? { return Err("invalid bind array"); }
      if n >= 0 && |v.elems| != n { return Err("bind arrays must all have the same length"); }
      n := |v.elems|;
    }
    if n == 0 { return Err("bind arrays must not be empty"); }
    assert Rectangular(bindings, n);
    var rows: seq<Bindings> := [];
    while |rows| < n
      invariant |rows| <= n
      invariant forall i :: 0 <= i < |rows| ==> rows[i] == Row(bindings, n, i)
    {
      rows := rows + [Row(bindings, n, |rows|)];
    }
    RowsPivot(bindings, rows);
    return Ok(rows);
  }

  // ---- INSERT ... VALUES (tuple) ----

  function StripSemicolon(s: string): string {
    if s != "" && s[|s| - 1] == ';' then s[..|s| - 1] else s
  }

  function Core(sql: string): string {
    Trim(StripSemicolon(Trim(sql)))
  }

  /** The word VALUES stands at position i. */
  predicate KeywordAt(s: string, i: nat)
    requires i < |s|
  {
    && !Before(s, i)
    && i + 6 <= |s|
    && ToUpperChar(s[i]) == 'V' && ToUpperChar(s[i + 1]) == 'A' && ToUpperChar(s[i + 2]) == 'L'
    && ToUpperChar(s[i + 3]) == 'U' && ToUpperChar(s[i + 4]) == 'E' && ToUpperChar(s[i + 5]) == 'S'
    && (i + 6 == |s| || !IsIdentChar(s[i + 6]))
  }

  /** The skipping scan without placeholders: special sections stay whole,
      everything else is taken character by character. */
  function Coarse(segs: seq<Segment>): seq<Segment> {
    if segs == [] then []
    else (if segs[0].Special? then [segs[0]] else Plains(SegText(segs[0]))) + Coarse(segs[1..])
  }

  function DepthAfter(depth: int, g: Segment): int {
    if g == Plain('(') then depth + 1 else if g == Plain(')') then depth - 1 else depth
  }

  /** Position of the first VALUES outside parentheses and special sections,
      where c is the scan of s from position i on. */
  function FindValues(s: string, c: seq<Segment>, i: nat, depth: int): (at: Option<nat>)
    requires i + |Spell(c)| == |s|
    ensures at.Some? ==> i <= at.value < |s| && KeywordAt(s, at.value)
    decreases |c|
  {
    if c == [] then None
    else if depth == 0 && c[0].Plain? && KeywordAt(s, i) then Some(i)
    else FindValues(s, c[1..], i + |SegText(c[0])|, DepthAfter(depth, c[0]))
  }

  /** From the given depth on, the parentheses close at the last character and
      not before. */
  predicate Balanced(c: seq<Segment>, depth: int)
    decreases |c|
  {
    if c == [] then depth == 0
    else (c[0] == Plain(')') && depth == 1 ==> |c| == 1) && Balanced(c[1..], DepthAfter(depth, c[0]))
  }

  function Scan(s: string): (c: seq<Segment>)
    ensures Spell(c) == s
  {
    LexReads(false, s);
    CoarseSpell(Lex(false, s));
    Coarse(Lex(false, s))
  }

  lemma {:induction false} CoarseSpell(segs: seq<Segment>)
    ensures Spell(Coarse(segs)) == Spell(segs)
  {
    if segs != [] {
      var head := if segs[0].Special? then [segs[0]] else Plains(SegText(segs[0]));
      PlainsSpell(SegText(segs[0]));
      assert Spell([segs[0]]) == SegText(segs[0]) + Spell([]);
      SpellAppend(head, Coarse(segs[1..]));
      CoarseSpell(segs[1..]);
    }
  }

  function Split(sql: string): Option<(string, string)> {
    SplitCore(Core(sql))
  }

  function SplitCore(s: string): Option<(string, string)> {
    if |s| < 6 || ToUpper(s[..6]) != "INSERT" then None
    else
      match FindValues(s, Scan(s), 0, 0)
      case None => None
      case Some(at) => CutAt(Trim(s[..at]), Trim(s[at + 6..]))
  }

  /** The two parts, if the second is one balanced tuple and the first has no placeholder. */
  function CutAt(prefix: string, tuple: string): Option<(string, string)> {
    if tuple == "" || tuple[0] != '(' || HasHole(Lex(false, prefix)) || !Balanced(Scan(tuple), 0)
    then None else Some((prefix, tuple))
  }

  /** c is how the skipping scan walks through Spell(c). */
  ghost predicate Walks(c: seq<Segment>) {
    c == [] || (WalksHead(c[0], Spell(c)) && Walks(c[1..]))
  }

  /** The scan takes g off the front of s. */
  predicate WalksHead(g: Segment, s: string) {
    && s != "" && (g.Special? || g.Plain?)
    && SpecialLen(s) == (if g.Special? then |g.text| else 0)
    && (g.Special? ==> g.text != "")
    && (g.Plain? ==> s[0] == g.c)
  }

  lemma {:induction false} PlainsWalk(t: string, more: seq<Segment>)
    requires Walks(more) && forall i :: 0 <= i < |t| ==> SpecialLen(t[i..] + Spell(more)) == 0
    ensures Walks(Plains(t) + more)
  {
    if t == "" {
      assert Plains(t) + more == more;
    } else {
      forall i | 0 <= i < |t[1..]| ensures SpecialLen(t[1..][i..] + Spell(more)) == 0 {
        assert t[1..][i..] == t[i + 1..];
      }
      PlainsWalk(t[1..], more);
      PlainsSpell(t);
      SpellAppend(Plains(t), more);
      assert t[0..] == t;
      WalkCons(Plains(t), more);
    }
  }

  lemma WalkCons(a: seq<Segment>, more: seq<Segment>)
    requires a != [] && WalksHead(a[0], Spell(a + more)) && Walks(a[1..] + more)
    ensures Walks(a + more)
  {
    assert (a + more)[1..] == a[1..] + more;
  }

  lemma {:induction false} CoarseWalks(pi: bool, segs: seq<Segment>)
    requires Reads(pi, segs, "") && Wellformed(segs)
    ensures Walks(Coarse(segs))
    decreases |segs|
  {
    if segs != [] {
      CoarseSpell(segs[1..]);
      assert Spell(segs[1..]) + "" == Spell(segs[1..]);
      CoarseWalks(EndsIdent(segs[0]), segs[1..]);
      HeadWalks(pi, segs[0], Coarse(segs[1..]));
    }
  }

  lemma HeadWalks(pi: bool, g: Segment, more: seq<Segment>)
    requires Fits(pi, g, Spell(more)) && Walks(more)
    requires g.Numbered? ==> DigitRun(g.digits) == |g.digits|
    ensures Walks((if g.Special? then [g] else Plains(SegText(g))) + more)
  {
    if g.Special? {
      assert [g][1..] + more == more;
      assert ([g] + more)[1..] == more;
      WalkCons([g], more);
    } else {
      PlainHead(pi, g, Spell(more));
      PlainsWalk(SegText(g), more);
    }
  }

  /** No character of a segment other than a special one opens a special section. */
  lemma PlainHead(pi: bool, g: Segment, rest: string)
    requires Fits(pi, g, rest) && !g.Special?
    requires g.Numbered? ==> DigitRun(g.digits) == |g.digits|
    ensures forall i :: 0 <= i < |SegText(g)| ==> SpecialLen(SegText(g)[i..] + rest) == 0
  {
    var t := SegText(g);
    assert t[0..] == t;
    forall i | 0 < i < |t| ensures SpecialLen(t[i..] + rest) == 0 {
      assert (t[i..] + rest)[0] == t[i];
      assert g.Numbered? ==> t[i] == g.digits[i - 1];
    }
  }

  /** Where element k of the scan starts. */
  ghost function Offset(c: seq<Segment>, k: nat): nat
    requires k <= |c|
  {
    if k == 0 then 0 else Offset(c, k - 1) + |SegText(c[k - 1])|
  }

  /** The scan of s takes c[k] at position i. */
  predicate WalksAt(s: string, c: seq<Segment>, k: nat, i: nat) {
    && k < |c| && i < |s| && WalksHead(c[k], s[i..]) && i + |SegText(c[k])| <= |s|
    && (k + 1 == |c| <==> i + |SegText(c[k])| == |s|)
  }

  lemma {:induction false} WalkOffset(s: string, c: seq<Segment>, k: nat)
    requires Walks(c) && Spell(c) == s && k <= |c|
    ensures Offset(c, k) <= |s| && s[Offset(c, k)..] == Spell(c[k..]) && Walks(c[k..])
  {
    if k == 0 {
      assert s[0..] == s && c[0..] == c;
    } else {
      var last := k - 1;
      WalkOffset(s, c, last);
      OffsetNext(s, c, last, k, Offset(c, last), Offset(c, k));
    }
  }

  lemma OffsetNext(s: string, c: seq<Segment>, last: nat, k: nat, i: nat, next: nat)
    requires k == last + 1 && k <= |c| && i <= |s| && next == i + |SegText(c[last])|
    requires s[i..] == Spell(c[last..]) && Walks(c[last..])
    ensures next <= |s| && s[next..] == Spell(c[k..]) && Walks(c[k..])
  {
    assert c[last..][1..] == c[k..];
    SliceStep(s, i, SegText(c[last]), Spell(c[k..]), next);
  }

  lemma SliceStep(s: string, i: nat, t: string, rest: string, next: nat)
    requires i <= |s| && s[i..] == t + rest && next == i + |t|
    ensures next <= |s| && s[next..] == rest
  {
    assert s[next..] == s[i..][|t|..];
  }

  /** The scan of s, position by position. */
  lemma Walk(s: string) returns (c: seq<Segment>)
    ensures c == Scan(s) && (s == "" <==> c == [])
    ensures forall k :: 0 <= k < |c| ==> WalksAt(s, c, k, Offset(c, k))
  {
    c := Scan(s);
    var segs := Reading(s);
    CoarseWalks(false, segs);
    forall k | 0 <= k < |c| ensures WalksAt(s, c, k, Offset(c, k)) {
      WalkOffset(s, c, k);
      WalkOffset(s, c, k + 1);
      if k + 1 < |c| { assert Spell(c[k + 1..]) != "" by { assert WalksHead(c[k + 1], Spell(c[k + 1..])); } }
    }
  }

  lemma KeywordIsNoParen(s: string, i: nat)
    requires i < |s|
    ensures KeywordAt(s, i) ==> s[i] == 'v' || s[i] == 'V'
  {
  }

  /** What FindValues does at a position where VALUES cannot stand. */
  lemma FindPass(s: string, c: seq<Segment>, k: nat, i: nat, depth: int, j: nat, depth': int)
    requires k < |c| && i + |Spell(c[k..])| == |s| && WalksAt(s, c, k, i)
    requires c[k].Special? || depth != 0 || s[i] == '(' || s[i] == ')' || !KeywordAt(s, i)
    requires j == i + |SegText(c[k])| && depth' == DepthAfter(depth, c[k])
    ensures j + |Spell(c[k + 1..])| == |s|
    ensures FindValues(s, c[k..], i, depth) == FindValues(s, c[k + 1..], j, depth')
  {
    var (g, rest, more) := (c[k], c[k + 1..], c[k..]);
    assert more[0] == g && more[1..] == rest;
    KeywordIsNoParen(s, i);
    SpellFirst(more);
    SearchOne(s, more, i, depth);
  }

  lemma SpellFirst(c: seq<Segment>)
    requires c != []
    ensures |Spell(c)| == |SegText(c[0])| + |Spell(c[1..])|
  {
  }

  lemma SearchOne(s: string, c: seq<Segment>, i: nat, depth: int)
    requires c != [] && i + |Spell(c)| == |s| && i < |s|
    requires c[0].Special? || depth != 0 || !KeywordAt(s, i)
    ensures FindValues(s, c, i, depth) == FindValues(s, c[1..], i + |SegText(c[0])|, DepthAfter(depth, c[0]))
  {
  }

  /** The loop's test for the keyword, on a plain character outside parentheses. */
  method TestKeyword(s: string, i: nat, ghost c: seq<Segment>, ghost k: nat) returns (found: bool)
    requires k < |c| && i + |Spell(c[k..])| == |s| && WalksAt(s, c, k, i)
    requires c[k].Plain? && s[i] != '(' && s[i] != ')'
    ensures i + 1 + |Spell(c[k + 1..])| == |s|
    ensures !found ==> FindValues(s, c[k..], i, 0) == FindValues(s, c[k + 1..], i + 1, 0)
    ensures found ==> FindValues(s, c[k..], i, 0) == Some(i)
  {
    assert c[k..][1..] == c[k + 1..];
    return KeywordAt(s, i);
  }

  /** The body of the search loop. */
  method ValuesStep(s: string, i: nat, depth: int, ghost c: seq<Segment>, ghost k: nat)
      returns (j: nat, depth': int, found: bool)
    requires k < |c| && i + |Spell(c[k..])| == |s| && WalksAt(s, c, k, i)
    ensures j == i + |SegText(c[k])| && j + |Spell(c[k + 1..])| == |s|
    ensures !found ==> FindValues(s, c[k..], i, depth) == FindValues(s, c[k + 1..], j, depth')
    ensures found ==> FindValues(s, c[k..], i, depth) == Some(i)
  {
    var special: bool;
    j, special := SkipSpecial(s, i);
    depth', found := depth, false;
    if special {
      FindPass(s, c, k, i, depth, j, depth);
      return;
    }
    j := i + 1;
    if s[i] == '(' || s[i] == ')' || depth != 0 {
      depth' := if s[i] == '(' then depth + 1 else if s[i] == ')' then depth - 1 else depth;
      FindPass(s, c, k, i, depth, i + 1, depth');
    } else {
      found := TestKeyword(s, i, c, k);
    }
  }

  method ScanForValues(s: string) returns (at: Option<nat>)
    ensures at == FindValues(s, Scan(s), 0, 0)
  {
    var i: nat, depth := 0, 0;
    ghost var c := Walk(s);
    ghost var k := 0;
    assert c[0..] == c;
    while i < |s|
      invariant k <= |c| && i == Offset(c, k) && i + |Spell(c[k..])| == |s|
      invariant k == |c| <==> i == |s|
      invariant FindValues(s, c[k..], i, depth) == FindValues(s, c, 0, 0)
      decreases |s| - i
    {
      assert WalksAt(s, c, k, i);
      var j, depth', found := ValuesStep(s, i, depth, c, k);
      if found { return Some(i); }
      i, depth, k := j, depth', k + 1;
    }
    return None;
  }

  /** What Balanced does with one element more. */
  lemma BalancedPass(c: seq<Segment>, k: nat, next: nat, depth: int, depth': int)
    requires k < |c| && next == k + 1 && depth' == DepthAfter(depth, c[k])
    ensures Balanced(c[k..], depth) ==
      ((c[k] == Plain(')') && depth == 1 ==> next == |c|) && Balanced(c[next..], depth'))
  {
    assert c[k..][1..] == c[next..];
  }

  /** The body of the balance loop; stop says that the parentheses closed too soon. */
  method TupleStep(t: string, i: nat, depth: int, ghost c: seq<Segment>, ghost k: nat, ghost next: nat)
      returns (j: nat, depth': int, stop: bool)
    requires k < |c| && WalksAt(t, c, k, i) && next == k + 1
    ensures j == i + |SegText(c[k])|
    ensures stop ==> !Balanced(c[k..], depth)
    ensures !stop ==> Balanced(c[k..], depth) == Balanced(c[next..], depth')
  {
    var special: bool;
    j, special := SkipSpecial(t, i);
    depth', stop := depth, false;
    if !special {
      j := i + 1;
      if t[i] == '(' {
        depth' := depth + 1;
      } else if t[i] == ')' {
        depth' := depth - 1;
        stop := depth' == 0 && i != |t| - 1;
      }
    }
    BalancedPass(c, k, next, depth, depth');
  }

  method ScanTuple(t: string) returns (balanced: bool)
    ensures balanced == Balanced(Scan(t), 0)
  {
    var i: nat, depth := 0, 0;
    ghost var c := Walk(t);
    ghost var k := 0;
    assert c[0..] == c;
    while i < |t|
      invariant k <= |c| && i == Offset(c, k) && (k == |c| <==> i == |t|) && i <= |t|
      invariant Balanced(c[k..], depth) == Balanced(c, 0)
      decreases |t| - i
    {
      assert WalksAt(t, c, k, i);
      ghost var next := k + 1;
      var stop: bool;
      i, depth, stop := TupleStep(t, i, depth, c, k, next);
      if stop { return false; }
      k := next;
    }
    return depth == 0;
  }

  method SplitInsertValues(sql: string) returns (r: Option<(string, string)>)
    ensures r == Split(sql)
  {
    var s := Core(sql);
    if |s| < 6 || ToUpper(s[..6]) != "INSERT" { return None; }
    var at := ScanForValues(s);
    if at.None? { return None; }
    var prefix, tuple := Trim(s[..at.value]), Trim(s[at.value + 6..]);
    if tuple == "" || tuple[0] != '(' { return None; }
    var placeholder := HasPlaceholder(prefix);
    if placeholder { return None; }
    var balanced := ScanTuple(tuple);
    return if balanced then Some((prefix, tuple)) else None;
  }

  // ---- Expand ----

  function JoinTexts(ts: seq<string>): string {
    if ts == [] then "" else if |ts| == 1 then ts[0] else JoinTexts(ts[..|ts| - 1]) + ", " + ts[|ts| - 1]
  }

  function Folded(prefix: string, ts: seq<string>): string {
    prefix + " VALUES " + JoinTexts(ts)
  }

  predicate AllOk(sql: string, rows: seq<Bindings>, lib: Library) {
    forall i :: 0 <= i < |rows| ==> Substituted(sql, rows[i], lib).Ok?
  }

  function Texts(sql: string, rows: seq<Bindings>, lib: Library): (ts: seq<string>)
    requires AllOk(sql, rows, lib)
    ensures |ts| == |rows| && forall i :: 0 <= i < |rows| ==> ts[i] == Substituted(sql, rows[i], lib).value
  {
    seq(|rows|, i requires 0 <= i < |rows| => Substituted(sql, rows[i], lib).value)
  }

  /** One folded INSERT for all rows when the statement ends in a single tuple, and
      otherwise one statement per row; an error if some row cannot be written. */
  predicate Expands(sql: string, rows: seq<Bindings>, lib: Library, r: Result<seq<string>>) {
    match Split(sql)
    case Some((prefix, tuple)) =>
      (r.Ok? <==> AllOk(tuple, rows, lib)) && (r.Ok? ==> r.value == [Folded(prefix, Texts(tuple, rows, lib))])
    case None =>
      (r.Ok? <==> AllOk(sql, rows, lib)) && (r.Ok? ==> r.value == Texts(sql, rows, lib))
  }

  /** Expand: scalar bindings give one statement, array bindings are expanded with the
      rows that read down as the arrays. It fails exactly when the arrays are not
      rectangular and non-empty or some row's substitution fails. */
  method Expand(sql: string, bindings: Bindings, lib: Library) returns (r: Result<seq<string>>)
    ensures !IsBulk(bindings) ==>
              (r.Ok? <==> Substituted(sql, bindings, lib).Ok?) &&
              (r.Ok? ==> r.value == [Substituted(sql, bindings, lib).value])
    ensures IsBulk(bindings) && (forall n: nat :: n > 0 ==> !Rectangular(bindings, n)) ==> r.Err?
    ensures IsBulk(bindings) ==> forall rows :: rows != [] && Pivots(bindings, rows) ==> Expands(sql, rows, lib, r)
  {
    if !IsBulk(bindings) {
      var out := Substitute(sql, bindings, lib);
      return if out.Ok? then Ok([out.value]) else Err(out.error);
    }
    var split := SplitRows(bindings);
    if split.Err? {
      NoRows(bindings);
      return Err(split.error);
    }
    OnlyTheseRows(bindings, split.value);
    r := ExpandRows(sql, split.value, lib);
  }

  method ExpandRows(sql: string, rows: seq<Bindings>, lib: Library) returns (r: Result<seq<string>>)
    ensures Expands(sql, rows, lib, r)
  {
    var parts := SplitInsertValues(sql);
    match parts
    case Some((prefix, tuple)) =>
      r := FoldRows(prefix, tuple, rows, lib);
    case None =>
      r := EachRow(sql, rows, lib);
  }

  /** Rows that read down as the bindings are as many as each array has elements. */
  lemma PivotsFit(bindings: Bindings, rows: seq<Bindings>)
    requires Pivots(bindings, rows)
    ensures Rectangular(bindings, |rows|)
  {
    forall k | k in bindings ensures ReadsDown(bindings[k], Column(bindings, rows, k)) { }
  }

  lemma NoRows(bindings: Bindings)
    requires forall n: nat :: n > 0 ==> !Rectangular(bindings, n)
    ensures forall rows :: rows != [] ==> !Pivots(bindings, rows)
  {
    forall rows: seq<Bindings> | Pivots(bindings, rows) ensures rows == [] {
      PivotsFit(bindings, rows);
    }
  }

  /** What segment i of a row's statement stands for: a placeholder of an array for the
      row's own element, one of a scalar for the scalar, anything else for itself. */
  function RowTextAt(segs: seq<Segment>, i: nat, bindings: Bindings, row: nat, lib: Library): Result<string>
    requires Wellformed(segs) && i < |segs|
  {
    if !IsHole(segs[i]) then Ok(SegText(segs[i]))
    else
      var key := Itoa(NumberAt(segs, i));
      if key !in bindings then Err("bind variable not set")
      else
        match bindings[key].value
        case Array(elems) =>
          if row < |elems| then Literal(Binding(bindings[key].typ, elems[row]), lib) else Err("bind variable not set")
        case _ => Literal(bindings[key], lib)
  }

  /** The statement, or the tuple, that is written for a row. */
  lemma RowSpells(sql: string, bindings: Bindings, rows: seq<Bindings>, row: nat, lib: Library)
    requires Pivots(bindings, rows) && row < |rows| && bindings != map[]
    ensures var segs := Lex(false, sql);
      && Wellformed(segs)
      && Spells(seq(|segs|, i requires 0 <= i < |segs| => RowTextAt(segs, i, bindings, row, lib)),
                Substituted(sql, rows[row], lib))
  {
    var segs := Lex(false, sql);
    SubstitutedSpells(sql, rows[row], lib);
    PivotsFit(bindings, rows);
    forall i | 0 <= i < |segs| ensures TextAt(segs, i, rows[row], lib) == RowTextAt(segs, i, bindings, row, lib) {
      if IsHole(segs[i]) { RowBinding(bindings, rows, row, Itoa(NumberAt(segs, i))); }
    }
    assert rows[row] != map[] by { assert rows[row].Keys == bindings.Keys; }
    assert TextsOf(segs, rows[row], lib) ==
           seq(|segs|, i requires 0 <= i < |segs| => RowTextAt(segs, i, bindings, row, lib));
  }

  lemma RowBinding(bindings: Bindings, rows: seq<Bindings>, row: nat, key: string)
    requires Pivots(bindings, rows) && row < |rows|
    ensures key in rows[row] <==> key in bindings
    ensures key in bindings ==>
              match bindings[key].value
              case Array(elems) => row < |elems| && rows[row][key] == Binding(bindings[key].typ, elems[row])
              case _ => rows[row][key] == bindings[key]
  {
    if key in bindings {
      var column := Column(bindings, rows, key);
      assert column[row] == rows[row][key] && ReadsDown(bindings[key], column);
    }
  }

  lemma OnlyTheseRows(bindings: Bindings, rows: seq<Bindings>)
    requires IsBulk(bindings) && Pivots(bindings, rows)
    ensures forall rows' :: Pivots(bindings, rows') ==> rows' == rows
  {
    var k :| k in bindings && IsArray(bindings[k].value);
    assert ReadsDown(bindings[k], Column(bindings, rows, k));
    forall rows' | Pivots(bindings, rows') ensures rows' == rows {
      PivotsOnce(bindings, rows', rows);
    }
  }

  function Filling(sql: string, lib: Library): Bindings -> Result<string> {
    row => Substituted(sql, row, lib)
  }

  /** The first i rows give ts. */
  predicate FilledSoFar(fill: Bindings -> Result<string>, rows: seq<Bindings>, i: nat, ts: seq<string>)
    requires i <= |rows|
  {
    |ts| == i && forall k :: 0 <= k < i ==> fill(rows[k]) == Ok(ts[k])
  }

  lemma OneMoreFilled(
      fill: Bindings -> Result<string>, rows: seq<Bindings>, i: nat, next: nat, ts: seq<string>, t: string)
    requires i < |rows| && next == i + 1 && FilledSoFar(fill, rows, i, ts) && fill(rows[i]) == Ok(t)
    ensures FilledSoFar(fill, rows, next, ts + [t])
  {
  }

  lemma FoldedMore(prefix: string, ts: seq<string>, t: string, ts': seq<string>, b: string)
    requires b == Folded(prefix, ts) && ts' == ts + [t]
    ensures Folded(prefix, ts') == (if ts == [] then b else b + ", ") + t
  {
    assert ts'[..|ts'| - 1] == ts;
  }

  method FoldRows(prefix: string, tuple: string, rows: seq<Bindings>, lib: Library) returns (r: Result<seq<string>>)
    ensures r.Ok? <==> AllOk(tuple, rows, lib)
    ensures r.Ok? ==> r.value == [Folded(prefix, Texts(tuple, rows, lib))]
  {
    var b := prefix + " VALUES ";
    ghost var ts: seq<string> := [];
    for i := 0 to |rows|
      invariant FilledSoFar(Filling(tuple, lib), rows, i, ts) && b == Folded(prefix, ts)
    {
      var t := Substitute(tuple, rows[i], lib);
      if t.Err? { return Err(t.error); }
      FoldedMore(prefix, ts, t.value, ts + [t.value], b);
      if i > 0 { b := b + ", "; }
      b := b + t.value;
      ghost var next := i + 1;
      OneMoreFilled(Filling(tuple, lib), rows, i, next, ts, t.value);
      ts := ts + [t.value];
    }
    assert ts == Texts(tuple, rows, lib);
    return Ok([b]);
  }

  method EachRow(sql: string, rows: seq<Bindings>, lib: Library) returns (r: Result<seq<string>>)
    ensures r.Ok? <==> AllOk(sql, rows, lib)
    ensures r.Ok? ==> r.value == Texts(sql, rows, lib)
  {
    var stmts := [];
    for i := 0 to |rows|
      invariant FilledSoFar(Filling(sql, lib), rows, i, stmts)
    {
      var t := Substitute(sql, rows[i], lib);
      if t.Err? { return Err(t.error); }
      ghost var next := i + 1;
      OneMoreFilled(Filling(sql, lib), rows, i, next, stmts, t.value);
      stmts := stmts + [t.value];
    }
    return Ok(stmts);
  }
}

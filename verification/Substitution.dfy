/** Placeholder substitution of internal/binding/binding.go: the scanning loop,
    the text it produces, and exactly when that text keeps the structure of the
    statement. */
module Substitution {
  import opened Text
  import opened Scanner
  import opened Literals
  import opened Numbers

  // ---- The scanning loops ----

  method SkipQuoted(sql: string, i: nat, q: char) returns (end: nat)
    requires i < |sql|
    ensures end == i + 1 + QuotedLen(sql[i + 1..], q)
  {
    var j := i + 1;
    while j < |sql|
      invariant i + 1 <= j <= |sql|
      invariant j + QuotedLen(sql[j..], q) == i + 1 + QuotedLen(sql[i + 1..], q)
      decreases |sql| - j
    {
      var s := sql[j..];
      if sql[j] != q {
        assert s[1..] == sql[j + 1..];
        j := j + 1;
      } else if j + 1 < |sql| && sql[j + 1] == q {
        assert s[2..] == sql[j + 2..];
        j := j + 2;
      } else {
        return j + 1;
      }
    }
    return |sql|;
  }

  /** skipUntil, for the two-character terminator ab. */
  method SkipUntil(sql: string, i: nat, a: char, b: char) returns (next: nat)
    requires i + 2 <= |sql|
    ensures next == i + 2 + UntilLen(sql[i + 2..], a, b)
  {
    var k := i + 2;
    while k + 2 <= |sql|
      invariant i + 2 <= k <= |sql|
      invariant k + UntilLen(sql[k..], a, b) == i + 2 + UntilLen(sql[i + 2..], a, b)
    {
      if sql[k] == a && sql[k + 1] == b { return k + 2; }
      assert sql[k..][1..] == sql[k + 1..];
      k := k + 1;
    }
    return |sql|;
  }

  method SkipLine(sql: string, i: nat) returns (next: nat)
    requires i <= |sql|
    ensures next == i + LineLen(sql[i..])
  {
    next := i;
    while next < |sql| && sql[next] != '\n'
      invariant i <= next <= |sql|
      invariant next + LineLen(sql[next..]) == i + LineLen(sql[i..])
    {
      assert sql[next..][1..] == sql[next + 1..];
      next := next + 1;
    }
  }

  /** The index just past a special section that starts at i, if one does. */
  method SkipSpecial(sql: string, i: nat) returns (j: nat, ok: bool)
    requires i < |sql|
    ensures ok <==> SpecialLen(sql[i..]) > 0
    ensures ok ==> j == i + SpecialLen(sql[i..])
  {
    var s := sql[i..];
    if sql[i] == '\'' || sql[i] == '"' {
      assert s[1..] == sql[i + 1..];
      j := SkipQuoted(sql, i, sql[i]);
      return j, true;
    }
    if i + 2 <= |sql| {
      assert s[2..] == sql[i + 2..] && s[1] == sql[i + 1];
      if sql[i] == '$' && sql[i + 1] == '$' {
        j := SkipUntil(sql, i, '$', '$');
        return j, true;
      }
      if sql[i] == '/' && sql[i + 1] == '*' {
        j := SkipUntil(sql, i, '*', '/');
        return j, true;
      }
      if (sql[i] == '-' && sql[i + 1] == '-') || (sql[i] == '/' && sql[i + 1] == '/') {
        j := SkipLine(sql, i);
        return j, true;
      }
    }
    return 0, false;
  }

  // ---- The text that is rendered ----

  type Lookup = nat -> Result<string>

  /** The bind index a placeholder asks for; Atoi's range error is ignored, so
      an oversized number asks for the largest int64. */
  function HoleIndex(g: Segment, next: nat): nat
    requires IsHole(g)
    requires g.Numbered? ==> DigitRun(g.digits) == |g.digits|
  {
    match g
    case Positional => next
    case Numbered(d) => if Decimal(d) > MAX_INT64 then MAX_INT64 else Decimal(d)
  }

  /** Numbered placeholders hold digits. */
  predicate Wellformed(segs: seq<Segment>) {
    forall i :: 0 <= i < |segs| && segs[i].Numbered? ==> DigitRun(segs[i].digits) == |segs[i].digits|
  }

  function After(g: Segment, next: nat): nat {
    if g.Positional? then next + 1 else next
  }

  /** Texts in sequence; the first failure wins. */
  function Join(a: Result<string>, b: Result<string>): Result<string> {
    if a.Err? then a else if b.Err? then b else Ok(a.value + b.value)
  }

  /** What one segment turns into. */
  function Piece(g: Segment, next: nat, lookup: Lookup): Result<string>
    requires g.Numbered? ==> DigitRun(g.digits) == |g.digits|
  {
    if IsHole(g) then lookup(HoleIndex(g, next)) else Ok(SegText(g))
  }

  function Rendered(segs: seq<Segment>, next: nat, lookup: Lookup): Result<string>
    requires Wellformed(segs)
  {
    if segs == [] then Ok("")
    else Join(Piece(segs[0], next, lookup), Rendered(segs[1..], After(segs[0], next), lookup))
  }

  lemma {:induction false} DigitRunPrefix(s: string)
    ensures DigitRun(s[..DigitRun(s)]) == DigitRun(s)
  {
    if DigitRun(s) > 0 {
      DigitRunPrefix(s[1..]);
      assert s[..DigitRun(s)][1..] == s[1..][..DigitRun(s[1..])];
    }
  }

  lemma {:induction false} LexWellformed(pi: bool, s: string)
    ensures Wellformed(Lex(pi, s))
    decreases |s|
  {
    if s != "" {
      FirstText(pi, s);
      var g := First(pi, s);
      LexWellformed(EndsIdent(g), s[|SegText(g)|..]);
      if g.Numbered? { DigitRunPrefix(s[1..]); }
    }
  }

  lemma JoinUnit(r: Result<string>)
    ensures Join(Ok(""), r) == r == Join(r, Ok(""))
  {
    if r.Ok? { assert "" + r.value == r.value == r.value + ""; }
  }

  lemma JoinAppend(a: Result<string>, b: Result<string>, c: Result<string>)
    ensures Join(Join(a, b), c) == Join(a, Join(b, c))
  {
    if a.Ok? && b.Ok? && c.Ok? {
      assert (a.value + b.value) + c.value == a.value + (b.value + c.value);
    }
  }

  /** Position i stands in front of the segments still to be read. */
  ghost predicate Stands(sql: string, i: nat, rest: seq<Segment>) {
    i <= |sql| && sql[i..] == Spell(rest) && Reads(Before(sql, i), rest, "")
  }

  lemma StandsStep(sql: string, i: nat, rest: seq<Segment>) returns (after: nat)
    requires Stands(sql, i, rest) && i < |sql|
    ensures rest != [] && First(Before(sql, i), sql[i..]) == rest[0]
    ensures after == i + |SegText(rest[0])| > i && Stands(sql, after, rest[1..])
  {
    after := i + |SegText(rest[0])|;
    var t, more := SegText(rest[0]), Spell(rest[1..]);
    assert more + "" == more;
    assert sql[i..] == t + more;
    assert sql[i + |t|..] == sql[i..][|t|..] == more;
    assert t[|t| - 1] == sql[i..][|t| - 1] == sql[i + |t| - 1];
  }

  /** The colon case of render's switch, for a colon that opens no cast. */
  method ColonStep(sql: string, i: nat, lookup: Lookup) returns (piece: Result<string>, j: nat, called: bool)
    requires i < |sql| && sql[i] == ':' && (i + 1 < |sql| ==> sql[i + 1] != ':')
    ensures var d := DigitRun(sql[i + 1..]);
      && (called <==> LooksNumbered(sql[i + 1..]) && !Before(sql, i))
      && (called ==> j == i + 1 + d && DigitRun(sql[i + 1..][..d]) == d)
      && (called ==> piece == Piece(Numbered(sql[i + 1..][..d]), 0, lookup))
      && (!called ==> j == i + 1 && piece == Ok(":"))
  {
    j := DigitsEnd(sql, i + 1);
    ghost var d := DigitRun(sql[i + 1..]);
    assert sql[i + 1..j] == sql[i + 1..][..d];
    if j == i + 1 || (j < |sql| && IsIdentChar(sql[j])) || (i > 0 && IsIdentChar(sql[i - 1])) {
      return Ok(":"), i + 1, false;
    }
    DigitRunPrefix(sql[i + 1..]);
    var n := Decimal(sql[i + 1..j]);
    return lookup(if n > MAX_INT64 then MAX_INT64 else n), j, true;
  }

  /** The body of render's loop: the text written for the segment at i. */
  method ScanStep(sql: string, i: nat, next: nat, lookup: Lookup)
      returns (piece: Result<string>, j: nat, next': nat, called: bool)
    requires i < |sql|
    ensures var g := First(Before(sql, i), sql[i..]);
      && (g.Numbered? ==> DigitRun(g.digits) == |g.digits|)
      && j == i + |SegText(g)| && piece == Piece(g, next, lookup)
      && next' == After(g, next) && called == IsHole(g)
  {
    next', called := next, false;
    var special: bool;
    j, special := SkipSpecial(sql, i);
    if special {
      assert sql[i..][..j - i] == sql[i..j];
      return Ok(sql[i..j]), j, next, false;
    }
    if sql[i] == '?' {
      return lookup(next), i + 1, next + 1, true;
    }
    if sql[i] == ':' {
      assert sql[i..][1..] == sql[i + 1..];
      if i + 1 < |sql| && sql[i + 1] == ':' {
        return Ok("::"), i + 2, next, false;
      }
      piece, j, called := ColonStep(sql, i, lookup);
      assert called ==> First(Before(sql, i), sql[i..]) == Numbered(sql[i + 1..][..DigitRun(sql[i + 1..])]);
      return;
    }
    return Ok([sql[i]]), i + 1, next, false;
  }

  /** What is still to be written: with what has been, the text of the whole, and a
      placeholder was met or is still to come exactly if there is one. */
  predicate Owes(
      rest: seq<Segment>, next: nat, lookup: Lookup, out: string, calls: nat, total: Result<string>, holes: bool) {
    && Wellformed(rest) && Join(Ok(out), Rendered(rest, next, lookup)) == total
    && ((calls > 0 || HasHole(rest)) <==> holes)
  }

  lemma OwesStep(
      rest: seq<Segment>, next: nat, lookup: Lookup, out: string, calls: nat, total: Result<string>, holes: bool,
      piece: Result<string>, next': nat, calls': nat)
    requires Owes(rest, next, lookup, out, calls, total, holes) && rest != []
    requires rest[0].Numbered? ==> DigitRun(rest[0].digits) == |rest[0].digits|
    requires piece == Piece(rest[0], next, lookup) && next' == After(rest[0], next)
    requires calls' == if IsHole(rest[0]) then calls + 1 else calls
    ensures piece.Err? ==> total == piece && (calls' > 0 <==> holes)
    ensures piece.Ok? ==> Owes(rest[1..], next', lookup, out + piece.value, calls', total, holes)
  {
    Unfold(rest, next, lookup);
    JoinAppend(Ok(out), piece, Rendered(rest[1..], next', lookup));
  }

  lemma OwesAll(segs: seq<Segment>, lookup: Lookup)
    requires Wellformed(segs)
    ensures Owes(segs, 1, lookup, "", 0, Rendered(segs, 1, lookup), HasHole(segs))
  {
    JoinUnit(Rendered(segs, 1, lookup));
  }

  lemma OwesNothing(next: nat, lookup: Lookup, out: string, calls: nat, total: Result<string>, holes: bool)
    requires Owes([], next, lookup, out, calls, total, holes)
    ensures total == Ok(out) && (calls > 0 <==> holes)
  {
    JoinUnit(Ok(out));
  }

  /** render: walks sql, writes special sections and plain characters through
      and replaces every placeholder by what lookup answers. calls counts the
      lookups, which is all that hasPlaceholder asks for. */
  method Render(sql: string, lookup: Lookup) returns (r: Result<string>, calls: nat)
    ensures Wellformed(Lex(false, sql)) && r == Rendered(Lex(false, sql), 1, lookup)
    ensures calls > 0 <==> HasHole(Lex(false, sql))
  {
    var out, next, i := "", 1, 0;
    calls := 0;
    ghost var segs := Reading(sql);
    ghost var rest, total, holes := segs, Rendered(segs, 1, lookup), HasHole(segs);
    OwesAll(segs, lookup);
    while i < |sql|
      invariant Stands(sql, i, rest) && Owes(rest, next, lookup, out, calls, total, holes)
      decreases |sql| - i
    {
      ghost var after := StandsStep(sql, i, rest);
      var piece, j, next', called := ScanStep(sql, i, next, lookup);
      assert j == after;
      ghost var before := calls;
      calls := if called then calls + 1 else calls;
      OwesStep(rest, next, lookup, out, before, total, holes, piece, next', calls);
      if piece.Err? { return piece, calls; }
      out, i, next, rest := out + piece.value, j, next', rest[1..];
    }
    NothingLeft(sql, i, rest);
    OwesNothing(next, lookup, out, calls, total, holes);
    return Ok(out), calls;
  }

  lemma Reading(sql: string) returns (segs: seq<Segment>)
    ensures segs == Lex(false, sql) && Wellformed(segs) && Stands(sql, 0, segs)
  {
    segs := Lex(false, sql);
    LexWellformed(false, sql);
    LexReads(false, sql);
    assert sql[0..] == sql;
  }

  lemma NothingLeft(sql: string, i: nat, rest: seq<Segment>)
    requires Stands(sql, i, rest) && i == |sql|
    ensures rest == []
  {
    assert sql[i..] == "";
  }

  lemma Unfold(segs: seq<Segment>, next: nat, lookup: Lookup)
    requires Wellformed(segs) && segs != []
    ensures Wellformed(segs[1..]) && (segs[0].Numbered? ==> DigitRun(segs[0].digits) == |segs[0].digits|)
    ensures Rendered(segs, next, lookup) ==
              Join(Piece(segs[0], next, lookup), Rendered(segs[1..], After(segs[0], next), lookup))
    ensures HasHole(segs) <==> IsHole(segs[0]) || HasHole(segs[1..])
  {
    assert forall h :: h in segs <==> h == segs[0] || h in segs[1..];
  }

  method DigitsEnd(sql: string, from: nat) returns (j: nat)
    requires from <= |sql|
    ensures j == from + DigitRun(sql[from..])
    ensures forall k :: from <= k < j ==> IsDigit(sql[k])
  {
    j := from;
    while j < |sql| && IsDigit(sql[j])
      invariant from <= j <= |sql|
      invariant j + DigitRun(sql[j..]) == from + DigitRun(sql[from..])
      invariant forall k :: from <= k < j ==> IsDigit(sql[k])
    {
      assert sql[j..][1..] == sql[j + 1..];
      j := j + 1;
    }
  }

  /** Whether an identifier character stands just before position i. */
  predicate Before(sql: string, i: nat)
    requires i <= |sql|
  {
    i > 0 && IsIdentChar(sql[i - 1])
  }

  predicate HasHole(segs: seq<Segment>) {
    exists g :: g in segs && IsHole(g)
  }

  // ---- Entry points ----

  function LookupIn(bindings: map<string, Binding>, lib: Library): Lookup {
    (k: nat) => if Itoa(k) in bindings then Literal(bindings[Itoa(k)], lib) else Err("bind variable not set")
  }

  function Substituted(sql: string, bindings: map<string, Binding>, lib: Library): Result<string> {
    LexWellformed(false, sql);
    if bindings == map[] then Ok(sql) else Rendered(Lex(false, sql), 1, LookupIn(bindings, lib))
  }

  /** Substitute: without bindings the statement itself; otherwise the texts that its
      segments stand for, in order, or an error if one of them has none. */
  method Substitute(sql: string, bindings: map<string, Binding>, lib: Library) returns (r: Result<string>)
    ensures r == Substituted(sql, bindings, lib)
    ensures bindings == map[] ==> r == Ok(sql)
    ensures bindings != map[] ==>
              Wellformed(Lex(false, sql)) && Spells(TextsOf(Lex(false, sql), bindings, lib), r)
  {
    SubstitutedSpells(sql, bindings, lib);
    if |bindings| == 0 { return Ok(sql); }
    var rendered, _ := Render(sql, LookupIn(bindings, lib));
    return rendered;
  }

  method HasPlaceholder(sql: string) returns (found: bool)
    ensures found <==> HasHole(Lex(false, sql))
  {
    var _, calls := Render(sql, _ => Ok("\"\""));
    return calls > 0;
  }

  method FillNull(sql: string) returns (out: string)
    ensures Wellformed(Lex(false, sql)) && Ok(out) == Rendered(Lex(false, sql), 1, NullLookup)
  {
    var r, _ := Render(sql, NullLookup);
    RenderedIsFilled(Lex(false, sql), 1, NullLookup);
    return r.value;
  }

  function NullLookup(k: nat): Result<string> {
    Ok("NULL")
  }

  // ---- The text of each segment, by its place alone ----

  /** The question marks among the first i segments. */
  function QuestionMarks(segs: seq<Segment>, i: nat): set<nat> {
    set j: nat | j < i && j < |segs| && segs[j].Positional?
  }

  /** The number of the placeholder at i: a question mark has its place among the
      question marks, a numbered one the number that its digits spell. */
  function NumberAt(segs: seq<Segment>, i: nat): nat
    requires Wellformed(segs) && i < |segs| && IsHole(segs[i])
  {
    match segs[i]
    case Positional => 1 + |QuestionMarks(segs, i)|
    case Numbered(digits) => if Decimal(digits) <= MAX_INT64 then Decimal(digits) else MAX_INT64
  }

  /** What segment i turns into when placeholders are looked up. */
  function AnswerAt(segs: seq<Segment>, i: nat, lookup: Lookup): Result<string>
    requires Wellformed(segs) && i < |segs|
  {
    match segs[i]
    case Special(text) => Ok(text)
    case Cast => Ok("::")
    case Plain(c) => Ok([c])
    case _ => lookup(NumberAt(segs, i))
  }

  function Answers(segs: seq<Segment>, lookup: Lookup): (parts: seq<Result<string>>)
    requires Wellformed(segs)
    ensures |parts| == |segs|
  {
    seq(|segs|, i requires 0 <= i < |segs| => AnswerAt(segs, i, lookup))
  }

  /** The literal of the binding with a key. */
  function BoundTo(key: string, bindings: map<string, Binding>, lib: Library): Result<string> {
    if key in bindings then Literal(bindings[key], lib) else Err("bind variable not set")
  }

  /** What segment i stands for: a placeholder for the binding with its number as the
      key, anything else for itself. */
  function TextAt(segs: seq<Segment>, i: nat, bindings: map<string, Binding>, lib: Library): Result<string>
    requires Wellformed(segs) && i < |segs|
  {
    if IsHole(segs[i]) then BoundTo(Itoa(NumberAt(segs, i)), bindings, lib) else Ok(SegText(segs[i]))
  }

  function TextsOf(segs: seq<Segment>, bindings: map<string, Binding>, lib: Library): (parts: seq<Result<string>>)
    requires Wellformed(segs)
    ensures |parts| == |segs|
  {
    seq(|segs|, i requires 0 <= i < |segs| => TextAt(segs, i, bindings, lib))
  }

  predicate AllThere(parts: seq<Result<string>>) {
    forall i :: 0 <= i < |parts| ==> parts[i].Ok?
  }

  function Concat(parts: seq<Result<string>>): string
    requires AllThere(parts)
  {
    if parts == [] then "" else parts[0].value + Concat(parts[1..])
  }

  /** The parts in order, or an error if one is missing. */
  predicate Spells(parts: seq<Result<string>>, r: Result<string>) {
    (r.Ok? <==> AllThere(parts)) && (r.Ok? ==> r.value == Concat(parts))
  }

  /** :N asks for number N. */
  lemma NumberedAt(segs: seq<Segment>, i: nat, n: nat)
    requires Wellformed(segs) && i < |segs| && n <= MAX_INT64 && segs[i] == Numbered(Itoa(n))
    ensures NumberAt(segs, i) == n
  {
    ItoaDigits(n);
  }

  lemma OneMoreQuestion(segs: seq<Segment>, i: nat, j: nat)
    requires i < |segs| && j == i + 1
    ensures |QuestionMarks(segs, j)| == |QuestionMarks(segs, i)| + if segs[i].Positional? then 1 else 0
  {
    if segs[i].Positional? {
      assert QuestionMarks(segs, j) == QuestionMarks(segs, i) + {i};
    } else {
      assert QuestionMarks(segs, j) == QuestionMarks(segs, i);
    }
  }

  lemma SpellsOneMore(parts: seq<Result<string>>, rest: Result<string>)
    requires parts != [] && Spells(parts[1..], rest)
    ensures Spells(parts, Join(parts[0], rest))
  {
    assert forall i :: 0 < i < |parts| ==> parts[i] == parts[1..][i - 1];
  }

  lemma {:induction false} RenderedSpells(
      segs: seq<Segment>, i: nat, rest: seq<Segment>, next: nat, lookup: Lookup)
    requires Wellformed(segs) && i <= |segs| && rest == segs[i..] && Wellformed(rest)
    requires next == 1 + |QuestionMarks(segs, i)|
    ensures Spells(Answers(segs, lookup)[i..], Rendered(rest, next, lookup))
    decreases |rest|
  {
    if i < |segs| {
      var j := i + 1;
      var parts := Answers(segs, lookup);
      OneMoreQuestion(segs, i, j);
      Unfold(rest, next, lookup);
      assert rest[1..] == segs[j..] && rest[0] == segs[i];
      RenderedSpells(segs, j, rest[1..], After(rest[0], next), lookup);
      assert parts[i..][1..] == parts[j..] && parts[i..][0] == AnswerAt(segs, i, lookup);
      SpellsOneMore(parts[i..], Rendered(rest[1..], After(rest[0], next), lookup));
    }
  }

  /** The rendered text is the answers for the segments, in order. */
  lemma RenderedInOrder(segs: seq<Segment>, lookup: Lookup)
    requires Wellformed(segs)
    ensures Spells(Answers(segs, lookup), Rendered(segs, 1, lookup))
  {
    var parts := Answers(segs, lookup);
    assert QuestionMarks(segs, 0) == {} && segs[0..] == segs && parts[0..] == parts;
    RenderedSpells(segs, 0, segs, 1, lookup);
  }

  lemma SubstitutedSpells(sql: string, bindings: map<string, Binding>, lib: Library)
    ensures Wellformed(Lex(false, sql))
    ensures bindings != map[] ==> Spells(TextsOf(Lex(false, sql), bindings, lib), Substituted(sql, bindings, lib))
  {
    var segs := Lex(false, sql);
    LexWellformed(false, sql);
    RenderedInOrder(segs, LookupIn(bindings, lib));
    assert Answers(segs, LookupIn(bindings, lib)) == TextsOf(segs, bindings, lib);
  }

  // ---- What the rendered text consists of ----

  function Indices(segs: seq<Segment>, next: nat): set<nat>
    requires Wellformed(segs)
  {
    if segs == [] then {}
    else (if IsHole(segs[0]) then {HoleIndex(segs[0], next)} else {}) + Indices(segs[1..], After(segs[0], next))
  }

  function LitText(r: Result<string>): string {
    match r case Ok(t) => t case Err(_) => ""
  }

  /** The template's segments with every placeholder replaced by its literal's own segments. */
  function Filled(segs: seq<Segment>, next: nat, lookup: Lookup): seq<Segment>
    requires Wellformed(segs)
  {
    if segs == [] then []
    else (if IsHole(segs[0]) then Lex(false, LitText(lookup(HoleIndex(segs[0], next)))) else [segs[0]]) +
         Filled(segs[1..], After(segs[0], next), lookup)
  }

  /** Rendering fails exactly when some placeholder's lookup fails, and
      otherwise spells the filled template. */
  lemma {:induction false} RenderedIsFilled(segs: seq<Segment>, next: nat, lookup: Lookup)
    requires Wellformed(segs)
    ensures Rendered(segs, next, lookup).Ok? <==> forall k :: k in Indices(segs, next) ==> lookup(k).Ok?
    ensures Rendered(segs, next, lookup).Ok? ==>
              Rendered(segs, next, lookup).value == Spell(Filled(segs, next, lookup))
  {
    if segs != [] {
      var g := segs[0];
      RenderedIsFilled(segs[1..], After(g, next), lookup);
      var piece := if IsHole(g) then Lex(false, LitText(lookup(HoleIndex(g, next)))) else [g];
      SpellAppend(piece, Filled(segs[1..], After(g, next), lookup));
      if IsHole(g) {
        LexReads(false, LitText(lookup(HoleIndex(g, next))));
      } else {
        assert Spell([g]) == SegText(g) + Spell([]);
      }
    }
  }
}

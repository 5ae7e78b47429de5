/** The folded bulk INSERT, read back: it has the structure of its parts exactly
    when the text before VALUES does not end in a line comment. */
module FoldedStructure {
  import opened Text
  import opened Scanner
  import opened Literals
  import opened Substitution
  import opened Structure
  import opened Bulk
  import opened RowByRow
  import opened Folding

  predicate IsLine(g: Segment) {
    g.Special? && LineComment(g.text)
  }

  predicate EndsInLine(segs: seq<Segment>) {
    segs != [] && IsLine(segs[|segs| - 1])
  }

  predicate SpaceStart(y: string) {
    y != "" && y[0] == ' '
  }

  lemma LineAtLeastTwo(s: string)
    ensures LineComment(s) ==> LineLen(s) >= 2
  {
  }

  lemma SpecialSpace(t: string, r: string, y: string)
    requires t != "" && SpecialLen(t + r) == |t| && r != "" && !LineComment(t) && SpaceStart(y)
    ensures SpecialLen(t + y) == |t|
  {
    var s, s' := t + r, t + y;
    if t[0] == '\'' || t[0] == '"' {
      assert s[1..] == t[1..] + r && s'[1..] == t[1..] + y;
      QuotedClosed(t[1..], t[0], r, y);
    } else {
      LineAtLeastTwo(s);
      assert |t| >= 2;
      assert s[1] == t[1] == s'[1];
      assert s[2..] == t[2..] + r && s'[2..] == t[2..] + y;
      if Opens(t, '$', '$') { UntilClosed(t[2..], '$', '$', r, y); } else { UntilClosed(t[2..], '*', '/', r, y); }
    }
  }

  lemma SpaceAfter(pi: bool, g: Segment, r: string, y: string)
    requires Fits(pi, g, r) && r != "" && !IsHole(g) && !IsLine(g) && SpaceStart(y)
    ensures Fits(pi, g, y)
  {
    if g.Special? {
      SpecialSpace(g.text, r, y);
      assert (g.text + y)[..|g.text|] == g.text;
    } else if g == Plain(':') {
      ColonStable(pi, y);
    } else {
      var s' := SegText(g) + y;
      assert g.Plain? ==> s'[1] == ' ' && (SegText(g) + r)[0] == g.c;
      assert SpecialLen(s') == 0;
    }
  }

  lemma InnerFits(pi: bool, g: Segment, p': string, x: string, y: string)
    requires Fits(pi, g, p' + x) && !IsHole(g) && p' != "" && SpaceStart(y)
    requires Fits(pi, g, p')
    ensures Fits(pi, g, p' + y)
  {
    if g == Plain(':') {
      ColonPlain(pi, p');
      ColonStable(pi, p');
      assert (p' + y)[|p'|] == ' ';
      NonDigitRun(p' + y, |p'|);
      DigitRunShrink(p', y);
      ColonStable(pi, p' + y);
    } else {
      if IsString(g) { StringThenQuote(pi, g, p' + x); }
      SegmentStable(g, pi, pi, p' + x, p' + y);
    }
  }

  lemma NonDigitRun(s: string, k: nat)
    requires k < |s| && !IsDigit(s[k])
    ensures DigitRun(s) <= k
  {
  }

  lemma SecondChar(p: string, w: string)
    ensures |p| == 1 && w != "" ==> (p + w)[1] == w[0]
  {
  }

  /** A special section that reaches into trailing white space is a line comment. */
  lemma OnlyLinesReach(t: string, r: string, p: string, w: string, more: string)
    requires t != "" && SpecialLen(t + r) == |t| && r != ""
    requires t + more == p + w && AllSpace(w) && |t| > |p| && p != ""
    ensures LineComment(p) && SpecialLen(p) == |p|
  {
    var s := t + r;
    assert t[|t| - 1] == (p + w)[|t| - 1] == w[|t| - 1 - |p|];
    assert t[0] == (p + w)[0] == p[0];
    if t[0] == '\'' || t[0] == '"' {
      assert s[1..] == t[1..] + r;
      QuotedClosed(t[1..], t[0], r, r);
    } else {
      assert |t| >= 2;
      assert t[1] == s[1] && s[2..] == t[2..] + r;
      if Opens(t, '$', '$') {
        UntilClosed(t[2..], '$', '$', r, r);
      } else if Opens(t, '/', '*') {
        UntilClosed(t[2..], '*', '/', r, r);
      } else {
        assert t[1] == (t + more)[1] == (p + w)[1];
        SecondChar(p, w);
        assert |p| >= 2;
        assert p == (p + w)[..|p|] == (t + more)[..|p|] == t[..|p|];
        LinePrefix(t, |p|, r);
      }
    }
  }

  lemma {:induction false} LinePrefix(t: string, n: nat, r: string)
    requires n <= |t| && LineLen(t + r) == |t|
    ensures LineLen(t[..n]) == n
  {
    if n > 0 {
      assert (t + r)[1..] == t[1..] + r;
      LinePrefix(t[1..], n - 1, r);
      assert t[..n][1..] == t[1..][..n - 1];
    }
  }

  lemma LineIsLast(pi: bool, p: string)
    requires p != "" && LineComment(p) && SpecialLen(p) == |p|
    ensures EndsInLine(Lex(pi, p))
  {
    assert p[..|p|] == p;
    assert Lex(pi, p) == [Special(p)];
  }

  lemma LexHead(pi: bool, g: Segment, p': string)
    requires Fits(pi, g, p')
    ensures Lex(pi, SegText(g) + p') == [g] + Lex(EndsIdent(g), p')
    ensures EndsInLine(Lex(pi, SegText(g) + p')) <==> if p' == "" then IsLine(g) else EndsInLine(Lex(EndsIdent(g), p'))
    ensures HasHole(Lex(pi, SegText(g) + p')) <==> IsHole(g) || HasHole(Lex(EndsIdent(g), p'))
  {
    LexCons(pi, g, p');
    assert ([g] + Lex(EndsIdent(g), p'))[1..] == Lex(EndsIdent(g), p');
    HoleHead([g] + Lex(EndsIdent(g), p'));
  }

  /** The prefix of an accepted statement, trimmed and followed by a space
      instead of its own continuation, is still read as on its own. */
  lemma {:induction false} PrefixReads(pi: bool, a: seq<Segment>, p: string, w: string, x: string, y: string)
    requires Wellformed(a) && Reads(pi, a, x) && x != "" && Spell(a) == p + w && AllSpace(w)
    requires !HasHole(Lex(pi, p)) && !EndsInLine(Lex(pi, p)) && SpaceStart(y)
    ensures Reads(pi, Lex(pi, p), y)
    decreases |a|
  {
    if p != "" {
      var g, more := a[0], a[1..];
      var t := SegText(g);
      MoreWellformed(a);
      if g.Numbered? { NumberedNotEmpty(pi, g, Spell(more) + x); }
      if IsHole(g) { HoleInside(g, p, w, Spell(more)); }
      if |t| > |p| {
        PrefixReach(pi, g, Spell(more), p, w, x);
      } else {
        CutHead(t, Spell(more), p, w);
        var p' := p[|t|..];
        AppendAssoc(p', w, x);
        PrefixHead(pi, g, p', w + x, y);
        LexHead(pi, g, p');
        PrefixReads(EndsIdent(g), more, p', w, x, y);
        PrefixCons(pi, g, p', y);
      }
    }
  }

  lemma PrefixReach(pi: bool, g: Segment, more: string, p: string, w: string, x: string)
    requires Fits(pi, g, more + x) && x != "" && SegText(g) + more == p + w && AllSpace(w)
    requires |SegText(g)| > |p| && p != "" && !IsHole(g)
    ensures EndsInLine(Lex(pi, p))
  {
    var t := SegText(g);
    assert |t| > 1 ==> t[1] == (p + w)[1];
    assert |p| == 1 && |p + w| > 1 ==> (p + w)[1] == w[0];
    if g.Special? {
      OnlyLinesReach(t, more + x, p, w, more);
      LineIsLast(pi, p);
    }
  }

  lemma PrefixHead(pi: bool, g: Segment, p': string, x: string, y: string)
    requires Fits(pi, g, p' + x) && x != "" && SpaceStart(y)
    requires g.Numbered? ==> DigitRun(g.digits) == |g.digits|
    requires !HasHole(Lex(pi, SegText(g) + p')) && !EndsInLine(Lex(pi, SegText(g) + p'))
    ensures Fits(pi, g, p') && !IsHole(g) && Fits(pi, g, p' + y)
  {
    HeadSame(pi, g, p', x);
    if IsHole(First(pi, SegText(g) + p')) { HoleAtHead(pi, SegText(g) + p'); }
    LexHead(pi, g, p');
    if p' == "" {
      assert p' + x == x && p' + y == y;
      SpaceAfter(pi, g, x, y);
    } else {
      InnerFits(pi, g, p', x, y);
    }
  }

  lemma PrefixCons(pi: bool, g: Segment, p': string, y: string)
    requires Fits(pi, g, p') && Fits(pi, g, p' + y) && Reads(EndsIdent(g), Lex(EndsIdent(g), p'), y)
    ensures Reads(pi, Lex(pi, SegText(g) + p'), y)
  {
    LexCons(pi, g, p');
    LexReads(EndsIdent(g), p');
    assert ([g] + Lex(EndsIdent(g), p'))[1..] == Lex(EndsIdent(g), p');
  }

  // ---- The folded text ----

  function JoinSegs(fs: seq<seq<Segment>>): seq<Segment> {
    if fs == [] then []
    else if |fs| == 1 then fs[0]
    else JoinSegs(fs[..|fs| - 1]) + (Plains(", ") + fs[|fs| - 1])
  }

  /** A piece in parentheses. */
  ghost predicate Parenthesised(f: seq<Segment>) {
    f != [] && f[0] == Plain('(') && f[|f| - 1] == Plain(')') && Reads(false, f, "")
  }

  ghost predicate AllParenthesised(fs: seq<seq<Segment>>, ts: seq<string>) {
    |fs| == |ts| && forall i :: 0 <= i < |fs| ==> Parenthesised(fs[i]) && Spell(fs[i]) == ts[i]
  }

  lemma {:induction false} JoinReads(pi: bool, fs: seq<seq<Segment>>, ts: seq<string>)
    requires fs != [] && AllParenthesised(fs, ts)
    ensures Spell(JoinSegs(fs)) == JoinTexts(ts)
    ensures forall z :: Reads(pi, JoinSegs(fs), z)
    decreases |fs|
  {
    var n := |fs| - 1;
    if n == 0 {
      JoinOne(pi, fs[0], ts[0]);
    } else {
      assert AllParenthesised(fs[..n], ts[..n]);
      JoinReads(pi, fs[..n], ts[..n]);
      JoinSegsLast(fs);
      JoinStep(pi, JoinSegs(fs[..n]), JoinTexts(ts[..n]), fs[n], ts[n], JoinSegs(fs));
    }
  }

  lemma JoinSegsLast(fs: seq<seq<Segment>>)
    requires |fs| > 1
    ensures var n := |fs| - 1; JoinSegs(fs) == JoinSegs(fs[..n]) + (Plains(", ") + fs[n])
  {
  }

  lemma JoinStep(pi: bool, a: seq<Segment>, s: string, f: seq<Segment>, t: string, r: seq<Segment>)
    requires Parenthesised(f) && Spell(f) == t && Spell(a) == s && forall z :: Reads(pi, a, z)
    requires r == a + (Plains(", ") + f)
    ensures Spell(r) == s + ", " + t
    ensures forall z :: Reads(pi, r, z)
  {
    JoinLast(pi, a, f, t);
    AppendAssoc(s, ", ", t);
  }

  lemma JoinOne(pi: bool, f: seq<Segment>, t: string)
    requires Parenthesised(f) && Spell(f) == t
    ensures forall z :: Reads(pi, f, z)
  {
    forall z ensures Reads(pi, f, z) { ParenReads(pi, f, z); }
  }

  lemma JoinLast(pi: bool, a: seq<Segment>, f: seq<Segment>, t: string)
    requires Parenthesised(f) && Spell(f) == t && forall z :: Reads(pi, a, z)
    ensures Spell(a + (Plains(", ") + f)) == Spell(a) + (", " + t)
    ensures forall z :: Reads(pi, a + (Plains(", ") + f), z)
  {
    PlainsSpell(", ");
    SpellAppend(Plains(", "), f);
    SpellAppend(a, Plains(", ") + f);
    forall z ensures Reads(pi, a + (Plains(", ") + f), z) {
      var q := EndIdent(pi, a);
      InertReads(q, ", ", t + z);
      ParenReads(EndIdent(q, Plains(", ")), f, z);
      ReadsAppend(q, Plains(", "), f, z);
      ReadsAppend(pi, a, Plains(", ") + f, z);
    }
  }

  /** The segments of row i's tuple as the template intends them. */
  function RowSegs(tuple: string, row: Bindings, lib: Library): seq<Segment> {
    LexWellformed(false, tuple);
    Filled(Lex(false, tuple), 1, LookupIn(row, lib))
  }

  function AllRowSegs(tuple: string, rows: seq<Bindings>, lib: Library): (fs: seq<seq<Segment>>)
    ensures |fs| == |rows| && forall i :: 0 <= i < |rows| ==> fs[i] == RowSegs(tuple, rows[i], lib)
  {
    seq(|rows|, i requires 0 <= i < |rows| => RowSegs(tuple, rows[i], lib))
  }

  lemma {:induction false} FilledLast(segs: seq<Segment>, next: nat, lookup: Lookup)
    requires Wellformed(segs) && segs != [] && !IsHole(segs[|segs| - 1])
    ensures var f := Filled(segs, next, lookup); f != [] && f[|f| - 1] == segs[|segs| - 1]
    decreases |segs|
  {
    if |segs| > 1 {
      MoreWellformed(segs);
      FilledLast(segs[1..], After(segs[0], next), lookup);
    }
  }

  lemma RowParenthesised(tuple: string, row: Bindings, lib: Library)
    requires tuple != "" && tuple[0] == '(' && Balanced(Scan(tuple), 0) && SafeTemplate(tuple)
    requires lib.Valid() && row != map[] && Substituted(tuple, row, lib).Ok?
    ensures Parenthesised(RowSegs(tuple, row, lib))
    ensures Spell(RowSegs(tuple, row, lib)) == Substituted(tuple, row, lib).value
  {
    var t := Lex(false, tuple);
    TupleEnds(tuple);
    LexWellformed(false, tuple);
    FilledLast(t, 1, LookupIn(row, lib));
    SafeKeeps(tuple, row, lib);
    LexReads(false, Substituted(tuple, row, lib).value);
    assert Filled(t, 1, LookupIn(row, lib))[0] == t[0];
  }

  ghost function Expected(prefix: string, tuple: string, rows: seq<Bindings>, lib: Library): seq<Segment> {
    Lex(false, prefix) + (Plains(" VALUES ") + JoinSegs(AllRowSegs(tuple, rows, lib)))
  }

  /** The folded statement has the structure of its prefix, the keyword and the
      rows' tuples exactly when the prefix does not end in a line comment, which
      would swallow the keyword. */
  lemma FoldedTheorem(sql: string, rows: seq<Bindings>, lib: Library)
    requires Split(sql).Some? && SafeTemplate(Split(sql).value.1) && lib.Valid() && rows != []
    requires forall i :: 0 <= i < |rows| ==> rows[i] != map[]
    requires AllOk(Split(sql).value.1, rows, lib)
    ensures var (prefix, tuple) := Split(sql).value;
      (Lex(false, Folded(prefix, Texts(tuple, rows, lib))) == Expected(prefix, tuple, rows, lib)) <==>
      !EndsInLine(Lex(false, prefix))
  {
    var at := SplitAccepts(sql);
    FoldedAccepted(Core(sql), at, Split(sql).value.0, Split(sql).value.1, rows, lib);
  }

  lemma FoldedAccepted(s: string, at: nat, prefix: string, tuple: string, rows: seq<Bindings>, lib: Library)
    requires Accepted(s, at, prefix, tuple) && SafeTemplate(tuple) && lib.Valid() && rows != []
    requires (forall i :: 0 <= i < |rows| ==> rows[i] != map[]) && AllOk(tuple, rows, lib)
    ensures (Lex(false, Folded(prefix, Texts(tuple, rows, lib))) == Expected(prefix, tuple, rows, lib)) <==>
            !EndsInLine(Lex(false, prefix))
  {
    var fs, ts := AllRowSegs(tuple, rows, lib), Texts(tuple, rows, lib);
    forall i | 0 <= i < |rows| ensures Parenthesised(fs[i]) && Spell(fs[i]) == ts[i] {
      RowParenthesised(tuple, rows[i], lib);
    }
    var body := Plains(" VALUES ") + JoinSegs(fs);
    var text := " VALUES " + JoinTexts(ts);
    BodyReads(fs, ts);
    KeywordLetters();
    AppendAssoc(prefix, " VALUES ", JoinTexts(ts));
    LexReads(false, prefix);
    SpellAppend(Lex(false, prefix), body);
    if EndsInLine(Lex(false, prefix)) {
      LineSwallows(Lex(false, prefix), body);
    } else {
      AcceptedPrefix(s, at, prefix, tuple, text);
      HeadWhole(false, Lex(false, prefix), body, text);
      WholeLex(Lex(false, prefix) + body, prefix + text);
    }
  }

  lemma WholeLex(segs: seq<Segment>, text: string)
    requires Reads(false, segs, "") && Spell(segs) == text
    ensures Lex(false, text) == segs
  {
    ReadsIsLex(false, segs, "");
    assert text + "" == text && segs + [] == segs;
  }

  lemma AcceptedPrefix(s: string, at: nat, prefix: string, tuple: string, text: string)
    requires Accepted(s, at, prefix, tuple) && !EndsInLine(Lex(false, prefix)) && SpaceStart(text)
    ensures Reads(false, Lex(false, prefix), text)
  {
    var space, _, _ := Pieces(s, at, prefix, tuple);
    var head := HeadReads(s, "");
    LexWellformed(false, s);
    PrefixWellformed(head, Lex(false, s));
    PrefixReads(false, head, prefix, space, s[at..] + "", text);
  }

  lemma BodyReads(fs: seq<seq<Segment>>, ts: seq<string>)
    requires fs != [] && AllParenthesised(fs, ts)
    ensures Spell(Plains(" VALUES ") + JoinSegs(fs)) == " VALUES " + JoinTexts(ts)
    ensures forall pi :: Reads(pi, Plains(" VALUES ") + JoinSegs(fs), "")
  {
    var u := " VALUES ";
    PlainsSpell(u);
    JoinReads(false, fs, ts);
    SpellAppend(Plains(u), JoinSegs(fs));
    forall pi ensures Reads(pi, Plains(u) + JoinSegs(fs), "") {
      JoinReads(EndIdent(pi, Plains(u)), fs, ts);
      KeywordLetters();
      InertReads(pi, u, JoinTexts(ts));
      HeadWhole(pi, Plains(u), JoinSegs(fs), JoinTexts(ts));
    }
  }

  lemma KeywordLetters()
    ensures AllInert(" VALUES ") && SpaceStart(" VALUES ")
  {
  }

  lemma LineSwallows(p: seq<Segment>, body: seq<Segment>)
    requires EndsInLine(p) && Spell(body) != "" && Spell(body)[0] == ' '
    ensures Lex(false, Spell(p + body)) != p + body
  {
    var a, c := p[..|p| - 1], p[|p| - 1];
    if Lex(false, Spell(p + body)) == p + body {
      LexTail(false, p, body);
      assert p == a + [c];
      AppendAssoc(a, [c], body);
      ReadsAppend(false, a, [c] + body, "");
      LineGoesOn(EndIdent(false, a), c, body);
    }
  }

  lemma LineGoesOn(pi: bool, c: Segment, body: seq<Segment>)
    requires IsLine(c) && Spell(body) != "" && Spell(body)[0] == ' '
    ensures !Reads(pi, [c] + body, "")
  {
    if Reads(pi, [c] + body, "") {
      assert ([c] + body)[1..] == body;
      var rest := Spell(body) + "";
      assert LineComment(c.text + rest);
      LineClosed(c.text, rest, "");
    }
  }
}

/** What a folded bulk INSERT contains: row for row the tuples of the statements
    it stands for, and when its VALUES keyword survives. */
module Folding {
  import opened Text
  import opened Scanner
  import opened Literals
  import opened Substitution
  import opened Structure
  import opened Bulk
  import opened RowByRow

  // ---- Trimming the prefix hides no placeholder ----

  lemma {:induction false} SpaceNoHole(segs: seq<Segment>)
    requires AllSpace(Spell(segs))
    ensures !HasHole(segs)
  {
    if segs != [] {
      var t, more := SegText(segs[0]), Spell(segs[1..]);
      assert forall i :: 0 <= i < |more| ==> more[i] == Spell(segs)[|t| + i];
      SpaceNoHole(segs[1..]);
      if IsHole(segs[0]) { assert Spell(segs)[0] == t[0]; }
      assert forall h :: h in segs ==> h == segs[0] || h in segs[1..];
    }
  }

  lemma {:induction false} DigitRunShrink(a: string, x: string)
    requires DigitRun(a + x) <= |a|
    ensures DigitRun(a) == DigitRun(a + x)
    ensures LooksNumbered(a + x) ==> LooksNumbered(a)
  {
    if a != "" && IsDigit(a[0]) {
      assert (a + x)[1..] == a[1..] + x;
      DigitRunShrink(a[1..], x);
    }
  }

  /** Cutting the text off after a segment, or later, leaves the segment as it
      is, unless a placeholder appears. */
  lemma HeadSame(pi: bool, g: Segment, p': string, x: string)
    requires Fits(pi, g, p' + x)
    requires g.Numbered? ==> DigitRun(g.digits) == |g.digits|
    ensures Fits(pi, g, p') || IsHole(First(pi, SegText(g) + p'))
  {
    if g.Numbered? {
      assert g.digits + (p' + x) == (g.digits + p') + x;
      NumberedFits(pi, g.digits, p' + x);
      DigitRunShrink(g.digits + p', x);
      NumberedFits(pi, g.digits, p');
    } else if g.Positional? {
      assert SpecialLen("?" + p') == 0;
    } else if g == Plain(':') {
      ColonPlain(pi, p' + x);
      ColonStable(pi, p');
      assert ":" + p' == [':'] + p';
      assert (":" + p')[1..] == p' && SpecialLen(":" + p') == 0;
    } else {
      if IsString(g) && p' + x != "" { StringThenQuote(pi, g, p' + x); }
      SegmentStable(g, pi, pi, p' + x, p');
    }
  }

  lemma HoleInside(g: Segment, p: string, w: string, more: string)
    requires IsHole(g) && (g.Numbered? ==> DigitRun(g.digits) == |g.digits| > 0)
    requires SegText(g) + more == p + w && AllSpace(w) && p != ""
    ensures |SegText(g)| <= |p|
  {
    var t := SegText(g);
    assert g.Numbered? ==> t[|t| - 1] == g.digits[|g.digits| - 1];
    assert (p + w)[|t| - 1] == t[|t| - 1] && !IsSpace(t[|t| - 1]);
    assert forall k :: |p| <= k < |p + w| ==> (p + w)[k] == w[k - |p|];
  }

  lemma HoleAtHead(pi: bool, p: string)
    requires p != "" && IsHole(First(pi, p))
    ensures HasHole(Lex(pi, p))
  {
    assert First(pi, p) in Lex(pi, p);
  }

  lemma HoleFurtherOn(pi: bool, g: Segment, p': string)
    requires Fits(pi, g, p') && HasHole(Lex(EndsIdent(g), p'))
    ensures HasHole(Lex(pi, SegText(g) + p'))
  {
    LexCons(pi, g, p');
    assert forall h :: h in Lex(EndsIdent(g), p') ==> h in Lex(pi, SegText(g) + p');
  }

  lemma NumberedNotEmpty(pi: bool, g: Segment, rest: string)
    requires Fits(pi, g, rest) && g.Numbered?
    ensures g.digits != ""
  {
    NumberedFits(pi, g.digits, rest);
  }

  lemma HoleHead(a: seq<Segment>)
    requires a != []
    ensures HasHole(a) <==> IsHole(a[0]) || HasHole(a[1..])
  {
    assert forall h :: h in a <==> h == a[0] || h in a[1..];
  }

  lemma TailSpace(t: string, more: string, p: string, w: string)
    requires t + more == p + w && AllSpace(w) && |t| >= |p|
    ensures AllSpace(more)
  {
    assert forall i :: 0 <= i < |more| ==> more[i] == (t + more)[|t| + i] == w[|t| + i - |p|];
  }

  lemma CutHead(t: string, more: string, p: string, w: string)
    requires t + more == p + w && |t| <= |p|
    ensures p == t + p[|t|..] && more == p[|t|..] + w
  {
    assert p[..|t|] == (p + w)[..|t|] == t;
    assert more == (p + w)[|t|..];
  }

  /** A placeholder in the text p w, read in context, is one in p alone. */
  lemma {:induction false} HoleStays(pi: bool, a: seq<Segment>, p: string, w: string, x: string)
    requires Wellformed(a) && Reads(pi, a, x) && Spell(a) == p + w && AllSpace(w) && HasHole(a)
    ensures HasHole(Lex(pi, p))
    decreases |a|
  {
    var g, more := a[0], a[1..];
    var t := SegText(g);
    HoleHead(a);
    MoreWellformed(a);
    if p == "" {
      SpaceNoHole(a);
    } else {
      if g.Numbered? { NumberedNotEmpty(pi, g, Spell(more) + x); }
      if IsHole(g) { HoleInside(g, p, w, Spell(more)); }
      if |t| > |p| {
        TailSpace(t, Spell(more), p, w);
        SpaceNoHole(more);
      } else {
        CutHead(t, Spell(more), p, w);
        var p' := p[|t|..];
        if HasHole(more) { HoleStays(EndsIdent(g), more, p', w, x); }
        AppendAssoc(p', w, x);
        HoleOneStep(pi, g, HasHole(more), p', w + x);
      }
    }
  }

  lemma HoleOneStep(pi: bool, g: Segment, later: bool, p': string, x: string)
    requires Fits(pi, g, p' + x) && (g.Numbered? ==> DigitRun(g.digits) == |g.digits|)
    requires IsHole(g) || later
    requires later ==> HasHole(Lex(EndsIdent(g), p'))
    ensures HasHole(Lex(pi, SegText(g) + p'))
  {
    HeadSame(pi, g, p', x);
    if IsHole(First(pi, SegText(g) + p')) {
      HoleAtHead(pi, SegText(g) + p');
    } else {
      HoleFurtherOn(pi, g, p');
    }
  }

  // ---- The shape of an accepted statement ----

  lemma SemicolonShape(s: string) returns (semi: string)
    ensures s == StripSemicolon(s) + semi && Trailer(semi)
  {
    semi := s[|StripSemicolon(s)|..];
  }

  lemma TrailerAppend(a: string, b: string)
    requires Trailer(a) && Trailer(b)
    ensures Trailer(a + b)
  {
  }

  lemma CoreShape(sql: string) returns (l: string, r: string)
    ensures sql == l + Core(sql) + r && AllSpace(l) && Trailer(r)
  {
    var l1, r1 := TrimShape(sql);
    var semi := SemicolonShape(Trim(sql));
    var l2, r2 := TrimShape(StripSemicolon(Trim(sql)));
    l, r := l1 + l2, r2 + (semi + r1);
    TrailerAppend(semi, r1);
    TrailerAppend(r2, semi + r1);
    Regroup(l1, l2, Core(sql), r2, semi, r1);
  }

  lemma Regroup(a: string, b: string, c: string, d: string, e: string, f: string)
    ensures a + ((b + c + d) + e) + f == (a + b) + c + (d + (e + f))
  {
  }

  lemma CoreStart(sql: string)
    ensures Core(sql) != "" ==> !IsSpace(Core(sql)[0])
  {
  }

  predicate Trailer(z: string) {
    forall i :: 0 <= i < |z| ==> IsSpace(z[i]) || z[i] == ';'
  }

  /** s is an INSERT whose VALUES keyword stands at position at. */
  ghost predicate Accepted(s: string, at: nat, prefix: string, tuple: string) {
    && FindValues(s, Scan(s), 0, 0) == Some(at)
    && prefix == Trim(s[..at]) && tuple == Trim(s[at + 6..])
    && tuple != "" && tuple[0] == '(' && Balanced(Scan(tuple), 0)
    && !HasHole(Lex(false, prefix))
    && !IsSpace(s[0])
  }

  lemma SplitAccepts(sql: string) returns (at: nat)
    requires Split(sql).Some?
    ensures Accepted(Core(sql), at, Split(sql).value.0, Split(sql).value.1)
  {
    var s := Core(sql);
    at := FindValues(s, Scan(s), 0, 0).value;
    CoreStart(sql);
    CutAccepts(Trim(s[..at]), Trim(s[at + 6..]));
  }

  lemma CutAccepts(prefix: string, tuple: string)
    requires CutAt(prefix, tuple).Some?
    ensures CutAt(prefix, tuple) == Some((prefix, tuple))
    ensures tuple != "" && tuple[0] == '(' && Balanced(Scan(tuple), 0) && !HasHole(Lex(false, prefix))
  {
  }

  lemma KeywordInert(s: string, at: nat)
    requires at < |s| && KeywordAt(s, at)
    ensures AllInert(s[at..at + 6])
  {
  }

  lemma SpaceInert(l: string)
    requires Trailer(l)
    ensures AllInert(l)
  {
  }

  lemma HeadPiece(s: string, at: nat) returns (space: string)
    requires at < |s| && !IsSpace(s[0])
    ensures s[..at] == Trim(s[..at]) + space && AllSpace(space)
  {
    var l;
    l, space := TrimShape(s[..at]);
    assert at > 0 ==> s[..at][0] == s[0];
    assert l == "" && "" + Trim(s[..at]) == Trim(s[..at]);
  }

  lemma KeywordPiece(s: string, at: nat) returns (keyword: string, tail: string)
    requires at < |s| && KeywordAt(s, at)
    ensures s[at..] == keyword + Trim(s[at + 6..]) + tail && AllInert(keyword) && AllSpace(tail)
  {
    var rest := s[at + 6..];
    var l;
    l, tail := TrimShape(rest);
    keyword := s[at..at + 6] + l;
    KeywordInert(s, at);
    SpaceInert(l);
    InertAppend(s[at..at + 6], l);
    Regroup4(s[at..at + 6], l, Trim(rest), tail);
    assert s[at..] == s[at..at + 6] + rest;
  }

  lemma InertAppend(a: string, b: string)
    requires AllInert(a) && AllInert(b)
    ensures AllInert(a + b)
  {
  }

  lemma Regroup4(a: string, b: string, c: string, d: string)
    ensures (a + b) + c + d == a + (b + c + d)
  {
  }

  /** An accepted statement is prefix, keyword, tuple and the space around them. */
  lemma Pieces(s: string, at: nat, prefix: string, tuple: string)
      returns (space: string, keyword: string, tail: string)
    requires Accepted(s, at, prefix, tuple)
    ensures s[..at] == prefix + space && AllSpace(space)
    ensures s[at..] == keyword + tuple + tail && AllInert(keyword) && AllSpace(tail)
  {
    space := HeadPiece(s, at);
    keyword, tail := KeywordPiece(s, at);
  }

  // ---- Substituting a row into the whole statement ----

  lemma {:induction false} RenderedPlainHead(a: seq<Segment>, b: seq<Segment>, next: nat, lookup: Lookup)
    requires !HasHole(a) && Wellformed(b)
    ensures Wellformed(a + b) && Rendered(a + b, next, lookup) == Join(Ok(Spell(a)), Rendered(b, next, lookup))
  {
    if a == [] {
      assert a + b == b;
      JoinUnit(Rendered(b, next, lookup));
    } else {
      HoleHead(a);
      assert (a + b)[1..] == a[1..] + b;
      RenderedPlainHead(a[1..], b, next, lookup);
      PrependWellformed(a[0], a[1..] + b);
      assert a + b == [a[0]] + (a[1..] + b);
      JoinAppend(Ok(SegText(a[0])), Ok(Spell(a[1..])), Rendered(b, next, lookup));
    }
  }

  lemma PrependWellformed(g: Segment, segs: seq<Segment>)
    requires Wellformed(segs) && !IsHole(g)
    ensures Wellformed([g] + segs)
  {
  }

  lemma {:induction false} RenderedPlainTail(a: seq<Segment>, b: seq<Segment>, next: nat, lookup: Lookup)
    requires Wellformed(a) && !HasHole(b)
    ensures Wellformed(a + b) && Rendered(a + b, next, lookup) == Join(Rendered(a, next, lookup), Ok(Spell(b)))
  {
    if a == [] {
      RenderedPlainHead(b, [], next, lookup);
      assert b + [] == b == a + b;
      JoinUnit(Ok(Spell(b)));
    } else {
      MoreWellformed(a);
      assert (a + b)[1..] == a[1..] + b;
      RenderedPlainTail(a[1..], b, After(a[0], next), lookup);
      assert forall i :: 0 < i < |a + b| ==> (a + b)[i] == (a[1..] + b)[i - 1];
      JoinAppend(Piece(a[0], next, lookup), Rendered(a[1..], After(a[0], next), lookup), Ok(Spell(b)));
    }
  }

  lemma {:induction false} PlainsNoHole(t: string)
    ensures !HasHole(Plains(t))
  {
    if t != "" {
      PlainsNoHole(t[1..]);
      assert Plains(t)[1..] == Plains(t[1..]);
      HoleHead(Plains(t));
    }
  }

  lemma HeadWhole(pi: bool, head: seq<Segment>, more: seq<Segment>, text: string)
    requires Reads(pi, head, text) && Spell(more) == text && Reads(EndIdent(pi, head), more, "")
    ensures Reads(pi, head + more, "") && Spell(head + more) == Spell(head) + text
  {
    SpellAppend(head, more);
    assert text + "" == text;
    ReadsAppend(pi, head, more, "");
  }

  /** more is a reading of text wherever the scanner comes from. */
  ghost predicate ReadsAnywhere(more: seq<Segment>, text: string) {
    Spell(more) == text && forall pi :: Reads(pi, more, "")
  }

  lemma TupleWhole(tuple: string, tail: string)
    requires tuple != "" && tuple[0] == '(' && Balanced(Scan(tuple), 0) && AllInert(tail)
    ensures ReadsAnywhere(Lex(false, tuple) + Plains(tail), tuple + tail)
  {
    var t, z := Lex(false, tuple), Plains(tail);
    InertReads(false, tail, "");
    forall pi ensures Reads(pi, t + z, "") && Spell(t + z) == tuple + tail {
      TupleReads(pi, tuple, tail);
      InertReads(EndIdent(pi, t), tail, "");
      HeadWhole(pi, t, z, tail);
    }
    SpellAppend(t, z);
    TupleReads(false, tuple, tail);
  }

  lemma InertWhole(u: string, more: seq<Segment>, text: string)
    requires AllInert(u) && ReadsAnywhere(more, text)
    ensures ReadsAnywhere(Plains(u) + more, u + text)
  {
    forall pi ensures Reads(pi, Plains(u) + more, "") {
      InertReads(pi, u, text);
      HeadWhole(pi, Plains(u), more, text);
    }
    SpellAppend(Plains(u), more);
    InertReads(false, u, text);
  }

  /** A reading of the whole statement, put together from those of its pieces. */
  ghost function Whole(lead: string, head: seq<Segment>, keyword: string, tuple: string, tail: string): seq<Segment> {
    Plains(lead) + (head + (Plains(keyword) + (Lex(false, tuple) + Plains(tail))))
  }

  lemma WholeReads(lead: string, head: seq<Segment>, keyword: string, tuple: string, tail: string)
    requires AllSpace(lead) && AllInert(keyword) && AllInert(tail)
    requires Reads(false, head, keyword + (tuple + tail))
    requires tuple != "" && tuple[0] == '(' && Balanced(Scan(tuple), 0)
    ensures Reads(false, Whole(lead, head, keyword, tuple, tail), "")
    ensures Spell(Whole(lead, head, keyword, tuple, tail)) == lead + (Spell(head) + (keyword + (tuple + tail)))
  {
    TupleWhole(tuple, tail);
    InertWhole(keyword, Lex(false, tuple) + Plains(tail), tuple + tail);
    LeadWhole(lead, head, Plains(keyword) + (Lex(false, tuple) + Plains(tail)), keyword + (tuple + tail));
  }

  lemma LeadWhole(lead: string, head: seq<Segment>, more: seq<Segment>, text: string)
    requires AllSpace(lead) && Reads(false, head, text) && ReadsAnywhere(more, text)
    ensures Reads(false, Plains(lead) + (head + more), "")
    ensures Spell(Plains(lead) + (head + more)) == lead + (Spell(head) + text)
  {
    HeadWhole(false, head, more, text);
    SpaceInert(lead);
    InertReads(false, lead, Spell(head + more));
    HeadWhole(false, Plains(lead), head + more, Spell(head + more));
  }

  lemma RenderedWhole(
      lead: string, head: seq<Segment>, keyword: string, tuple: string, tail: string, lookup: Lookup)
    requires !HasHole(head)
    ensures Wellformed(Whole(lead, head, keyword, tuple, tail)) && Wellformed(Lex(false, tuple))
    ensures Rendered(Whole(lead, head, keyword, tuple, tail), 1, lookup) ==
              Join(Ok(lead + Spell(head) + keyword), Join(Rendered(Lex(false, tuple), 1, lookup), Ok(tail)))
  {
    var t := Lex(false, tuple);
    LexWellformed(false, tuple);
    PlainsNoHole(lead);
    PlainsNoHole(keyword);
    PlainsNoHole(tail);
    PlainsSpell(lead);
    PlainsSpell(keyword);
    PlainsSpell(tail);
    var m1 := t + Plains(tail);
    RenderedPlainTail(t, Plains(tail), 1, lookup);
    RenderedPlainHead(Plains(keyword), m1, 1, lookup);
    RenderedPlainHead(head, Plains(keyword) + m1, 1, lookup);
    RenderedPlainHead(Plains(lead), head + (Plains(keyword) + m1), 1, lookup);
    var r := Join(Rendered(t, 1, lookup), Ok(tail));
    JoinAppend(Ok(lead + Spell(head)), Ok(keyword), r);
    JoinAppend(Ok(lead), Ok(Spell(head)), Join(Ok(keyword), r));
  }

  lemma HeadHasNoHole(prefix: string, space: string, head: seq<Segment>, x: string)
    requires Wellformed(head) && Reads(false, head, x) && Spell(head) == prefix + space && AllSpace(space)
    requires !HasHole(Lex(false, prefix))
    ensures !HasHole(head)
  {
    if HasHole(head) { HoleStays(false, head, prefix, space, x); }
  }

  lemma PrefixWellformed(head: seq<Segment>, segs: seq<Segment>)
    requires head <= segs && Wellformed(segs)
    ensures Wellformed(head)
  {
    forall i | 0 <= i < |head| && head[i].Numbered? ensures DigitRun(head[i].digits) == |head[i].digits| {
      assert head[i] == segs[i];
    }
  }

  /** Folding is faithful: for one fixed text before and one fixed text after the
      tuple, every row's statement is exactly that text around the tuple that
      Expand substitutes for the row, and one fails exactly when the other does. */
  lemma RowsAreFaithful(sql: string) returns (before: string, after: string)
    requires Split(sql).Some?
    ensures sql == before + Split(sql).value.1 + after
    ensures forall row: Bindings, lib :: row != map[] ==>
              Substituted(sql, row, lib) ==
                Join(Ok(before), Join(Substituted(Split(sql).value.1, row, lib), Ok(after)))
  {
    var l, r := CoreShape(sql);
    var at := SplitAccepts(sql);
    before, after := AcceptedRows(l, Core(sql), r, at, Split(sql).value.0, Split(sql).value.1);
  }

  lemma AcceptedRows(l: string, s: string, r: string, at: nat, prefix: string, tuple: string)
      returns (before: string, after: string)
    requires AllSpace(l) && Trailer(r) && Accepted(s, at, prefix, tuple)
    ensures l + s + r == before + tuple + after
    ensures forall row: Bindings, lib :: row != map[] ==>
              Substituted(l + s + r, row, lib) == Join(Ok(before), Join(Substituted(tuple, row, lib), Ok(after)))
  {
    var space, keyword, tail := Pieces(s, at, prefix, tuple);
    var head := HeadReads(s, r);
    after := tail + r;
    TrailerAppend(tail, r);
    SpaceInert(after);
    TextAround(l, s, r, at, keyword, tuple, tail);
    LexWellformed(false, s);
    PrefixWellformed(head, Lex(false, s));
    HeadHasNoHole(prefix, space, head, s[at..] + r);
    before := l + Spell(head) + keyword;
    LexIsWhole(l, head, keyword, tuple, after);
    forall row: Bindings, lib | row != map[]
      ensures Substituted(l + s + r, row, lib) == Join(Ok(before), Join(Substituted(tuple, row, lib), Ok(after)))
    {
      RenderedWhole(l, head, keyword, tuple, after, LookupIn(row, lib));
    }
  }

  lemma TextAround(l: string, s: string, r: string, at: nat, keyword: string, tuple: string, tail: string)
    requires at <= |s| && s[at..] == keyword + tuple + tail
    ensures s[at..] + r == keyword + (tuple + (tail + r))
    ensures l + s + r == l + (s[..at] + (keyword + (tuple + (tail + r))))
    ensures l + s + r == (l + s[..at] + keyword) + tuple + (tail + r)
  {
    assert s == s[..at] + s[at..];
  }

  lemma LexIsWhole(lead: string, head: seq<Segment>, keyword: string, tuple: string, after: string)
    requires AllSpace(lead) && AllInert(keyword) && AllInert(after)
    requires Reads(false, head, keyword + (tuple + after))
    requires tuple != "" && tuple[0] == '(' && Balanced(Scan(tuple), 0)
    ensures Lex(false, lead + (Spell(head) + (keyword + (tuple + after)))) == Whole(lead, head, keyword, tuple, after)
  {
    WholeReads(lead, head, keyword, tuple, after);
    var w := Whole(lead, head, keyword, tuple, after);
    ReadsIsLex(false, w, "");
    assert Spell(w) + "" == Spell(w) && w + [] == w;
  }
}

/** Folding is faithful: the tuple that Expand writes for a row is exactly the
    piece that substituting that row into the whole statement would produce. */
module RowByRow {
  import opened Text
  import opened Scanner
  import opened Literals
  import opened Substitution
  import opened Structure
  import opened Bulk

  // ---- Text the scanner passes one character at a time ----

  predicate Inert(c: char) {
    c !in {'\'', '"', '$', '/', '-', '?', ':'}
  }

  predicate AllInert(u: string) {
    forall i :: 0 <= i < |u| ==> Inert(u[i])
  }

  lemma InertFits(pi: bool, c: char, rest: string)
    requires Inert(c)
    ensures Fits(pi, Plain(c), rest)
  {
    assert SpecialLen([c] + rest) == 0;
  }

  lemma {:induction false} InertReads(pi: bool, u: string, tail: string)
    requires AllInert(u)
    ensures Reads(pi, Plains(u), tail) && Spell(Plains(u)) == u
    ensures EndIdent(pi, Plains(u)) == if u == "" then pi else IsIdentChar(u[|u| - 1])
    decreases |u|
  {
    if u != "" {
      InertFits(pi, u[0], u[1..] + tail);
      InertReads(IsIdentChar(u[0]), u[1..], tail);
    }
  }

  lemma DigitRunExtend(a: string, z: string)
    requires DigitRun(a) < |a|
    ensures DigitRun(a + z) == DigitRun(a)
    ensures LooksNumbered(a + z) == LooksNumbered(a)
  {
    if DigitRun(a) > 0 {
      DigitRunExtend(a[1..], z);
      assert (a + z)[1..] == a[1..] + z;
    }
  }

  predicate NonDigit(s: string) {
    DigitRun(s) < |s|
  }

  lemma NonDigitAt(s: string, k: nat)
    requires k < |s| && !IsDigit(s[k])
    ensures NonDigit(s)
  {
  }

  lemma NonDigitAppend(d: string, rest: string)
    requires NonDigit(rest)
    ensures NonDigit(d + rest)
  {
    var k := DigitRun(rest);
    assert (d + rest)[|d| + k] == rest[k];
    NonDigitAt(d + rest, |d| + k);
  }

  lemma NumberedFits(pi: bool, d: string, rest: string)
    ensures Fits(pi, Numbered(d), rest) <==>
            var a := d + rest;
            (a == "" || a[0] != ':') && LooksNumbered(a) && !pi && DigitRun(a) == |d|
  {
    var a := d + rest;
    var s := (":" + d) + rest;
    assert s == ":" + a && s[1..] == a && SpecialLen(s) == 0;
    assert a[..|d|] == d;
  }

  lemma ExtendNumbered(pi: bool, d: string, rest: string, z: string)
    requires Fits(pi, Numbered(d), rest) && NonDigit(rest)
    ensures Fits(pi, Numbered(d), rest + z)
  {
    NumberedFits(pi, d, rest);
    NonDigitAppend(d, rest);
    NumberedExtends(d + rest, z, |d|);
    assert d + (rest + z) == (d + rest) + z;
    NumberedFits(pi, d, rest + z);
  }

  lemma NumberedExtends(a: string, z: string, n: nat)
    requires NonDigit(a) && (a == "" || a[0] != ':') && LooksNumbered(a) && DigitRun(a) == n
    ensures (a + z == "" || (a + z)[0] != ':') && LooksNumbered(a + z) && DigitRun(a + z) == n
  {
    DigitRunExtend(a, z);
  }

  lemma ExtendColon(pi: bool, rest: string, z: string)
    requires Fits(pi, Plain(':'), rest) && NonDigit(rest)
    ensures Fits(pi, Plain(':'), rest + z)
  {
    DigitRunExtend(rest, z);
    ColonPlain(pi, rest);
    ColonStable(pi, rest);
    ColonStable(pi, rest + z);
  }

  lemma ExtendFits(pi: bool, g: Segment, rest: string, z: string)
    requires Fits(pi, g, rest) && NonDigit(rest)
    ensures Fits(pi, g, rest + z)
  {
    if g.Numbered? {
      ExtendNumbered(pi, g.digits, rest, z);
    } else if g.Positional? {
      assert SpecialLen("?" + (rest + z)) == 0;
    } else if g == Plain(':') {
      ExtendColon(pi, rest, z);
    } else {
      if IsString(g) { StringThenQuote(pi, g, rest); }
      SegmentStable(g, pi, pi, rest, rest + z);
    }
  }

  /** A reading in front of a text that is not all digits is not disturbed by
      what comes after that text. */
  lemma {:induction false} ExtendRight(pi: bool, segs: seq<Segment>, w: string, z: string)
    requires Reads(pi, segs, w) && NonDigit(w)
    ensures Reads(pi, segs, w + z)
    decreases |segs|
  {
    if segs != [] {
      var g, more := segs[0], segs[1..];
      NonDigitAppend(Spell(more), w);
      ExtendFits(pi, g, Spell(more) + w, z);
      assert (Spell(more) + w) + z == Spell(more) + (w + z);
      ExtendRight(EndsIdent(g), more, w, z);
    }
  }

  // ---- The tuple ends in a plain closing parenthesis ----

  lemma {:induction false} BalancedPlains(t: string, more: seq<Segment>, depth: int)
    requires forall i :: 0 <= i < |t| ==> t[i] != '(' && t[i] != ')'
    ensures Balanced(Plains(t) + more, depth) == Balanced(more, depth)
  {
    if t == "" {
      assert Plains(t) + more == more;
    } else {
      assert (Plains(t) + more)[1..] == Plains(t[1..]) + more;
      BalancedPlains(t[1..], more, depth);
    }
  }

  /** Segments of more than one character contain no parenthesis and no letter. */
  lemma LongSegment(g: Segment)
    requires !g.Special? && !g.Plain? && (g.Numbered? ==> DigitRun(g.digits) == |g.digits|)
    ensures forall i :: 0 <= i < |SegText(g)| ==>
              var c := SegText(g)[i]; c != '(' && c != ')' && c != 'v' && c != 'V'
  {
    assert g.Numbered? ==> forall i :: 0 < i < |SegText(g)| ==> SegText(g)[i] == g.digits[i - 1];
  }

  lemma {:induction false} BalancedEnds(segs: seq<Segment>, depth: int)
    requires Wellformed(segs) && Balanced(Coarse(segs), depth) && depth > 0
    ensures segs != [] && segs[|segs| - 1] == Plain(')')
  {
    var g, more := segs[0], segs[1..];
    if g.Special? || g.Plain? {
      CoarseHead(segs);
      if g == Plain(')') && depth == 1 {
        if more != [] { CoarseNonEmpty(more); }
      } else {
        BalancedEnds(more, DepthAfter(depth, g));
      }
    } else {
      LongSegment(g);
      BalancedPlains(SegText(g), Coarse(more), depth);
      BalancedEnds(more, depth);
    }
  }

  lemma CoarseHead(segs: seq<Segment>)
    requires segs != [] && (segs[0].Special? || segs[0].Plain?)
    ensures Coarse(segs) == [segs[0]] + Coarse(segs[1..])
    ensures Coarse(segs)[1..] == Coarse(segs[1..])
  {
    if segs[0].Plain? { assert Plains(SegText(segs[0])) == [segs[0]]; }
  }

  lemma CoarseNonEmpty(segs: seq<Segment>)
    requires segs != []
    ensures Coarse(segs) != []
  {
    assert segs[0].Special? || SegText(segs[0]) != "";
  }

  lemma TupleEnds(tuple: string)
    requires tuple != "" && tuple[0] == '(' && Balanced(Scan(tuple), 0)
    ensures var t := Lex(false, tuple); t != [] && t[0] == Plain('(') && t[|t| - 1] == Plain(')')
  {
    var t := Reading(tuple);
    assert ['('] + tuple[1..] == tuple;
    InertFits(false, '(', tuple[1..]);
    assert t[0] == Plain('(');
    CoarseHead(t);
    BalancedEnds(t[1..], 1);
  }

  lemma ParenReads(pi: bool, t: seq<Segment>, z: string)
    requires t != [] && t[0] == Plain('(') && t[|t| - 1] == Plain(')')
    requires Reads(false, t, "")
    ensures Reads(pi, t, z)
  {
    var a, b := t[..|t| - 1], [Plain(')')];
    assert t == a + b;
    CloseReads(a, b, z);
    AnyContext(false, pi, t, z);
  }

  lemma CloseReads(a: seq<Segment>, b: seq<Segment>, z: string)
    requires b == [Plain(')')] && Reads(false, a + b, "")
    ensures Reads(false, a + b, z)
  {
    assert b == Plains(")") && ")" + "" == ")" && Spell(b) == ")";
    ReadsAppend(false, a, b, "");
    NonDigitAt(")", 0);
    ExtendRight(false, a, ")", z);
    InertReads(EndIdent(false, a), ")", z);
    ReadsAppend(false, a, b, z);
  }

  lemma TupleReads(pi: bool, tuple: string, z: string)
    requires tuple != "" && tuple[0] == '(' && Balanced(Scan(tuple), 0)
    ensures Reads(pi, Lex(false, tuple), z) && Spell(Lex(false, tuple)) == tuple
  {
    TupleEnds(tuple);
    LexReads(false, tuple);
    ParenReads(pi, Lex(false, tuple), z);
  }

  lemma AnyContext(pi: bool, pi': bool, t: seq<Segment>, z: string)
    requires Reads(pi, t, z) && t != [] && t[0] == Plain('(')
    ensures Reads(pi', t, z)
  {
    InertFits(pi', '(', Spell(t[1..]) + z);
  }

  // ---- VALUES is found where the scanner stands ----

  lemma {:induction false} FindPlains(s: string, t: string, more: seq<Segment>, i: nat, depth: int, j: nat)
    requires j == i + |t| && j + |Spell(more)| == |s| && t == s[i..j]
    requires forall k :: 0 <= k < |t| ==> t[k] != '(' && t[k] != ')' && t[k] != 'v' && t[k] != 'V'
    ensures i + |Spell(Plains(t) + more)| == |s|
    ensures FindValues(s, Plains(t) + more, i, depth) == FindValues(s, more, j, depth)
    decreases |t|
  {
    PlainsSpell(t);
    SpellAppend(Plains(t), more);
    if t == "" {
      assert Plains(t) + more == more;
    } else {
      var rest := Plains(t[1..]) + more;
      assert (Plains(t) + more)[1..] == rest;
      var next := i + 1;
      assert s[i] == t[0];
      KeywordIsNoParen(s, i);
      FindPlains(s, t[1..], more, next, depth, j);
    }
  }

  lemma FindOne(s: string, g: Segment, more: seq<Segment>, i: nat, depth: int, j: nat)
    requires i + |Spell([g] + more)| == |s| && j == i + |SegText(g)|
    ensures j + |Spell(more)| == |s|
    ensures FindValues(s, [g] + more, i, depth) == Some(i) ||
            FindValues(s, [g] + more, i, depth) == FindValues(s, more, j, DepthAfter(depth, g))
  {
    assert ([g] + more)[1..] == more;
  }

  lemma FindHead(s: string, g: Segment, more: seq<Segment>, c: seq<Segment>, i: nat, depth: int, j: nat)
    requires g.Numbered? ==> DigitRun(g.digits) == |g.digits|
    requires i <= |s| && SegText(g) + Spell(more) == s[i..] && j == i + |SegText(g)|
    requires c == (if g.Special? then [g] else Plains(SegText(g))) + more && i + |Spell(c)| == |s|
    ensures j + |Spell(more)| == |s|
    ensures FindValues(s, c, i, depth) == Some(i) ||
            FindValues(s, c, i, depth) == FindValues(s, more, j, DepthAfter(depth, g))
  {
    if g.Special? || g.Plain? {
      assert c == [g] + more;
      FindOne(s, g, more, i, depth, j);
    } else {
      FindLong(s, g, more, i, depth, j);
    }
  }

  lemma FindLong(s: string, g: Segment, more: seq<Segment>, i: nat, depth: int, j: nat)
    requires !g.Special? && !g.Plain? && (g.Numbered? ==> DigitRun(g.digits) == |g.digits|)
    requires i <= |s| && SegText(g) + Spell(more) == s[i..] && j == i + |SegText(g)|
    requires i + |Spell(Plains(SegText(g)) + more)| == |s|
    ensures j + |Spell(more)| == |s| && DepthAfter(depth, g) == depth
    ensures FindValues(s, Plains(SegText(g)) + more, i, depth) == FindValues(s, more, j, depth)
  {
    var t := SegText(g);
    assert s[i..j] == s[i..][..|t|] == t;
    LongSegment(g);
    FindPlains(s, t, more, i, depth, j);
  }

  lemma TailText(s: string, i: nat, t: string, more: string, j: nat)
    requires i <= |s| && s[i..] == t + more && j == i + |t|
    ensures j <= |s| && s[j..] == more
  {
    assert s[j..] == s[i..][|t|..];
  }

  /** segs is what is left of the scan for VALUES, which will succeed at position at. */
  ghost predicate Seeks(s: string, segs: seq<Segment>, i: nat, depth: int, at: nat) {
    && Wellformed(segs) && i <= |s| && Spell(segs) == s[i..]
    && i + |Spell(Coarse(segs))| == |s| && FindValues(s, Coarse(segs), i, depth) == Some(at)
  }

  lemma SeekOn(s: string, segs: seq<Segment>, i: nat, depth: int, at: nat, j: nat, depth': int)
    requires Seeks(s, segs, i, depth, at) && at != i && segs != []
    requires j == i + |SegText(segs[0])| && depth' == DepthAfter(depth, segs[0])
    ensures Seeks(s, segs[1..], j, depth', at)
  {
    var g, more := segs[0], segs[1..];
    CoarseSpell(more);
    TailText(s, i, SegText(g), Spell(more), j);
    FindHead(s, g, Coarse(more), Coarse(segs), i, depth, j);
    MoreWellformed(segs);
  }

  lemma MoreWellformed(segs: seq<Segment>)
    requires Wellformed(segs) && segs != []
    ensures Wellformed(segs[1..])
  {
  }

  /** The segments in front of the keyword. */
  lemma {:induction false} FindSplits(s: string, segs: seq<Segment>, i: nat, depth: int, at: nat)
      returns (head: seq<Segment>, tail: seq<Segment>)
    requires Seeks(s, segs, i, depth, at)
    ensures segs == head + tail && i + |Spell(head)| == at
    decreases |segs|
  {
    if at == i {
      head, tail := [], segs;
    } else {
      var j, depth' := i + |SegText(segs[0])|, DepthAfter(depth, segs[0]);
      SeekOn(s, segs, i, depth, at, j, depth');
      head, tail := FindSplits(s, segs[1..], j, depth', at);
      head := PrependSegment(segs, head, tail);
    }
  }

  lemma PrependSegment(segs: seq<Segment>, head: seq<Segment>, tail: seq<Segment>) returns (r: seq<Segment>)
    requires segs != [] && segs[1..] == head + tail
    ensures segs == r + tail && |Spell(r)| == |SegText(segs[0])| + |Spell(head)|
  {
    r := [segs[0]] + head;
    assert r[1..] == head;
  }

  lemma HeadSplit(s: string) returns (head: seq<Segment>, tail: seq<Segment>)
    requires FindValues(s, Scan(s), 0, 0).Some?
    ensures var at := FindValues(s, Scan(s), 0, 0).value;
      Lex(false, s) == head + tail && Spell(head) == s[..at] && Spell(tail) == s[at..]
  {
    var segs := Reading(s);
    LexReads(false, s);
    assert s[0..] == s;
    CoarseSpell(segs);
    head, tail := FindSplits(s, segs, 0, 0, FindValues(s, Scan(s), 0, 0).value);
    SpellAppend(head, tail);
    assert s == Spell(head) + Spell(tail);
  }

  /** The text before VALUES is read the same whatever follows the statement. */
  lemma HeadReads(s: string, z: string) returns (head: seq<Segment>)
    requires FindValues(s, Scan(s), 0, 0).Some?
    ensures var at := FindValues(s, Scan(s), 0, 0).value;
      head <= Lex(false, s) && Spell(head) == s[..at] && Reads(false, head, s[at..] + z)
  {
    var at := FindValues(s, Scan(s), 0, 0).value;
    var tail;
    head, tail := HeadSplit(s);
    LexReads(false, s);
    ReadsAppend(false, head, tail, "");
    assert s[at..] + "" == s[at..];
    KeywordIsNoParen(s, at);
    NonDigitAt(s[at..], 0);
    ExtendRight(false, head, s[at..], z);
  }
}

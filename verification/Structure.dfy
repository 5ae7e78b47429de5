/** Whether bound data can change the structure of a statement: the templates
    for which it never can, exactly. */
module Structure {
  import opened Text
  import opened Scanner
  import opened Literals
  import opened Substitution

  /** Neighbours that a text literal on one of the two sides would merge with:
      two adjoining quotes are read as one escaped quote. */
  predicate Clash(a: Segment, b: Segment) {
    (IsHole(a) || IsHole(b)) && (IsHole(a) || IsString(a)) && (IsHole(b) || IsString(b))
  }

  predicate SafeQuotes(segs: seq<Segment>) {
    |segs| < 2 || (!Clash(segs[0], segs[1]) && SafeQuotes(segs[1..]))
  }

  predicate FixedIdent(prev: Option<Segment>) {
    prev.Some? && !IsHole(prev.value) && EndsIdent(prev.value)
  }

  /** A lone colon in front of segs: it must not be able to become the start of
      a numbered placeholder. */
  predicate SafeColon(prev: Option<Segment>, segs: seq<Segment>) {
    && (segs != [] && IsHole(segs[0]) ==> FixedIdent(prev))
    && (prev.Some? && prev.value.Numbered? ==> !LooksNumbered(Spell(segs)))
  }

  predicate SafeColons(prev: Option<Segment>, segs: seq<Segment>)
    decreases |segs|
  {
    segs == [] ||
    ((segs[0] == Plain(':') ==> SafeColon(prev, segs[1..])) && SafeColons(Some(segs[0]), segs[1..]))
  }

  /** No placeholder adjoins a single-quoted string or another placeholder; no
      colon stands before a placeholder unless an identifier character of the
      template itself stands before it; and no ":N" that is inert only because
      it follows a numbered placeholder. */
  predicate SafeTemplate(sql: string) {
    SafeQuotes(Lex(false, sql)) && SafeColons(None, Lex(false, sql))
  }

  // ---- Safe templates keep their structure ----

  lemma ReadsHead(pi: bool, segs: seq<Segment>)
    requires Reads(pi, segs, "") && segs != []
    ensures Spell(segs) == SegText(segs[0]) + Spell(segs[1..])
    ensures SegText(segs[0]) != "" && Spell(segs) != "" && Spell(segs)[0] == SegText(segs[0])[0]
    ensures Fits(pi, segs[0], Spell(segs[1..])) && Reads(EndsIdent(segs[0]), segs[1..], "")
  {
    assert Spell(segs[1..]) + "" == Spell(segs[1..]);
  }

  lemma StringThenQuote(pi: bool, g: Segment, rest: string)
    requires Fits(pi, g, rest) && IsString(g) && rest != ""
    ensures rest[0] != '\''
  {
    var s := SegText(g) + rest;
    assert s[1..] == g.text[1..] + rest;
    QuotedClosed(g.text[1..], '\'', rest, rest);
  }

  lemma QuoteIsString(pi: bool, g: Segment, rest: string)
    requires Fits(pi, g, rest)
    ensures SegText(g)[0] == '\'' ==> IsString(g)
    ensures IsIdentChar(SegText(g)[0]) && IsDigit(SegText(g)[0]) ==> g == Plain(SegText(g)[0])
    ensures SegText(g)[0] == '?' || IsHole(g) ==> !IsIdentChar(SegText(g)[0])
  {
  }

  ghost predicate SealedFill(segs: seq<Segment>, next: nat, lookup: Lookup)
    requires Wellformed(segs)
  {
    forall k :: k in Indices(segs, next) ==> SelfContained(LitText(lookup(k)))
  }

  /** What the filled template starts with. */
  lemma FilledHead(pi: bool, segs: seq<Segment>, next: nat, lookup: Lookup)
    requires Wellformed(segs) && Reads(pi, segs, "") && SealedFill(segs, next, lookup)
    ensures SameStart(Spell(segs), Spell(Filled(segs, next, lookup)))
    ensures segs != [] && !IsHole(segs[0]) ==>
              Spell(Filled(segs, next, lookup)) ==
              SegText(segs[0]) + Spell(Filled(segs[1..], next, lookup))
    ensures segs != [] && IsHole(segs[0]) ==>
              var lit := LitText(lookup(HoleIndex(segs[0], next)));
              && SelfContained(lit)
              && Spell(Filled(segs, next, lookup)) == lit + Spell(Filled(segs[1..], After(segs[0], next), lookup))
  {
    if segs != [] {
      ReadsHead(pi, segs);
      var more := Filled(segs[1..], After(segs[0], next), lookup);
      if IsHole(segs[0]) {
        var k := HoleIndex(segs[0], next);
        assert k in Indices(segs, next);
        SpellAppend(Lex(false, LitText(lookup(k))), more);
      } else {
        SpellAppend([segs[0]], more);
        assert Spell([segs[0]]) == SegText(segs[0]) + Spell([]);
      }
    }
  }

  /** Digits, then an identifier character. */
  predicate DigitsThenIdent(s: string) {
    DigitRun(s) < |s| && IsIdentChar(s[DigitRun(s)])
  }

  lemma OneDigit(c: char, s: string)
    requires IsDigit(c)
    ensures DigitsThenIdent([c] + s) <==> DigitsThenIdent(s)
  {
    assert ([c] + s)[1..] == s;
  }

  lemma {:induction false} DigitsThenIdentKept(pi: bool, segs: seq<Segment>, next: nat, lookup: Lookup)
    requires Wellformed(segs) && Reads(pi, segs, "") && SealedFill(segs, next, lookup)
    requires DigitsThenIdent(Spell(segs))
    ensures DigitsThenIdent(Spell(Filled(segs, next, lookup)))
    decreases |segs|
  {
    ReadsHead(pi, segs);
    FilledHead(pi, segs, next, lookup);
    QuoteIsString(pi, segs[0], Spell(segs[1..]));
    var c := Spell(segs)[0];
    if IsDigit(c) {
      assert segs[0] == Plain(c);
      OneDigit(c, Spell(segs[1..]));
      DigitsThenIdentKept(EndsIdent(segs[0]), segs[1..], next, lookup);
      OneDigit(c, Spell(Filled(segs[1..], next, lookup)));
    } else {
      assert !IsHole(segs[0]);
    }
  }

  /** The prefix condition relating the two readings: what stands before. */
  ghost predicate Agree(prev: Option<Segment>, pi: bool, pi': bool) {
    match prev
    case None => !pi && !pi'
    case Some(g) => pi == EndsIdent(g) && (!IsHole(g) ==> pi' == pi)
  }

  lemma ColonKept(prev: Option<Segment>, pi: bool, pi': bool, segs: seq<Segment>, next: nat, lookup: Lookup)
    requires Wellformed(segs) && Reads(false, segs, "") && SealedFill(segs, next, lookup)
    requires Fits(pi, Plain(':'), Spell(segs)) && Agree(prev, pi, pi') && SafeColon(prev, segs)
    ensures Fits(pi', Plain(':'), Spell(Filled(segs, next, lookup)))
  {
    var rest, rest' := Spell(segs), Spell(Filled(segs, next, lookup));
    FilledHead(false, segs, next, lookup);
    ColonPlain(pi, rest);
    ColonStable(pi, rest);
    assert rest' != "" ==> rest'[0] != ':';
    ColonStable(pi', rest');
    if !pi' {
      assert !LooksNumbered(rest);
      if DigitsThenIdent(rest) {
        DigitsThenIdentKept(false, segs, next, lookup);
      } else {
        assert DigitRun(rest) == 0;
        assert !(segs != [] && IsHole(segs[0]));
        assert DigitRun(rest') == 0;
      }
    }
  }

  lemma HoleKept(pi: bool, pi': bool, segs: seq<Segment>, next: nat, lookup: Lookup)
    requires Wellformed(segs) && segs != [] && IsHole(segs[0]) && Reads(pi, segs, "")
    requires SafeQuotes(segs) && SealedFill(segs, next, lookup)
    ensures var lit := LitText(lookup(HoleIndex(segs[0], next)));
      Reads(pi', Lex(false, lit), Spell(Filled(segs[1..], After(segs[0], next), lookup)))
  {
    ReadsHead(pi, segs);
    FilledHead(pi, segs, next, lookup);
    var more := segs[1..];
    assert Wellformed(more) && SealedFill(more, After(segs[0], next), lookup);
    FilledHead(EndsIdent(segs[0]), more, After(segs[0], next), lookup);
    if more != [] {
      ReadsHead(EndsIdent(segs[0]), more);
      QuoteIsString(EndsIdent(segs[0]), more[0], Spell(more[1..]));
      assert !Clash(segs[0], segs[1]);
    }
  }

  lemma OtherKept(pi: bool, pi': bool, segs: seq<Segment>, next: nat, lookup: Lookup)
    requires Wellformed(segs) && segs != [] && !IsHole(segs[0]) && Reads(pi, segs, "")
    requires segs[0] != Plain(':') && SafeQuotes(segs) && SealedFill(segs, next, lookup)
    ensures Fits(pi', segs[0], Spell(Filled(segs[1..], next, lookup)))
  {
    ReadsHead(pi, segs);
    var g, more := segs[0], segs[1..];
    assert Wellformed(more) && SealedFill(more, next, lookup);
    FilledHead(EndsIdent(g), more, next, lookup);
    var rest, rest' := Spell(more), Spell(Filled(more, next, lookup));
    if IsString(g) && more != [] {
      ReadsHead(EndsIdent(g), more);
      StringThenQuote(pi, g, rest);
      assert !Clash(segs[0], segs[1]);
    }
    SegmentStable(g, pi, pi', rest, rest');
  }

  /** A safe template, filled with self-contained literals, is read back as its
      own segments with every placeholder replaced by its literal's segments. */
  lemma {:induction false} FilledReads(
      prev: Option<Segment>, pi: bool, pi': bool, segs: seq<Segment>, next: nat, lookup: Lookup)
    requires Wellformed(segs) && Reads(pi, segs, "") && Agree(prev, pi, pi')
    requires SafeQuotes(segs) && SafeColons(prev, segs) && SealedFill(segs, next, lookup)
    ensures Reads(pi', Filled(segs, next, lookup), "")
    decreases |segs|
  {
    if segs != [] {
      var g, more := segs[0], segs[1..];
      var next' := After(g, next);
      ReadsHead(pi, segs);
      assert Wellformed(more) && SealedFill(more, next', lookup);
      var tail := Filled(more, next', lookup);
      assert Spell(tail) + "" == Spell(tail);
      if IsHole(g) {
        var lit := Lex(false, LitText(lookup(HoleIndex(g, next))));
        HoleKept(pi, pi', segs, next, lookup);
        FilledReads(Some(g), EndsIdent(g), EndIdent(pi', lit), more, next', lookup);
        ReadsAppend(pi', lit, tail, "");
      } else {
        if g == Plain(':') {
          ColonKept(prev, pi, pi', more, next, lookup);
        } else {
          OtherKept(pi, pi', segs, next, lookup);
        }
        FilledReads(Some(g), EndsIdent(g), EndsIdent(g), more, next, lookup);
        assert Filled(segs, next, lookup) == [g] + tail;
        assert Filled(segs, next, lookup)[1..] == tail;
      }
    }
  }

  // ---- Unsafe templates do not ----

  /** The same literal at every placeholder. */
  function Everywhere(t: string): Lookup {
    (k: nat) => Ok(t)
  }

  /** If the filled template is read as intended, so is its tail, and its head fits. */
  lemma SplitFilled(pi: bool, head: seq<Segment>, tail: seq<Segment>)
    requires Lex(pi, Spell(head + tail)) == head + tail
    ensures Lex(EndIdent(pi, head), Spell(tail)) == tail
    ensures |head| == 1 ==> Fits(pi, head[0], Spell(tail))
  {
    LexTail(pi, head, tail);
    if |head| == 1 {
      assert (head + tail)[1..] == tail;
      assert Spell(tail) + "" == Spell(tail);
    }
  }

  lemma {:induction false} QuoteBreaks(
      pi: bool, pi': bool, segs: seq<Segment>, next: nat, t: string)
    requires Wellformed(segs) && Reads(pi, segs, "") && !SafeQuotes(segs)
    requires Lex(false, t) == [Special(t)] && SelfContained(t) && t[0] == '\''
    ensures var f := Filled(segs, next, Everywhere(t)); Lex(pi', Spell(f)) != f
    decreases |segs|
  {
    var g, more, next' := segs[0], segs[1..], After(segs[0], next);
    ReadsHead(pi, segs);
    var head := if IsHole(g) then [Special(t)] else [g];
    var tail := Filled(more, next', Everywhere(t));
    assert Filled(segs, next, Everywhere(t)) == head + tail;
    if Lex(pi', Spell(head + tail)) == head + tail {
      SplitFilled(pi', head, tail);
      assert EndIdent(pi', head) == EndsIdent(head[0]);
      if !SafeQuotes(more) {
        QuoteBreaks(EndsIdent(g), EndsIdent(head[0]), more, next', t);
      } else {
        assert Clash(g, more[0]);
        assert SealedFill(more, next', Everywhere(t));
        ReadsHead(EndsIdent(g), more);
        FilledHead(EndsIdent(g), more, next', Everywhere(t));
        StringThenQuote(pi', head[0], Spell(tail));
      }
    }
  }

  /** A literal like "5.": after a colon it is taken for a bind number, and it
      does not end in an identifier character. */
  ghost predicate NumberLike(t: string) {
    SelfContained(t) && (forall pi :: !EndIdent(pi, Lex(false, t))) && (forall rest :: LooksNumbered(t + rest))
  }

  /** A reading whose digits are not followed by an identifier character stays
      one when the placeholders are filled with t. */
  lemma {:induction false} NumberEndKept(pi: bool, segs: seq<Segment>, next: nat, t: string)
    requires Wellformed(segs) && Reads(pi, segs, "") && NumberLike(t)
    requires !DigitsThenIdent(Spell(segs))
    ensures !DigitsThenIdent(Spell(Filled(segs, next, Everywhere(t))))
    decreases |segs|
  {
    if segs != [] {
      ReadsHead(pi, segs);
      assert SealedFill(segs, next, Everywhere(t));
      FilledHead(pi, segs, next, Everywhere(t));
      QuoteIsString(pi, segs[0], Spell(segs[1..]));
      var tail := Spell(Filled(segs[1..], After(segs[0], next), Everywhere(t)));
      if IsHole(segs[0]) {
        assert LooksNumbered(t + tail);
      } else if IsDigit(Spell(segs)[0]) {
        assert segs[0] == Plain(Spell(segs)[0]);
        OneDigit(Spell(segs)[0], Spell(segs[1..]));
        NumberEndKept(EndsIdent(segs[0]), segs[1..], next, t);
        OneDigit(Spell(segs)[0], tail);
      }
    }
  }

  lemma ColonBreaksHere(prev: Option<Segment>, pi: bool, segs: seq<Segment>, next: nat, t: string)
    requires Wellformed(segs) && Reads(pi, segs, "") && NumberLike(t)
    requires !SafeColon(prev, segs)
    ensures !Fits(FixedIdent(prev), Plain(':'), Spell(Filled(segs, next, Everywhere(t))))
  {
    var rest' := Spell(Filled(segs, next, Everywhere(t)));
    assert SealedFill(segs, next, Everywhere(t));
    FilledHead(pi, segs, next, Everywhere(t));
    if segs != [] { ReadsHead(pi, segs); }
    assert LooksNumbered(rest') by {
      if segs != [] && IsHole(segs[0]) {
        assert rest' == t + Spell(Filled(segs[1..], After(segs[0], next), Everywhere(t)));
      } else {
        NumberEndKept(pi, segs, next, t);
      }
    }
    ColonStable(FixedIdent(prev), rest');
  }

  lemma {:induction false} ColonBreaks(prev: Option<Segment>, pi: bool, segs: seq<Segment>, next: nat, t: string)
    requires Wellformed(segs) && Reads(pi, segs, "") && !SafeColons(prev, segs) && NumberLike(t)
    ensures var f := Filled(segs, next, Everywhere(t)); Lex(FixedIdent(prev), Spell(f)) != f
    decreases |segs|
  {
    var pi', g, more, next' := FixedIdent(prev), segs[0], segs[1..], After(segs[0], next);
    ReadsHead(pi, segs);
    var head := if IsHole(g) then Lex(false, t) else [g];
    var tail := Filled(more, next', Everywhere(t));
    assert Filled(segs, next, Everywhere(t)) == head + tail;
    if Lex(pi', Spell(head + tail)) == head + tail {
      SplitFilled(pi', head, tail);
      if !SafeColons(Some(g), more) {
        assert EndIdent(pi', head) == FixedIdent(Some(g));
        ColonBreaks(Some(g), EndsIdent(g), more, next', t);
      } else {
        ColonBreaksHere(prev, EndsIdent(g), more, next, t);
      }
    }
  }

  // ---- The exact condition ----

  /** Re-reading the substituted text gives the statement's own segments with
      every placeholder replaced by the segments of its literal. */
  ghost predicate StructureKept(sql: string, bindings: map<string, Binding>, lib: Library)
    requires bindings != map[] && Substituted(sql, bindings, lib).Ok?
  {
    LexWellformed(false, sql);
    Lex(false, Substituted(sql, bindings, lib).value) == Filled(Lex(false, sql), 1, LookupIn(bindings, lib))
  }

  lemma SafeKeeps(sql: string, bindings: map<string, Binding>, lib: Library)
    requires SafeTemplate(sql) && lib.Valid()
    requires bindings != map[] && Substituted(sql, bindings, lib).Ok?
    ensures StructureKept(sql, bindings, lib)
  {
    var segs, lookup := Lex(false, sql), LookupIn(bindings, lib);
    LexWellformed(false, sql);
    LexReads(false, sql);
    RenderedIsFilled(segs, 1, lookup);
    forall k | k in Indices(segs, 1) ensures SelfContained(LitText(lookup(k))) {
      assert lookup(k).Ok?;
      LiteralSelfContained(bindings[Itoa(k)], lib);
    }
    FilledReads(None, false, false, segs, 1, lookup);
    ReadsIsLex(false, Filled(segs, 1, lookup), "");
    var f := Filled(segs, 1, lookup);
    assert Spell(f) + "" == Spell(f) && f + [] == f;
  }

  /** Every placeholder of sql bound to b. */
  function Uniform(sql: string, b: Binding): map<string, Binding> {
    LexWellformed(false, sql);
    (map k | k in Indices(Lex(false, sql), 1) :: Itoa(k) := b)["1" := b]
  }

  lemma {:induction false} FilledSame(segs: seq<Segment>, next: nat, a: Lookup, b: Lookup)
    requires Wellformed(segs) && forall k :: k in Indices(segs, next) ==> a(k) == b(k)
    ensures Filled(segs, next, a) == Filled(segs, next, b)
  {
    if segs != [] {
      FilledSame(segs[1..], After(segs[0], next), a, b);
      if IsHole(segs[0]) { assert HoleIndex(segs[0], next) in Indices(segs, next); }
    }
  }

  lemma UniformIsEverywhere(sql: string, b: Binding, lib: Library)
    requires lib.Valid() && Literal(b, lib).Ok?
    ensures var bindings := Uniform(sql, b);
      var segs := Lex(false, sql);
      && bindings != map[] && Wellformed(segs)
      && Substituted(sql, bindings, lib).Ok?
      && Filled(segs, 1, LookupIn(bindings, lib)) == Filled(segs, 1, Everywhere(Literal(b, lib).value))
      && Substituted(sql, bindings, lib).value == Spell(Filled(segs, 1, LookupIn(bindings, lib)))
  {
    var bindings, segs := Uniform(sql, b), Lex(false, sql);
    LexWellformed(false, sql);
    assert "1" in bindings;
    forall k | k in Indices(segs, 1)
      ensures LookupIn(bindings, lib)(k) == Everywhere(Literal(b, lib).value)(k)
    {
      assert Itoa(k) in bindings && bindings[Itoa(k)] == b;
    }
    RenderedIsFilled(segs, 1, LookupIn(bindings, lib));
    FilledSame(segs, 1, LookupIn(bindings, lib), Everywhere(Literal(b, lib).value));
  }

  /** The binder's claim, exactly: no bindings whatsoever can change the
      structure of a statement if and only if its template is safe. */
  lemma StructureTheorem(sql: string, lib: Library)
    requires lib.Valid()
    ensures SafeTemplate(sql) <==>
      forall bindings :: bindings != map[] && Substituted(sql, bindings, lib).Ok? ==>
        StructureKept(sql, bindings, lib)
  {
    if SafeTemplate(sql) {
      forall bindings | bindings != map[] && Substituted(sql, bindings, lib).Ok?
        ensures StructureKept(sql, bindings, lib)
      {
        SafeKeeps(sql, bindings, lib);
      }
    } else {
      var bindings := BreakingBindings(sql, lib);
    }
  }

  lemma TextLiteral(v: string, lib: Library)
    ensures Literal(Binding("TEXT", Str(v)), lib) == Ok(Quote(v))
  {
    TextType();
  }

  lemma TextType()
    ensures TypeOf("TEXT").Text?
  {
    UpperFixed("TEXT");
  }

  lemma FivePointLiteral(lib: Library)
    ensures Literal(Binding("FIXED", Str("5.")), lib) == Ok("5.")
  {
    FixedLiteral("FIXED", "5.", lib);
  }

  lemma FixedLiteral(typ: string, v: string, lib: Library)
    requires TypeOf(typ) == Fixed && IsDecimal(v) && v[0] != '-' && v[0] != '+'
    ensures Literal(Binding(typ, Str(v)), lib) == Ok(v)
  {
  }

  lemma FivePointIsNumberLike()
    ensures NumberLike("5.")
  {
    QuietSealed("5.");
    assert Lex(false, "5.") == [Plain('5')] + [Plain('.')];
    forall pi ensures !EndIdent(pi, Lex(false, "5.")) {
      EndIdentAppend(pi, [Plain('5')], [Plain('.')]);
    }
    forall rest ensures LooksNumbered("5." + rest) {
      var s := "5." + rest;
      assert s[1..][0] == '.';
      assert DigitRun(s) == 1;
    }
  }

  /** For an unsafe template: bindings that do change the structure. */
  lemma BreakingBindings(sql: string, lib: Library) returns (bindings: map<string, Binding>)
    requires lib.Valid() && !SafeTemplate(sql)
    ensures bindings != map[] && Substituted(sql, bindings, lib).Ok?
    ensures !StructureKept(sql, bindings, lib)
  {
    LexReads(false, sql);
    LexWellformed(false, sql);
    if !SafeQuotes(Lex(false, sql)) {
      bindings := QuoteBreakingBindings(sql, "x", lib);
    } else {
      FivePointLiteral(lib);
      FivePointIsNumberLike();
      bindings := ColonBreakingBindings(sql, Binding("FIXED", Str("5.")), lib);
    }
  }

  lemma QuoteBreakingBindings(sql: string, v: string, lib: Library) returns (bindings: map<string, Binding>)
    requires lib.Valid() && !SafeQuotes(Lex(false, sql))
    ensures bindings != map[] && Substituted(sql, bindings, lib).Ok?
    ensures !StructureKept(sql, bindings, lib)
  {
    LexReads(false, sql);
    LexWellformed(false, sql);
    var b := Binding("TEXT", Str(v));
    TextLiteral(v, lib);
    UniformIsEverywhere(sql, b, lib);
    QuoteSealed(v);
    QuoteBreaks(false, false, Lex(false, sql), 1, Quote(v));
    bindings := Uniform(sql, b);
  }

  lemma ColonBreakingBindings(sql: string, b: Binding, lib: Library) returns (bindings: map<string, Binding>)
    requires lib.Valid() && !SafeColons(None, Lex(false, sql))
    requires Literal(b, lib).Ok? && NumberLike(Literal(b, lib).value)
    ensures bindings != map[] && Substituted(sql, bindings, lib).Ok?
    ensures !StructureKept(sql, bindings, lib)
  {
    LexReads(false, sql);
    LexWellformed(false, sql);
    UniformIsEverywhere(sql, b, lib);
    ColonBreaks(None, false, Lex(false, sql), 1, Literal(b, lib).value);
    bindings := Uniform(sql, b);
  }

  // ---- Two adjoining placeholders, and NULL ----

  lemma {:induction false} DoubleQuotesAppend(a: string, b: string)
    ensures DoubleQuotes(a + b) == DoubleQuotes(a) + DoubleQuotes(b)
  {
    if a == "" {
      assert a + b == b;
    } else {
      assert (a + b)[1..] == a[1..] + b;
      DoubleQuotesAppend(a[1..], b);
    }
  }

  /** What goes wrong in an unsafe template such as "??": two texts bound side
      by side are read back as one string, with a quote between them. */
  lemma AdjoiningTextsMerge(a: string, b: string)
    ensures Lex(false, Quote(a) + Quote(b)) == [Special(Quote(a) + Quote(b))]
    ensures ReadString(Quote(a) + Quote(b)) == Some(a + "'" + b)
  {
    var joined := a + "'" + b;
    QuotesJoin(a, b, joined);
    QuoteSealed(joined);
    QuoteRoundTrip(joined, Quote(joined));
  }

  lemma QuotesJoin(a: string, b: string, joined: string)
    requires joined == a + "'" + b
    ensures Quote(a) + Quote(b) == Quote(joined)
  {
    DoubleQuotesAppend(a, "'");
    DoubleQuotesAppend(a + "'", b);
    assert DoubleQuotes("'") == "''";
    QuoteMarks(DoubleQuotes(a), DoubleQuotes(b));
  }

  lemma QuoteMarks(x: string, y: string)
    ensures ("'" + x + "'") + ("'" + y + "'") == "'" + (x + "''" + y) + "'"
  {
    assert ("'" + x + "'") + ("'" + y + "'") == "'" + x + "''" + y + "'";
  }

  lemma NullSealed()
    ensures SelfContained("NULL") && forall pi :: EndIdent(pi, Lex(false, "NULL"))
  {
    QuietSealed("NULL");
    PlainsClosed("NULL");
    ClosedIsSealed(Plains("NULL"));
    var segs := Plains("NULL");
    assert segs == [Plain('N'), Plain('U'), Plain('L')] + [Plain('L')];
    forall pi ensures EndIdent(pi, segs) {
      EndIdentAppend(pi, [Plain('N'), Plain('U'), Plain('L')], [Plain('L')]);
    }
  }

  lemma NullStart(rest: string)
    ensures ("NULL" + rest)[0] == 'N' && !LooksNumbered("NULL" + rest)
  {
  }

  lemma NullFollows(pi: bool, segs: seq<Segment>, next: nat)
    requires Wellformed(segs) && Reads(pi, segs, "") && SelfContained("NULL")
    ensures SameStart(Spell(segs), Spell(Filled(segs, next, NullLookup)))
    ensures var rest' := Spell(Filled(segs, next, NullLookup));
      rest' != "" && rest'[0] == '\'' ==> Spell(segs)[0] == '\''
  {
    assert SealedFill(segs, next, NullLookup);
    FilledHead(pi, segs, next, NullLookup);
    if segs != [] {
      ReadsHead(pi, segs);
      if IsHole(segs[0]) { NullStart(Spell(Filled(segs[1..], After(segs[0], next), NullLookup))); }
    }
  }

  lemma NullOther(pi: bool, pi': bool, g: Segment, more: seq<Segment>, next: nat)
    requires Wellformed(more) && Reads(EndsIdent(g), more, "") && SelfContained("NULL")
    requires Fits(pi, g, Spell(more)) && !IsHole(g) && g != Plain(':')
    ensures Fits(pi', g, Spell(Filled(more, next, NullLookup)))
  {
    NullFollows(EndsIdent(g), more, next);
    if IsString(g) && Spell(more) != "" { StringThenQuote(pi, g, Spell(more)); }
    SegmentStable(g, pi, pi', Spell(more), Spell(Filled(more, next, NullLookup)));
  }

  lemma ReadsOneMore(pi: bool, g: Segment, tail: seq<Segment>, whole: seq<Segment>)
    requires Fits(pi, g, Spell(tail)) && Reads(EndsIdent(g), tail, "") && whole == [g] + tail
    ensures Reads(pi, whole, "")
  {
    assert whole[0] == g && whole[1..] == tail && Spell(tail) + "" == Spell(tail);
  }

  lemma {:induction false} NullReads(pi: bool, pi': bool, segs: seq<Segment>, next: nat)
    requires Wellformed(segs) && Reads(pi, segs, "") && (pi ==> pi')
    requires SelfContained("NULL") && forall q :: EndIdent(q, Lex(false, "NULL"))
    ensures Reads(pi', Filled(segs, next, NullLookup), "")
    decreases |segs|
  {
    if segs != [] {
      var g, more, next' := segs[0], segs[1..], After(segs[0], next);
      ReadsHead(pi, segs);
      var tail := Filled(more, next', NullLookup);
      if IsHole(g) {
        var lit := Lex(false, "NULL");
        assert Spell(tail) + "" == Spell(tail);
        NullReads(EndsIdent(g), EndIdent(pi', lit), more, next');
        ReadsAppend(pi', lit, tail, "");
      } else {
        if g == Plain(':') { NullColon(pi, pi', more, next); } else { NullOther(pi, pi', g, more, next); }
        NullReads(EndsIdent(g), EndsIdent(g), more, next);
        ReadsOneMore(pi', g, tail, Filled(segs, next, NullLookup));
      }
    }
  }

  lemma NullColon(pi: bool, pi': bool, segs: seq<Segment>, next: nat)
    requires Wellformed(segs) && Reads(false, segs, "") && SelfContained("NULL") && (pi ==> pi')
    requires Fits(pi, Plain(':'), Spell(segs))
    ensures Fits(pi', Plain(':'), Spell(Filled(segs, next, NullLookup)))
  {
    var rest, rest' := Spell(segs), Spell(Filled(segs, next, NullLookup));
    assert SealedFill(segs, next, NullLookup);
    FilledHead(false, segs, next, NullLookup);
    ColonPlain(pi, rest);
    ColonStable(pi, rest);
    if segs != [] { ReadsHead(false, segs); }
    if segs != [] && IsHole(segs[0]) {
      NullStart(Spell(Filled(segs[1..], After(segs[0], next), NullLookup)));
    } else if DigitsThenIdent(rest) {
      DigitsThenIdentKept(false, segs, next, NullLookup);
    }
    ColonStable(pi', rest');
  }

  /** FillNull never changes the structure, whatever the template. */
  lemma NullKeepsStructure(sql: string)
    ensures Wellformed(Lex(false, sql)) && Rendered(Lex(false, sql), 1, NullLookup).Ok?
    ensures Lex(false, Rendered(Lex(false, sql), 1, NullLookup).value) == Filled(Lex(false, sql), 1, NullLookup)
  {
    var segs := Lex(false, sql);
    LexWellformed(false, sql);
    LexReads(false, sql);
    RenderedIsFilled(segs, 1, NullLookup);
    NullSealed();
    NullReads(false, false, segs, 1);
    var f := Filled(segs, 1, NullLookup);
    ReadsIsLex(false, f, "");
    assert Spell(f) + "" == Spell(f) && f + [] == f;
  }
}

/** The structure theorem one level up: characters grouped into words. A literal
    next to an identifier character would extend that word. */
module Words {
  import opened Text
  import opened Scanner
  import opened Literals
  import opened Substitution
  import opened Structure

  predicate InWord(g: Segment) {
    g.Plain? && IsIdentChar(g.c)
  }

  function WordRun(segs: seq<Segment>): (n: nat)
    ensures n <= |segs|
    ensures forall i :: 0 <= i < n ==> InWord(segs[i])
    ensures n < |segs| ==> !InWord(segs[n])
  {
    if segs == [] || !InWord(segs[0]) then 0 else 1 + WordRun(segs[1..])
  }

  /** A maximal run of identifier characters is one token, everything else is its own. */
  function Tokens(segs: seq<Segment>): seq<seq<Segment>> {
    if segs == [] then []
    else
      var n := if InWord(segs[0]) then WordRun(segs) else 1;
      [segs[..n]] + Tokens(segs[n..])
  }

  function FilledTokens(tokens: seq<seq<Segment>>, next: nat, lookup: Lookup): seq<seq<Segment>>
    requires forall t :: t in tokens ==> Wellformed(t)
  {
    if tokens == [] then []
    else if Wellformed(tokens[0]) && |tokens[0]| == 1 && IsHole(tokens[0][0]) then
      Tokens(Lex(false, LitText(lookup(HoleIndex(tokens[0][0], next))))) +
      FilledTokens(tokens[1..], After(tokens[0][0], next), lookup)
    else [tokens[0]] + FilledTokens(tokens[1..], next, lookup)
  }

  /** No placeholder adjoins an identifier character of the template. */
  predicate Isolated(segs: seq<Segment>) {
    |segs| < 2 ||
    (!(IsHole(segs[0]) && InWord(segs[1])) && !(InWord(segs[0]) && IsHole(segs[1])) && Isolated(segs[1..]))
  }

  lemma {:induction false} WordRunAppend(a: seq<Segment>, b: seq<Segment>)
    requires a != [] && (b != [] && InWord(a[|a| - 1]) ==> !InWord(b[0]))
    ensures WordRun(a + b) == WordRun(a)
  {
    if InWord(a[0]) {
      assert (a + b)[1..] == a[1..] + b;
      if |a| > 1 { WordRunAppend(a[1..], b); } else { assert a[1..] + b == b; }
    }
  }

  lemma SliceAppend<T>(a: seq<T>, b: seq<T>, n: nat)
    requires n <= |a|
    ensures (a + b)[..n] == a[..n] && (a + b)[n..] == a[n..] + b
  {
  }

  lemma {:induction false} TokensAppend(a: seq<Segment>, b: seq<Segment>)
    requires a != [] && b != [] ==> !(InWord(a[|a| - 1]) && InWord(b[0]))
    ensures Tokens(a + b) == Tokens(a) + Tokens(b)
  {
    if a == [] {
      assert a + b == b;
    } else {
      WordRunAppend(a, b);
      var n := if InWord(a[0]) then WordRun(a) else 1;
      assert (a + b)[0] == a[0];
      SliceAppend(a, b, n);
      TokensAppend(a[n..], b);
      AppendAssoc([a[..n]], Tokens(a[n..]), Tokens(b));
    }
  }

  lemma {:induction false} TokensWellformed(segs: seq<Segment>)
    requires Wellformed(segs)
    ensures forall t :: t in Tokens(segs) ==> Wellformed(t)
  {
    if segs != [] {
      var n := if InWord(segs[0]) then WordRun(segs) else 1;
      TokensWellformed(segs[n..]);
    }
  }

  lemma {:induction false} IsolatedTail(segs: seq<Segment>, n: nat)
    requires Isolated(segs) && SafeQuotes(segs) && n <= |segs|
    ensures Isolated(segs[n..]) && SafeQuotes(segs[n..])
    ensures 0 < n < |segs| ==>
              !(IsHole(segs[n - 1]) && InWord(segs[n])) && !(InWord(segs[n - 1]) && IsHole(segs[n]))
              && !Clash(segs[n - 1], segs[n])
  {
    if n == 1 {
    } else if n > 0 {
      IsolatedTail(segs[1..], n - 1);
      assert segs[1..][n - 1..] == segs[n..];
    } else {
      assert segs[n..] == segs;
    }
  }

  /** What a run of identifier characters is filled with: itself. */
  lemma {:induction false} FilledRun(segs: seq<Segment>, n: nat, next: nat, lookup: Lookup)
    requires Wellformed(segs) && n <= |segs| && forall i :: 0 <= i < n ==> !IsHole(segs[i])
    ensures Wellformed(segs[n..]) && Filled(segs, next, lookup) == segs[..n] + Filled(segs[n..], next, lookup)
  {
    if n == 0 {
      assert segs[n..] == segs;
    } else {
      var (rest, less) := (segs[1..], n - 1);
      FilledRun(rest, less, next, lookup);
      assert rest[less..] == segs[n..];
      assert segs[..n] == [segs[0]] + rest[..less];
      AppendAssoc([segs[0]], rest[..less], Filled(segs[n..], next, lookup));
    }
  }

  ghost predicate TokensMatch(segs: seq<Segment>, next: nat, lookup: Lookup)
    requires Wellformed(segs)
  {
    TokensWellformed(segs);
    Tokens(Filled(segs, next, lookup)) == FilledTokens(Tokens(segs), next, lookup)
  }

  lemma HoleToken(segs: seq<Segment>, next: nat, lookup: Lookup)
    requires Wellformed(segs) && segs != [] && IsHole(segs[0]) && Isolated(segs) && SafeQuotes(segs)
    requires Wellformed(segs[1..]) && TokensMatch(segs[1..], After(segs[0], next), lookup)
    ensures TokensMatch(segs, next, lookup)
  {
    var more, next' := segs[1..], After(segs[0], next);
    FilledStart(more, next', lookup);
    TokensAppend(Lex(false, LitText(lookup(HoleIndex(segs[0], next)))), Filled(more, next', lookup));
    assert segs[..1] == [segs[0]];
    assert Tokens(segs) == [[segs[0]]] + Tokens(more);
    TokensWellformed(segs);
  }

  lemma WordToken(segs: seq<Segment>, n: nat, next: nat, lookup: Lookup)
    requires Wellformed(segs) && segs != [] && !IsHole(segs[0]) && Isolated(segs) && SafeQuotes(segs)
    requires n == if InWord(segs[0]) then WordRun(segs) else 1
    requires Wellformed(segs[n..]) && TokensMatch(segs[n..], next, lookup)
    ensures TokensMatch(segs, next, lookup)
  {
    var more := segs[n..];
    IsolatedTail(segs, n);
    FilledRun(segs, n, next, lookup);
    FilledStart(more, next, lookup);
    TokensAppend(segs[..n], Filled(more, next, lookup));
    TokensOfRun(segs[..n]);
    FirstToken(segs, n);
    TokensWellformed(segs);
  }

  lemma FirstToken(segs: seq<Segment>, n: nat)
    requires segs != [] && n == if InWord(segs[0]) then WordRun(segs) else 1
    ensures Tokens(segs) == [segs[..n]] + Tokens(segs[n..])
  {
  }

  lemma {:induction false} TokensFilled(segs: seq<Segment>, next: nat, lookup: Lookup)
    requires Wellformed(segs) && Isolated(segs) && SafeQuotes(segs)
    ensures TokensMatch(segs, next, lookup)
    decreases |segs|
  {
    if segs != [] {
      var n := if InWord(segs[0]) then WordRun(segs) else 1;
      IsolatedTail(segs, n);
      TokensFilled(segs[n..], After(segs[0], next), lookup);
      if IsHole(segs[0]) { HoleToken(segs, next, lookup); } else { WordToken(segs, n, next, lookup); }
    }
  }

  lemma FilledStart(segs: seq<Segment>, next: nat, lookup: Lookup)
    requires Wellformed(segs)
    ensures segs == [] ==> Filled(segs, next, lookup) == []
    ensures segs != [] && !IsHole(segs[0]) ==>
              var f := Filled(segs, next, lookup); f != [] && f[0] == segs[0]
  {
  }

  lemma TokensOfRun(run: seq<Segment>)
    requires run != [] && (|run| == 1 || forall i :: 0 <= i < |run| ==> InWord(run[i]))
    ensures Tokens(run) == [run]
  {
    var n := |run|;
    if InWord(run[0]) { WholeRun(run); }
    FirstToken(run, n);
    assert run[..n] == run && run[n..] == [];
  }

  lemma {:induction false} WholeRun(run: seq<Segment>)
    requires forall i :: 0 <= i < |run| ==> InWord(run[i])
    ensures WordRun(run) == |run|
  {
    if run != [] { WholeRun(run[1..]); }
  }

  /** If moreover no placeholder adjoins an identifier character, the words of
      the substituted statement are the template's words with every placeholder
      replaced by the words of its literal. */
  lemma WordsKept(sql: string, bindings: map<string, Binding>, lib: Library)
    requires SafeTemplate(sql) && Isolated(Lex(false, sql)) && lib.Valid()
    requires bindings != map[] && Substituted(sql, bindings, lib).Ok?
    ensures (forall t :: t in Tokens(Lex(false, sql)) ==> Wellformed(t)) &&
            Tokens(Lex(false, Substituted(sql, bindings, lib).value)) ==
              FilledTokens(Tokens(Lex(false, sql)), 1, LookupIn(bindings, lib))
  {
    LexWellformed(false, sql);
    SafeKeeps(sql, bindings, lib);
    TokensFilled(Lex(false, sql), 1, LookupIn(bindings, lib));
    TokensWellformed(Lex(false, sql));
  }
}

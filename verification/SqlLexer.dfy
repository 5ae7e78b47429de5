/** Cutting a SQL text into the tokens that the reader takes. */
module SqlLexer {
  import opened Text
  import opened CallSearch
  import opened SqlReader

  /** Identifiers, also qualified, and numbers. */
  predicate IsPart(c: char) {
    IsWordChar(c) || c == '.'
  }

  predicate IsMark(c: char) {
    c == '(' || c == ')' || c == ','
  }

  predicate IsSymbol(c: char) {
    !IsPart(c) && !IsMark(c) && !IsSpace(c) && c != '\''
  }

  function PartRun(s: string): (n: nat)
    ensures n <= |s|
  {
    if s != "" && IsPart(s[0]) then 1 + PartRun(s[1..]) else 0
  }

  function SymbolRun(s: string): (n: nat)
    ensures n <= |s|
  {
    if s != "" && IsSymbol(s[0]) then 1 + SymbolRun(s[1..]) else 0
  }

  /** Up to and with the first quote. */
  function QuoteRun(s: string): (n: nat)
    ensures n <= |s|
  {
    if s == "" then 0 else if s[0] == '\'' then 1 else 1 + QuoteRun(s[1..])
  }

  function TokenLength(s: string): (n: nat)
    requires s != "" && !IsBlank(s[0])
    ensures 0 < n <= |s|
  {
    if IsMark(s[0]) then 1
    else if s[0] == '\'' then 1 + QuoteRun(s[1..])
    else if IsPart(s[0]) then 1 + PartRun(s[1..])
    else 1 + SymbolRun(s[1..])
  }

  function MarkToken(c: char): Token {
    if c == '(' then Open else if c == ')' then Close else Comma
  }

  function Lex(d: Dialect, s: string): seq<Token> {
    if s == "" then []
    else if IsBlank(s[0]) then Lex(d, s[1..])
    else if IsMark(s[0]) then [MarkToken(s[0])] + Lex(d, s[1..])
    else var n := TokenLength(s); [d.token(s[..n])] + Lex(d, s[n..])
  }

  /** One token's text: all letters and digits, all symbols, or a literal. */
  predicate IsUnit(w: string) {
    w != "" && (AllParts(w) || AllSymbols(w) || IsLiteral(w))
  }

  predicate AllParts(w: string) {
    forall k :: 0 <= k < |w| ==> IsPart(w[k])
  }

  predicate AllSymbols(w: string) {
    forall k :: 0 <= k < |w| ==> IsSymbol(w[k])
  }

  /** A string literal without quotes in it. */
  predicate IsLiteral(w: string) {
    |w| >= 2 && w[0] == '\'' && w[|w| - 1] == '\'' && forall k :: 0 < k < |w| - 1 ==> w[k] != '\''
  }

  /** The text does not go on with the token before it. */
  predicate Apart(b: string) {
    b == "" || IsBlank(b[0]) || IsMark(b[0])
  }

  lemma {:induction false} PartsRun(w: string, b: string)
    requires AllParts(w) && Apart(b)
    ensures PartRun(w + b) == |w|
  {
    if w == "" {
      assert w + b == b;
      assert b != "" ==> !IsPart(b[0]);
    } else {
      assert (w + b)[1..] == w[1..] + b;
      PartsRun(w[1..], b);
    }
  }

  lemma {:induction false} SymbolsRun(w: string, b: string)
    requires AllSymbols(w) && Apart(b)
    ensures SymbolRun(w + b) == |w|
  {
    if w == "" {
      assert w + b == b;
    } else {
      assert (w + b)[1..] == w[1..] + b;
      SymbolsRun(w[1..], b);
    }
  }

  lemma {:induction false} LiteralRun(w: string, b: string)
    requires w != "" && w[|w| - 1] == '\'' && forall k :: 0 <= k < |w| - 1 ==> w[k] != '\''
    ensures QuoteRun(w + b) == |w|
  {
    if |w| > 1 {
      assert (w + b)[1..] == w[1..] + b;
      LiteralRun(w[1..], b);
    }
  }

  lemma UnitLength(w: string, b: string)
    requires IsUnit(w) && Apart(b)
    ensures !IsBlank(w[0]) && !IsMark(w[0]) && TokenLength(w + b) == |w|
  {
    var s := w + b;
    assert s[0] == w[0] && s[1..] == w[1..] + b;
    if IsLiteral(w) {
      LiteralRun(w[1..], b);
    } else if AllParts(w) {
      assert IsPart(w[0]);
      PartsRun(w[1..], b);
    } else {
      assert IsSymbol(w[0]);
      SymbolsRun(w[1..], b);
    }
  }

  lemma LexUnit(d: Dialect, w: string, b: string)
    requires IsUnit(w) && Apart(b)
    ensures Lex(d, w + b) == [d.token(w)] + Lex(d, b)
  {
    var s := w + b;
    UnitLength(w, b);
    assert s[..|w|] == w && s[|w|..] == b;
  }

  lemma LexMark(d: Dialect, c: char, b: string)
    requires IsMark(c)
    ensures Lex(d, [c] + b) == [MarkToken(c)] + Lex(d, b)
  {
    assert ([c] + b)[1..] == b;
  }

  lemma LexBlank(d: Dialect, b: string)
    ensures Lex(d, " " + b) == Lex(d, b)
  {
    assert (" " + b)[1..] == b;
  }

  /** A token between blanks. */
  lemma LexSpaced(d: Dialect, w: string, p: string, b: string)
    requires IsUnit(w) && p == " " + w + " "
    ensures Lex(d, p + b) == [d.token(w)] + Lex(d, b)
  {
    LexBlank(d, w + (" " + b));
    LexUnit(d, w, " " + b);
    LexBlank(d, b);
    assert p + b == " " + (w + (" " + b));
  }

  /** A token with more of the same text behind it. */
  lemma LexFront(d: Dialect, w: string, p: string, s: string, b: string)
    requires IsUnit(w) && p != "" && Apart(p) && s == w + p
    ensures Lex(d, s + b) == [d.token(w)] + Lex(d, p + b)
  {
    assert (p + b)[0] == p[0];
    LexUnit(d, w, p + b);
    AppendAssoc(w, p, b);
  }

  /** A token at the end. */
  lemma LexLast(d: Dialect, w: string, p: string, b: string)
    requires IsUnit(w) && p == " " + w && Apart(b)
    ensures Lex(d, p + b) == [d.token(w)] + Lex(d, b)
  {
    LexBlank(d, w + b);
    LexUnit(d, w, b);
    assert p + b == " " + (w + b);
  }
}

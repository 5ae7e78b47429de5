/** Whether the text that the rewrites leave groups as they meant it: they splice
    operands next to operators without parentheses. */
module SqlGrouping {
  import opened Text
  import opened FuncArgs
  import opened CallSearch
  import opened SqlExpr
  import opened SqlText
  import opened SqlLexer
  import R = SqlReader

  // ---- The expressions ----

  /** A word or literal that is neither a keyword nor an operator. */
  predicate Free(d: R.Dialect, w: string) {
    IsUnit(w) && d.token(w) == R.Name(w)
  }

  /** An operator, a word or symbols, between blanks. */
  predicate IsOperator(d: R.Dialect, p: string) {
    && |p| >= 3 && p[0] == ' ' && p[|p| - 1] == ' '
    && (IsName(Trimmed(p)) || AllSymbols(Trimmed(p)))
    && d.token(Trimmed(p)) == R.Op(OpOf(p)) && !IsRule(OpOf(p))
  }

  function Trimmed(p: string): string
    requires |p| >= 2
  {
    p[1..|p| - 1]
  }

  function OpOf(p: string): string
    requires |p| >= 2
  {
    ToUpper(Trimmed(p))
  }

  /** The words that the rewrites emit, and what they are read as. */
  predicate Emitted(w: string, t: R.Token) {
    match t
    case Case => w == "CASE"
    case When => w == "WHEN"
    case Then => w == "THEN"
    case Else => w == "ELSE"
    case End => w == "END"
    case Is => w == "IS"
    case Op(op) => op == w && (w == "/" || w == "=")
    case Name(name) =>
      name == w && (w == "NOT" || w == "NULL" || w == "0" || w == "2" || w == "COALESCE" || w == "POWER" || IsRule(w))
    case _ => false
  }

  predicate IsRule(w: string) {
    exists f :: w == NameOf(f)
  }

  ghost predicate Proper(d: R.Dialect) {
    forall w, t :: Emitted(w, t) ==> d.token(w) == t
  }

  /** A leaf, an operand in parentheses, and an operator between two operands. */
  predicate AroundIn(d: R.Dialect, parts: seq<string>, n: nat) {
    match |parts|
    case 1 => n == 0 && Free(d, parts[0])
    case 2 => n == 1 && parts[0] == "(" && parts[1] == ")"
    case 3 => n == 2 && parts[0] == "" && IsOperator(d, parts[1]) && parts[2] == ""
    case _ => false
  }

  predicate HeadIn(d: R.Dialect, head: Head, n: nat) {
    match head
    case Call(f, word) => IsName(word) && ToUpper(word) == NameOf(f) && Free(d, word)
    case Fn(name) => IsName(name) && !IsRule(ToUpper(name)) && Free(d, name)
    case Coalesce => true
    case Around(parts) => AroundIn(d, parts, n)
    case Power => n == 2
    case Case => n == 3
    case NotNull => n == 1
    case Over => n == 2
    case IsZero => n == 1
    case Zero => n == 0
    case Two => n == 0
  }

  /** Expressions of words, literals, operators, parentheses and calls. */
  predicate Fragment(d: R.Dialect, e: Expr) {
    HeadIn(d, e.head, Len(e.kids)) && AllFragment(d, e.kids)
  }

  predicate AllFragment(d: R.Dialect, es: Exprs) {
    es.More? ==> Fragment(d, es.first) && AllFragment(d, es.rest)
  }

  // ---- What a tree means to say ----

  function Meant(e: Expr): R.Term
    decreases e
  {
    match e.head
    case Call(_, word) => R.Apply(word, MeantAll(e.kids))
    case Fn(name) => R.Apply(name, MeantAll(e.kids))
    case Coalesce => R.Apply("COALESCE", MeantAll(e.kids))
    case Power => R.Apply("POWER", MeantAll(e.kids))
    case Zero => R.Word("0")
    case Two => R.Word("2")
    case Case => MeantChoice(e.kids)
    case NotNull => if e.kids.More? then R.IsNotNull(Meant(e.kids.first)) else R.Word("")
    case Over => MeantInfix("/", e.kids)
    case IsZero => if e.kids.More? then R.Infix("=", Meant(e.kids.first), R.Word("0")) else R.Word("")
    case Around(parts) =>
      if |parts| == 1 then R.Word(parts[0])
      else if |parts| == 2 && e.kids.More? then R.Group(Meant(e.kids.first))
      else if |parts| == 3 && |parts[1]| >= 2 then MeantInfix(OpOf(parts[1]), e.kids)
      else R.Word("")
  }

  function MeantChoice(es: Exprs): R.Term
    decreases es
  {
    match es
    case More(c, More(y, More(n, End))) => R.Choice(Meant(c), Meant(y), Meant(n))
    case _ => R.Word("")
  }

  function MeantInfix(op: string, es: Exprs): R.Term
    decreases es
  {
    match es
    case More(l, More(r, End)) => R.Infix(op, Meant(l), Meant(r))
    case _ => R.Word("")
  }

  function MeantAll(es: Exprs): R.Terms
    decreases es
  {
    match es case End => R.NoTerms case More(e, rest) => R.Cons(Meant(e), MeantAll(rest))
  }

  // ---- The text has the tree's tokens ----

  function ReadText(d: R.Dialect, s: string): Option<R.Term> {
    R.ReadTokens(d, Lex(d, s))
  }

  /** The tree's text has the tokens of what it means, whatever follows. */
  ghost predicate Lexes(d: R.Dialect, e: Expr, b: string) {
    Lex(d, Print(e) + b) == R.Tokens(Meant(e), Lex(d, b))
  }

  lemma {:induction false} LexPrint(d: R.Dialect, e: Expr, b: string)
    requires Proper(d) && Fragment(d, e) && Apart(b)
    ensures Lexes(d, e, b)
    decreases e, 1
  {
    match e.head
    case Around(parts) => LexAround(d, parts, e.kids, b);
    case Case => LexChoice(d, e.kids, b);
    case Over => LexOver(d, e.kids, b);
    case NotNull => LexNotNull(d, e.kids, b);
    case IsZero => LexIsZero(d, e.kids, b);
    case Zero => LexConstant(d, e, b);
    case Two => LexConstant(d, e, b);
    case _ => LexCall(d, e.head, e.kids, b);
  }

  lemma LexConstant(d: R.Dialect, e: Expr, b: string)
    requires Proper(d) && Apart(b) && e.kids.End? && (e.head.Zero? || e.head.Two?)
    ensures Lexes(d, e, b)
  {
    assert Emitted("0", R.Name("0")) && Emitted("2", R.Name("2"));
    PrintConstants();
    LexUnit(d, if e.head.Zero? then "0" else "2", b);
  }

  lemma {:induction false} LexCall(d: R.Dialect, head: Head, es: Exprs, b: string)
    requires Proper(d) && IsCallHead(head) && HeadIn(d, head, Len(es)) && AllFragment(d, es) && Apart(b)
    ensures Lexes(d, Node(head, es), b)
    decreases es, 2
  {
    CallText(head, es);
    CallWord(d, head, Len(es));
    MeantCall(head, es);
    LexList(d, es, b);
    LexNamed(d, WordOf(head), Listed(PrintAll(es)), b);
  }

  lemma MeantCall(head: Head, es: Exprs)
    requires IsCallHead(head)
    ensures Meant(Node(head, es)) == R.Apply(WordOf(head), MeantAll(es))
  {
  }

  lemma LexNamed(d: R.Dialect, w: string, list: string, b: string)
    requires Free(d, w)
    ensures Lex(d, (w + "(" + list + ")") + b) == [R.Name(w)] + ([R.Open] + Lex(d, list + (")" + b)))
  {
    var rest := list + (")" + b);
    assert (w + "(" + list + ")") + b == w + ("(" + rest);
    LexUnit(d, w, "(" + rest);
    LexMark(d, '(', rest);
  }

  lemma CallWord(d: R.Dialect, head: Head, n: nat)
    requires Proper(d) && IsCallHead(head) && HeadIn(d, head, n)
    ensures Free(d, WordOf(head))
  {
    assert Emitted("COALESCE", R.Name("COALESCE")) && Emitted("POWER", R.Name("POWER"));
  }

  lemma {:induction false} LexList(d: R.Dialect, es: Exprs, b: string)
    requires Proper(d) && AllFragment(d, es)
    ensures Lex(d, Listed(PrintAll(es)) + (")" + b)) == R.ArgTokens(MeantAll(es), Lex(d, b))
    decreases es, 1
  {
    LexMark(d, ')', b);
    if es.End? {
      assert "" + (")" + b) == ")" + b;
    } else if es.rest.End? {
      LexPrint(d, es.first, ")" + b);
      assert PrintAll(es) == [Print(es.first)];
    } else {
      var rest := Listed(PrintAll(es.rest)) + (")" + b);
      LexPrint(d, es.first, ", " + rest);
      LexList(d, es.rest, b);
      LexComma(d, rest);
      ListedMore(es, b);
    }
  }

  lemma ListedMore(es: Exprs, b: string)
    requires es.More? && es.rest.More?
    ensures Listed(PrintAll(es)) + (")" + b) == Print(es.first) + (", " + (Listed(PrintAll(es.rest)) + (")" + b)))
  {
    assert PrintAll(es)[1..] == PrintAll(es.rest);
  }

  lemma LexComma(d: R.Dialect, rest: string)
    ensures Lex(d, ", " + rest) == [R.Comma] + Lex(d, rest)
  {
    LexMark(d, ',', " " + rest);
    LexBlank(d, rest);
    assert [','] + (" " + rest) == ", " + rest;
  }

  lemma LexCaseWhen(d: R.Dialect, c: string)
    requires Proper(d)
    ensures Lex(d, "CASE WHEN " + c) == [R.Case] + ([R.When] + Lex(d, c))
  {
    assert Emitted("CASE", R.Case) && Emitted("WHEN", R.When);
    LexFront(d, "CASE", " WHEN ", "CASE WHEN ", c);
    LexSpaced(d, "WHEN", " WHEN ", c);
  }

  lemma LexThen(d: R.Dialect, y: string)
    requires Proper(d)
    ensures Lex(d, " THEN " + y) == [R.Then] + Lex(d, y)
  {
    assert Emitted("THEN", R.Then);
    LexSpaced(d, "THEN", " THEN ", y);
  }

  lemma LexElse(d: R.Dialect, n: string)
    requires Proper(d)
    ensures Lex(d, " ELSE " + n) == [R.Else] + Lex(d, n)
  {
    assert Emitted("ELSE", R.Else);
    LexSpaced(d, "ELSE", " ELSE ", n);
  }

  lemma LexEnd(d: R.Dialect, b: string)
    requires Proper(d) && Apart(b)
    ensures Lex(d, " END" + b) == [R.End] + Lex(d, b)
  {
    assert Emitted("END", R.End);
    LexLast(d, "END", " END", b);
  }

  lemma Shapes(es: Exprs)
    ensures Len(es) == 1 ==> es == List1(es.first)
    ensures Len(es) == 2 ==> es.rest.More? && es == List2(es.first, es.rest.first)
    ensures Len(es) == 3 ==>
              es.rest.More? && es.rest.rest.More? && es == List3(es.first, es.rest.first, es.rest.rest.first)
  {
    if es.More? && es.rest.More? {
      var more := es.rest.rest;
      assert Len(es.rest) == 1 + Len(more) && Len(es) == 2 + Len(more);
      assert more.More? ==> Len(more) == 1 + Len(more.rest);
    }
  }

  lemma ThreeIn(d: R.Dialect, es: Exprs)
    requires Len(es) == 3 && AllFragment(d, es)
    ensures es.More? && es.rest.More? && es.rest.rest.More? && es == List3(es.first, es.rest.first, es.rest.rest.first)
    ensures Fragment(d, es.first) && Fragment(d, es.rest.first) && Fragment(d, es.rest.rest.first)
  {
    Shapes(es);
    assert AllFragment(d, es.rest) && AllFragment(d, es.rest.rest);
  }

  lemma {:induction false} LexChoice(d: R.Dialect, es: Exprs, b: string)
    requires Proper(d) && Len(es) == 3 && AllFragment(d, es) && Apart(b)
    ensures Lexes(d, Node(Case, es), b)
    decreases es, 2
  {
    ThreeIn(d, es);
    var (c, y, n) := (es.first, es.rest.first, es.rest.rest.first);
    var b1, b2, b3 := ChoiceParts(d, c, y, n, b);
    LexPrint(d, c, b1);
    LexPrint(d, y, b2);
    LexPrint(d, n, b3);
    MeantChoiceOf(c, y, n);
  }

  lemma MeantChoiceOf(c: Expr, y: Expr, n: Expr)
    ensures Meant(Node(Case, List3(c, y, n))) == R.Choice(Meant(c), Meant(y), Meant(n))
  {
  }

  /** The texts behind the three operands. */
  lemma ChoiceParts(d: R.Dialect, c: Expr, y: Expr, n: Expr, b: string) returns (b1: string, b2: string, b3: string)
    requires Proper(d) && Apart(b)
    ensures Apart(b1) && Apart(b2) && Apart(b3)
    ensures Lex(d, Print(Node(Case, List3(c, y, n))) + b) == [R.Case] + ([R.When] + Lex(d, Print(c) + b1))
    ensures Lex(d, b1) == [R.Then] + Lex(d, Print(y) + b2)
    ensures Lex(d, b2) == [R.Else] + Lex(d, Print(n) + b3)
    ensures Lex(d, b3) == [R.End] + Lex(d, b)
  {
    b3 := " END" + b;
    LexEnd(d, b);
    b2 := " ELSE " + (Print(n) + b3);
    LexElse(d, Print(n) + b3);
    b1 := " THEN " + (Print(y) + b2);
    LexThen(d, Print(y) + b2);
    CaseText(c, y, n);
    CaseAnd(Print(c), Print(y), Print(n), b, b1, b2, b3);
    LexCaseWhen(d, Print(c) + b1);
  }

  lemma CaseAnd(c: string, y: string, n: string, b: string, b1: string, b2: string, b3: string)
    requires b3 == " END" + b && b2 == " ELSE " + (n + b3) && b1 == " THEN " + (y + b2)
    ensures ("CASE WHEN " + c + " THEN " + y + " ELSE " + n + " END") + b == "CASE WHEN " + (c + b1)
  {
    var s := "CASE WHEN " + c + " THEN " + y;
    assert (s + " ELSE " + n + " END") + b == s + b2;
    assert s + b2 == "CASE WHEN " + c + b1;
  }

  lemma {:induction false} LexInfix(d: R.Dialect, l: Expr, p: string, op: string, r: Expr, es: Exprs, b: string)
    requires Proper(d) && IsUnit(op) && p == " " + op + " " && AllFragment(d, es) && es == List2(l, r) && Apart(b)
    ensures Lex(d, Print(l) + (p + (Print(r) + b))) ==
      R.Tokens(Meant(l), [d.token(op)] + R.Tokens(Meant(r), Lex(d, b)))
    decreases es, 2
  {
    assert es.rest == List1(r);
    LexPrint(d, l, p + (Print(r) + b));
    LexSpaced(d, op, p, Print(r) + b);
    LexPrint(d, r, b);
  }

  lemma {:induction false} LexOver(d: R.Dialect, es: Exprs, b: string)
    requires Proper(d) && Len(es) == 2 && AllFragment(d, es) && Apart(b)
    ensures Lexes(d, Node(Over, es), b)
    decreases es, 3
  {
    var (l, r) := (es.first, es.rest.first);
    Shapes(es);
    FormTexts(l, r);
    AppendAssoc(Print(l) + " / ", Print(r), b);
    AppendAssoc(Print(l), " / ", Print(r) + b);
    assert Emitted("/", R.Op("/"));
    LexInfix(d, l, " / ", "/", r, es, b);
  }

  lemma {:induction false} LexNotNull(d: R.Dialect, es: Exprs, b: string)
    requires Proper(d) && Len(es) == 1 && AllFragment(d, es) && Apart(b)
    ensures Lexes(d, Node(NotNull, es), b)
    decreases es, 2
  {
    var x := es.first;
    assert es == List1(x);
    FormTexts(x, x);
    AppendAssoc(Print(x), " IS NOT NULL", b);
    LexPrint(d, x, " IS NOT NULL" + b);
    LexIsNotNull(d, b);
  }

  lemma LexIsNotNull(d: R.Dialect, b: string)
    requires Proper(d) && Apart(b)
    ensures Lex(d, " IS NOT NULL" + b) == R.NotNull(Lex(d, b))
  {
    assert Emitted("IS", R.Is);
    IsNotNullParts(b);
    LexSpaced(d, "IS", " IS ", "NOT NULL" + b);
    LexNotAndNull(d, b);
  }

  lemma IsNotNullParts(b: string)
    ensures " IS " + ("NOT NULL" + b) == " IS NOT NULL" + b
  {
  }

  lemma LexNotAndNull(d: R.Dialect, b: string)
    requires Proper(d) && Apart(b)
    ensures Lex(d, "NOT NULL" + b) == [R.Name("NOT")] + ([R.Name("NULL")] + Lex(d, b))
  {
    assert Emitted("NOT", R.Name("NOT")) && Emitted("NULL", R.Name("NULL"));
    LexFront(d, "NOT", " NULL", "NOT NULL", b);
    LexLast(d, "NULL", " NULL", b);
  }

  lemma {:induction false} LexIsZero(d: R.Dialect, es: Exprs, b: string)
    requires Proper(d) && Len(es) == 1 && AllFragment(d, es) && Apart(b)
    ensures Lexes(d, Node(IsZero, es), b)
    decreases es, 2
  {
    var x := es.first;
    assert es == List1(x);
    FormTexts(x, x);
    AppendAssoc(Print(x), " = 0", b);
    LexPrint(d, x, " = 0" + b);
    LexEqualsZero(d, b);
  }

  lemma LexEqualsZero(d: R.Dialect, b: string)
    requires Proper(d) && Apart(b)
    ensures Lex(d, " = 0" + b) == [R.Op("=")] + ([R.Name("0")] + Lex(d, b))
  {
    LexEquals(d, "0" + b);
    LexZero(d, b);
    EqualsZeroParts(b);
  }

  lemma LexEquals(d: R.Dialect, b: string)
    requires Proper(d)
    ensures Lex(d, " = " + b) == [R.Op("=")] + Lex(d, b)
  {
    assert Emitted("=", R.Op("="));
    LexSpaced(d, "=", " = ", b);
  }

  lemma LexZero(d: R.Dialect, b: string)
    requires Proper(d) && Apart(b)
    ensures Lex(d, "0" + b) == [R.Name("0")] + Lex(d, b)
  {
    assert Emitted("0", R.Name("0"));
    LexUnit(d, "0", b);
  }

  lemma EqualsZeroParts(b: string)
    ensures " = " + ("0" + b) == " = 0" + b
  {
  }

  lemma {:induction false} LexAround(d: R.Dialect, parts: seq<string>, es: Exprs, b: string)
    requires Proper(d) && AroundIn(d, parts, Len(es)) && AllFragment(d, es) && Apart(b)
    ensures Lexes(d, Node(Around(parts), es), b)
    decreases es, 4
  {
    Shapes(es);
    if es.End? {
      assert Rest(Around(parts), 0, 0, End) == "" && Print(Node(Around(parts), es)) == parts[0];
      LexUnit(d, parts[0], b);
    } else if Len(es) == 1 {
      LexGroup(d, parts, es, b);
    } else {
      LexOperator(d, parts, es, b);
    }
  }

  lemma {:induction false} LexGroup(d: R.Dialect, parts: seq<string>, es: Exprs, b: string)
    requires Proper(d) && AroundIn(d, parts, 1) && Len(es) == 1 && AllFragment(d, es) && Apart(b)
    ensures Lexes(d, Node(Around(parts), es), b)
    decreases es, 3
  {
    var x := es.first;
    Shapes(es);
    FormText(Around(parts), x, x, x);
    LexPrint(d, x, ")" + b);
    LexParens(d, Print(x), b);
    MeantGroup(parts, x);
  }

  lemma MeantGroup(parts: seq<string>, x: Expr)
    requires |parts| == 2
    ensures Meant(Node(Around(parts), List1(x))) == R.Group(Meant(x))
  {
  }

  lemma LexParens(d: R.Dialect, x: string, b: string)
    ensures Lex(d, ("(" + (x + ")")) + b) == [R.Open] + Lex(d, x + (")" + b))
    ensures Lex(d, ")" + b) == [R.Close] + Lex(d, b)
  {
    assert ("(" + (x + ")")) + b == "(" + (x + (")" + b));
    LexMark(d, '(', x + (")" + b));
    LexMark(d, ')', b);
  }

  lemma {:induction false} LexOperator(d: R.Dialect, parts: seq<string>, es: Exprs, b: string)
    requires Proper(d) && AroundIn(d, parts, 2) && Len(es) == 2 && AllFragment(d, es) && Apart(b)
    ensures Lexes(d, Node(Around(parts), es), b)
    decreases es, 3
  {
    var (l, r, p) := (es.first, es.rest.first, parts[1]);
    Shapes(es);
    FormText(Around(parts), l, r, r);
    InfixAnd(Print(l), p, Print(r), b);
    Between(p);
    LexInfix(d, l, p, Trimmed(p), r, es, b);
    MeantOperator(parts, l, r);
  }

  lemma Between(p: string)
    requires |p| >= 2 && p[0] == ' ' && p[|p| - 1] == ' '
    ensures p == " " + Trimmed(p) + " "
  {
  }

  lemma MeantOperator(parts: seq<string>, l: Expr, r: Expr)
    requires |parts| == 3 && |parts[1]| >= 2
    ensures Meant(Node(Around(parts), List2(l, r))) == R.Infix(OpOf(parts[1]), Meant(l), Meant(r))
  {
  }

  lemma InfixAnd(l: string, p: string, r: string, b: string)
    ensures ("" + (l + p + (r + ""))) + b == l + (p + (r + b))
  {
    assert "" + (l + p + (r + "")) == l + p + r;
    assert (l + p + r) + b == l + p + (r + b);
  }
}

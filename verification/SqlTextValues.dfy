/** What a SQL text is worth when it is read by operator precedence: the chain of
    rewrites keeps it for spliceable operands, and loses a grouping otherwise. */
module SqlTextValues {
  import opened Text
  import opened FuncArgs
  import opened CallSearch
  import opened SqlExpr
  import opened SqlValues
  import opened SqlText
  import opened SqlLexer
  import opened SqlGrouping
  import opened SqlSplices
  import R = SqlReader

  /** What words, operators and functions mean. */
  datatype Sense = Sense(
    word: string -> Val,
    infix: (string, Val, Val) -> Val,
    apply: (string, seq<Val>) -> Val)

  function TermValue(s: Sense, t: R.Term): Val
    decreases t
  {
    match t
    case Word(w) => s.word(w)
    case Infix(op, l, r) => s.infix(op, TermValue(s, l), TermValue(s, r))
    case IsNotNull(x) => IsNotNull(TermValue(s, x))
    case Apply(name, args) => s.apply(name, TermValues(s, args))
    case Choice(c, y, n) => Choose(TermValue(s, c), TermValue(s, y), TermValue(s, n))
    case Group(x) => TermValue(s, x)
  }

  function TermValues(s: Sense, ts: R.Terms): seq<Val>
    decreases ts
  {
    match ts case NoTerms => [] case Cons(t, rest) => [TermValue(s, t)] + TermValues(s, rest)
  }

  function TextValue(d: R.Dialect, s: Sense, text: string): Option<Val> {
    match ReadText(d, text) case None => None case Some(t) => Some(TermValue(s, t))
  }

  /** The constants, operators and functions that the rewrites deal with mean what
      they should. */
  ghost predicate Lawful(s: Sense) {
    LawfulWords(s) && LawfulOperators(s) && LawfulCalls(s)
  }

  predicate LawfulWords(s: Sense) {
    s.word("0") == Num(0.0) && s.word("2") == Num(2.0)
  }

  ghost predicate LawfulOperators(s: Sense) {
    && (forall v, w :: s.infix("/", v, w) == Quotient(v, w))
    && (forall v :: s.infix("=", v, Num(0.0)) == EqualsZero(v))
  }

  ghost predicate LawfulCalls(s: Sense) {
    && (forall vs :: s.apply("COALESCE", vs) == FirstOf(vs))
    && (forall vs: seq<Val> :: |vs| == 2 ==> s.apply("POWER", vs) == SecondPower(vs[0], vs[1]))
    && forall f, w, vs :: ToUpper(w) == NameOf(f) ==> s.apply(w, vs) == CallValue(f, vs)
  }

  /** An operand that stops being an error changes no other result. */
  ghost predicate MonotoneSense(s: Sense) {
    && (forall op, v, v', w, w' {:trigger s.infix(op, v, w), s.infix(op, v', w')} ::
          Refines(v, v') && Refines(w, w') ==> Refines(s.infix(op, v, w), s.infix(op, v', w')))
    && (forall name, vs, ws {:trigger s.apply(name, vs), s.apply(name, ws)} ::
          AllRefine(vs, ws) ==> Refines(s.apply(name, vs), s.apply(name, ws)))
  }

  function AroundValue(s: Sense, parts: seq<string>, vs: seq<Val>): Val {
    if |parts| == 1 && vs == [] then s.word(parts[0])
    else if |parts| == 2 && |vs| == 1 then vs[0]
    else if |parts| == 3 && |vs| == 2 && |parts[1]| >= 2 then s.infix(OpOf(parts[1]), vs[0], vs[1])
    else Fault
  }

  function MeaningOf(s: Sense): Meaning {
    Meaning(s.apply, (parts, vs) => AroundValue(s, parts, vs))
  }

  lemma MeaningMonotone(s: Sense)
    requires MonotoneSense(s)
    ensures Monotone(MeaningOf(s))
  {
    var m := MeaningOf(s);
    forall vs, ws, parts | AllRefine(vs, ws) ensures Refines(m.around(parts, vs), m.around(parts, ws)) {
      assert |vs| > 0 ==> Refines(vs[0], ws[0]);
      assert |vs| > 1 ==> Refines(vs[1], ws[1]);
    }
    forall vs, ws, name | AllRefine(vs, ws) ensures Refines(m.fn(name, vs), m.fn(name, ws)) {
    }
  }

  /** A tree is worth what it is meant to say. */
  lemma {:induction false} EvalIsTermValue(d: R.Dialect, s: Sense, e: Expr)
    requires Lawful(s) && Fragment(d, e)
    ensures Eval(MeaningOf(s), e) == TermValue(s, Meant(e))
    decreases e
  {
    EvalsAreTermValues(d, s, e.kids);
    HeadIsTermValue(d, s, e.head, e.kids);
  }

  lemma {:induction false} EvalsAreTermValues(d: R.Dialect, s: Sense, es: Exprs)
    requires Lawful(s) && AllFragment(d, es)
    ensures EvalAll(MeaningOf(s), es) == TermValues(s, MeantAll(es))
    decreases es
  {
    if es.More? { EvalIsTermValue(d, s, es.first); EvalsAreTermValues(d, s, es.rest); }
  }

  lemma HeadIsTermValue(d: R.Dialect, s: Sense, head: Head, es: Exprs)
    requires Lawful(s) && HeadIn(d, head, Len(es))
    ensures HeadValue(MeaningOf(s), head, TermValues(s, MeantAll(es))) == TermValue(s, Meant(Node(head, es)))
  {
    match head
    case Case => ThreeValues(s, es); Shapes(es); MeantChoiceOf(es.first, es.rest.first, es.rest.rest.first);
    case Over => TwoValues(s, es); OverValue(s, es);
    case NotNull => OneValue(s, es);
    case IsZero => OneValue(s, es); IsZeroValue(s, es);
    case Around(parts) => AroundIsTermValue(d, s, parts, es);
    case Zero =>
    case Two =>
    case _ => CallIsTermValue(d, s, head, es);
  }

  lemma CallIsTermValue(d: R.Dialect, s: Sense, head: Head, es: Exprs)
    requires Lawful(s) && HeadIn(d, head, Len(es)) && IsCallHead(head)
    ensures HeadValue(MeaningOf(s), head, TermValues(s, MeantAll(es))) == TermValue(s, Meant(Node(head, es)))
  {
    MeantCall(head, es);
    if head.Power? { TwoValues(s, es); }
  }

  lemma OverValue(s: Sense, es: Exprs)
    requires Lawful(s) && Len(es) == 2 && es.More? && es.rest.More?
    ensures TermValue(s, Meant(Node(Over, es))) ==
      Quotient(TermValue(s, Meant(es.first)), TermValue(s, Meant(es.rest.first)))
  {
    Shapes(es);
    assert Meant(Node(Over, es)) == R.Infix("/", Meant(es.first), Meant(es.rest.first));
  }

  lemma IsZeroValue(s: Sense, es: Exprs)
    requires Lawful(s) && Len(es) == 1 && es.More?
    ensures TermValue(s, Meant(Node(IsZero, es))) == EqualsZero(TermValue(s, Meant(es.first)))
  {
    assert Meant(Node(IsZero, es)) == R.Infix("=", Meant(es.first), R.Word("0"));
    assert TermValue(s, R.Word("0")) == Num(0.0);
  }

  lemma AroundIsTermValue(d: R.Dialect, s: Sense, parts: seq<string>, es: Exprs)
    requires AroundIn(d, parts, Len(es))
    ensures AroundValue(s, parts, TermValues(s, MeantAll(es))) == TermValue(s, Meant(Node(Around(parts), es)))
  {
    Shapes(es);
    if |parts| == 2 { OneValue(s, es); MeantGroup(parts, es.first); }
    if |parts| == 3 { TwoValues(s, es); MeantOperator(parts, es.first, es.rest.first); }
  }

  lemma OneValue(s: Sense, es: Exprs)
    requires Len(es) == 1
    ensures es.More? && TermValues(s, MeantAll(es)) == [TermValue(s, Meant(es.first))]
  {
    Shapes(es);
    assert TermValues(s, MeantAll(End)) == [];
  }

  lemma TwoValues(s: Sense, es: Exprs)
    requires Len(es) == 2
    ensures es.More? && es.rest.More?
    ensures TermValues(s, MeantAll(es)) == [TermValue(s, Meant(es.first)), TermValue(s, Meant(es.rest.first))]
  {
    Shapes(es);
    OneValue(s, es.rest);
  }

  lemma ThreeValues(s: Sense, es: Exprs)
    requires Len(es) == 3
    ensures es.More? && es.rest.More? && es.rest.rest.More?
    ensures TermValues(s, MeantAll(es)) ==
      [TermValue(s, Meant(es.first)), TermValue(s, Meant(es.rest.first)), TermValue(s, Meant(es.rest.rest.first))]
  {
    Shapes(es);
    TwoValues(s, es.rest);
  }

  /** A text that is read as it was meant keeps its value through the chain of
      rewrites, if the spliced operands bind tightly enough. */
  lemma TextValueKept(d: R.Dialect, s: Sense, e: Expr)
    requires Proper(d) && Lawful(s) && MonotoneSense(s)
    requires Fragment(d, e) && Safe(d, {}, e) && Spliceable(d, e)
    ensures var (before, after) := (TextValue(d, s, Print(e)), TextValue(d, s, Print(Chain(e))));
      && before.Some? && after.Some? && Refines(before.value, after.value)
      && (Steady(MeaningOf(s), e) ==> before == after)
  {
    TextReads(d, e);
    ChainReads(d, e);
    SpliceableChain(d, e);
    EvalIsTermValue(d, s, e);
    EvalIsTermValue(d, s, Chain(e));
    MeaningMonotone(s);
    ChainValue(MeaningOf(s), e);
    if Steady(MeaningOf(s), e) { ChainExact(MeaningOf(s), e); }
  }

  // ---- Where the grouping is lost ----

  function Leaf(w: string): Expr {
    Node(Around([w]), End)
  }

  function Sum(l: Expr, r: Expr): Expr {
    Node(Around(["", " + ", ""]), List2(l, r))
  }

  /** + is an operator that binds more loosely than division. */
  ghost predicate HasSums(d: R.Dialect) {
    d.token("+") == R.Op("+") && d.level("+") < d.level("/")
  }

  lemma LeafIn(d: R.Dialect, w: string)
    requires Free(d, w)
    ensures Fragment(d, Leaf(w)) && Safe(d, {}, Leaf(w)) && Meant(Leaf(w)) == R.Word(w) && Print(Leaf(w)) == w
  {
    assert Rest(Around([w]), 0, 0, End) == "";
    assert w + "" == w;
  }

  lemma PlusIsOperator(d: R.Dialect)
    requires HasSums(d)
    ensures IsOperator(d, " + ") && OpOf(" + ") == "+"
  {
    assert Trimmed(" + ") == "+" && ToUpper("+") == "+" && AllSymbols("+");
    forall f ensures NameOf(f) != "+" { NameFacts(f); }
  }

  lemma SumIn(d: R.Dialect, l: Expr, r: Expr)
    requires HasSums(d) && Fragment(d, l) && Fragment(d, r)
    ensures Fragment(d, Sum(l, r)) && Meant(Sum(l, r)) == R.Infix("+", Meant(l), Meant(r))
    ensures Print(Sum(l, r)) == Print(l) + " + " + Print(r)
  {
    var p := " + ";
    PlusIsOperator(d);
    Lengths(l, r, r);
    ListsIn(d, l, r, r);
    MeantOperator(["", p, ""], l, r);
    FormText(Around(["", p, ""]), l, r, r);
    assert "" + (Print(l) + p + (Print(r) + "")) == Print(l) + p + Print(r);
  }

  lemma SumSafe(d: R.Dialect, l: Expr, r: Expr)
    requires HasSums(d) && Fragment(d, l) && Fragment(d, r) && Safe(d, {}, l) && Safe(d, {}, r)
    ensures Safe(d, {}, Sum(l, r)) <==> Sides(d, "+", l, r)
  {
    SumIn(d, l, r);
    SafeIsGrouped(d, l);
    SafeIsGrouped(d, r);
    SafeIsGrouped(d, Sum(l, r));
  }

  /** (a + b) over c, as a call and as the replacement of the call. */
  function SumOver(a: string, b: string, c: string): Expr {
    Node(Call(DIV0, NameOf(DIV0)), List2(Sum(Leaf(a), Leaf(b)), Leaf(c)))
  }

  function GuardedSum(a: string, b: string, c: string): Expr {
    Template(DIV0, List2(Sum(Leaf(a), Leaf(b)), Leaf(c)))
  }

  /** a + (b over c), guarded like the replacement. */
  function SumOfOver(a: string, b: string, c: string): Expr {
    Node(Case, List3(Node(IsZero, List1(Leaf(c))), Node(Zero, End), Sum(Leaf(a), Node(Over, List2(Leaf(b), Leaf(c))))))
  }

  lemma NoCalls(f: Rule, a: string, b: string, c: string)
    ensures !HasCall(f, Sum(Leaf(a), Leaf(b))) && !HasCall(f, Leaf(c))
    ensures f != DIV0 ==> !HasCall(f, SumOver(a, b, c)) && !HasCall(f, GuardedSum(a, b, c))
  {
    var (sum, leaf) := (Sum(Leaf(a), Leaf(b)), Leaf(c));
    AnyCallOf(f, Leaf(a), Leaf(b), leaf);
    AnyCallOf(f, sum, leaf, leaf);
    AnyCallOf(f, leaf, leaf, leaf);
    AnyCallOf(f, Node(IsZero, List1(leaf)), Node(Zero, End), Node(Over, List2(sum, leaf)));
    assert Arg(List2(sum, leaf), 1) == leaf;
  }

  lemma ChainOfSumOver(a: string, b: string, c: string)
    ensures Chain(SumOver(a, b, c)) == GuardedSum(a, b, c)
  {
    var (e, kids) := (SumOver(a, b, c), List2(Sum(Leaf(a), Leaf(b)), Leaf(c)));
    forall f ensures f != DIV0 ==> Norm(f, e) == e && Norm(f, GuardedSum(a, b, c)) == GuardedSum(a, b, c) {
      NoCalls(f, a, b, c);
      if f != DIV0 { NormDone(f, e); NormDone(f, GuardedSum(a, b, c)); }
    }
    NoCalls(DIV0, a, b, c);
    NormDone(DIV0, Sum(Leaf(a), Leaf(b)));
    NormDone(DIV0, Leaf(c));
    NormLists(DIV0, Sum(Leaf(a), Leaf(b)), Leaf(c), Leaf(c));
    assert Norm(DIV0, e) == GuardedSum(a, b, c);
  }

  lemma SumOverText(d: R.Dialect, a: string, b: string, c: string)
    requires HasSums(d) && Free(d, a) && Free(d, b) && Free(d, c)
    ensures Print(SumOver(a, b, c)) == (NameOf(DIV0) + "(") + (a + " + " + b) + ", " + c + ")"
  {
    LeafIn(d, a);
    LeafIn(d, b);
    LeafIn(d, c);
    SumIn(d, Leaf(a), Leaf(b));
    PairText(Call(DIV0, NameOf(DIV0)), Sum(Leaf(a), Leaf(b)), Leaf(c));
    CallParts(NameOf(DIV0), a + " + " + b, c);
  }

  lemma GuardedSumText(d: R.Dialect, a: string, b: string, c: string)
    requires HasSums(d) && Free(d, a) && Free(d, b) && Free(d, c)
    ensures Print(GuardedSum(a, b, c)) == "CASE WHEN " + c + " = 0 THEN 0 ELSE " + (a + " + " + b) + " / " + c + " END"
  {
    LeafIn(d, a);
    LeafIn(d, b);
    LeafIn(d, c);
    SumIn(d, Leaf(a), Leaf(b));
    GuardText(Leaf(c), Sum(Leaf(a), Leaf(b)), Leaf(c));
    assert Arg(List2(Sum(Leaf(a), Leaf(b)), Leaf(c)), 1) == Leaf(c);
  }

  /** Both trees write the quotient the same way. */
  lemma SameText(d: R.Dialect, a: string, b: string, c: string)
    requires HasSums(d) && Free(d, a) && Free(d, b) && Free(d, c)
    ensures Print(SumOfOver(a, b, c)) == Print(GuardedSum(a, b, c))
  {
    var (x, y, z) := (Leaf(a), Leaf(b), Leaf(c));
    SameQuotient(d, x, y, z);
    CaseText(Node(IsZero, List1(z)), Node(Zero, End), Sum(x, Node(Over, List2(y, z))));
    CaseText(Node(IsZero, List1(z)), Node(Zero, End), Node(Over, List2(Sum(x, y), z)));
    assert Arg(List2(Sum(x, y), z), 1) == z;
  }

  lemma SameQuotient(d: R.Dialect, x: Expr, y: Expr, z: Expr)
    requires HasSums(d) && Fragment(d, x) && Fragment(d, y) && Fragment(d, z)
    ensures Print(Sum(x, Node(Over, List2(y, z)))) == Print(Node(Over, List2(Sum(x, y), z)))
  {
    OverIn(d, y, z);
    SumIn(d, x, y);
    SumIn(d, x, Node(Over, List2(y, z)));
    FormTexts(Sum(x, y), z);
    FormTexts(y, z);
    Regroup(Print(x), " + ", Print(y), " / ", Print(z));
  }

  lemma Regroup(x: string, p: string, y: string, q: string, z: string)
    ensures x + p + (y + q + z) == (x + p + y) + q + z
  {
  }

  lemma CallParts(w: string, x: string, y: string)
    ensures w + "(" + (x + ", " + y) + ")" == (w + "(") + x + ", " + y + ")"
  {
    assert w + "(" + (x + ", " + y) == (w + "(") + x + ", " + y;
  }

  lemma OverIn(d: R.Dialect, l: Expr, r: Expr)
    requires Fragment(d, l) && Fragment(d, r)
    ensures Fragment(d, Node(Over, List2(l, r))) && Meant(Node(Over, List2(l, r))) == R.Infix("/", Meant(l), Meant(r))
  {
    Lengths(l, r, r);
    ListsIn(d, l, r, r);
  }

  /** Both are trees that their text is read as. */
  lemma SumOverRead(d: R.Dialect, a: string, b: string, c: string)
    requires Proper(d) && HasSums(d) && Free(d, a) && Free(d, b) && Free(d, c)
    ensures Fragment(d, SumOver(a, b, c)) && Safe(d, {}, SumOver(a, b, c))
  {
    var (x, y, z) := (Leaf(a), Leaf(b), Leaf(c));
    LeafIn(d, a);
    LeafIn(d, b);
    LeafIn(d, c);
    SumIn(d, x, y);
    SumSafe(d, x, y);
    CallIn(d, Sum(x, y), z);
  }

  lemma CallIn(d: R.Dialect, l: Expr, r: Expr)
    requires Proper(d) && Fragment(d, l) && Fragment(d, r) && Safe(d, {}, l) && Safe(d, {}, r)
    ensures var e := Node(Call(DIV0, NameOf(DIV0)), List2(l, r)); Fragment(d, e) && Safe(d, {}, e)
  {
    RuleIn(d, DIV0, 2);
    Lengths(l, r, r);
    ListsIn(d, l, r, r);
    SafeLists(d, {}, l, r, r);
  }

  lemma OverSafe(d: R.Dialect, l: Expr, r: Expr)
    requires Safe(d, {}, l) && Safe(d, {}, r) && Sides(d, "/", l, r)
    ensures Safe(d, {}, Node(Over, List2(l, r)))
  {
    SafeLists(d, {}, l, r, r);
    assert Arg(List2(l, r), 1) == r;
  }

  lemma GuardedIn(d: R.Dialect, c: Expr, e: Expr)
    requires Fragment(d, c) && Fragment(d, e) && Safe(d, {}, c) && Safe(d, {}, e)
    requires BindsAt(d, c, R.NeedLeft(d, "="))
    ensures var g := Node(Case, List3(Node(IsZero, List1(c)), Node(Zero, End), e)); Fragment(d, g) && Safe(d, {}, g)
  {
    var (test, zero) := (Node(IsZero, List1(c)), Node(Zero, End));
    SafeLists(d, {}, c, c, c);
    ListsIn(d, c, c, c);
    Lengths(c, c, c);
    assert Fragment(d, zero) && Safe(d, {}, zero);
    ChoiceIn(d, test, zero, e);
    SafeLists(d, {}, test, zero, e);
  }

  lemma SumOfOverRead(d: R.Dialect, a: string, b: string, c: string)
    requires HasSums(d) && Free(d, a) && Free(d, b) && Free(d, c)
    ensures Fragment(d, SumOfOver(a, b, c)) && Safe(d, {}, SumOfOver(a, b, c))
  {
    var (x, y, z) := (Leaf(a), Leaf(b), Leaf(c));
    var quotient := Node(Over, List2(y, z));
    LeafIn(d, a);
    LeafIn(d, b);
    LeafIn(d, c);
    OverIn(d, y, z);
    OverSafe(d, y, z);
    SumIn(d, x, quotient);
    SumSafe(d, x, quotient);
    GuardedIn(d, z, Sum(x, quotient));
  }

  /** Numbers a, b and c, and what + makes of them. */
  ghost predicate Adds(s: Sense, a: string, b: string, c: string, x: real, y: real, z: real) {
    && s.word(a) == Num(x) && s.word(b) == Num(y) && s.word(c) == Num(z)
    && forall u, v :: s.infix("+", Num(u), Num(v)) == Num(u + v)
  }

  lemma SumValue(d: R.Dialect, s: Sense, l: Expr, r: Expr, x: real, y: real, sum: real)
    requires HasSums(d) && Fragment(d, l) && Fragment(d, r)
    requires TermValue(s, Meant(l)) == Num(x) && TermValue(s, Meant(r)) == Num(y)
    requires s.infix("+", Num(x), Num(y)) == Num(sum)
    ensures TermValue(s, Meant(Sum(l, r))) == Num(sum)
  {
    SumIn(d, l, r);
  }

  lemma OverNumbers(s: Sense, l: Expr, r: Expr, x: real, y: real, q: real)
    requires Lawful(s) && TermValue(s, Meant(l)) == Num(x) && TermValue(s, Meant(r)) == Num(y)
    requires y != 0.0 && q == x / y
    ensures TermValue(s, Meant(Node(Over, List2(l, r)))) == Num(q)
  {
    Lengths(l, r, r);
    OverValue(s, List2(l, r));
  }

  /** A guarded operand is worth what it is if the divisor is not 0. */
  lemma GuardPassed(s: Sense, c: Expr, e: Expr, z: real)
    requires Lawful(s) && TermValue(s, Meant(c)) == Num(z) && z != 0.0
    ensures TermValue(s, Meant(Node(Case, List3(Node(IsZero, List1(c)), Node(Zero, End), e)))) == TermValue(s, Meant(e))
  {
    Lengths(c, c, c);
    IsZeroValue(s, List1(c));
    MeantChoiceOf(Node(IsZero, List1(c)), Node(Zero, End), e);
  }

  lemma CallOfTwo(s: Sense, l: Expr, r: Expr, x: real, y: real, q: real)
    requires Lawful(s) && TermValue(s, Meant(l)) == Num(x) && TermValue(s, Meant(r)) == Num(y)
    requires y != 0.0 && q == x / y
    ensures TermValue(s, Meant(Node(Call(DIV0, NameOf(DIV0)), List2(l, r)))) == Num(q)
  {
    Lengths(l, r, r);
    TwoValues(s, List2(l, r));
    CalledByName(s, DIV0, [Num(x), Num(y)]);
    MeantCall(Call(DIV0, NameOf(DIV0)), List2(l, r));
  }

  lemma CalledByName(s: Sense, f: Rule, vs: seq<Val>)
    requires Lawful(s)
    ensures s.apply(NameOf(f), vs) == CallValue(f, vs)
  {
    UpperName(f);
  }

  lemma SumOverValue(
      d: R.Dialect, s: Sense, a: string, b: string, c: string, x: real, y: real, z: real, sum: real, q: real)
    requires HasSums(d) && Free(d, a) && Free(d, b) && Free(d, c)
    requires Lawful(s) && s.word(a) == Num(x) && s.word(b) == Num(y) && s.word(c) == Num(z)
    requires z != 0.0 && sum == x + y && q == sum / z && s.infix("+", Num(x), Num(y)) == Num(sum)
    ensures TermValue(s, Meant(SumOver(a, b, c))) == Num(q)
  {
    var (l, r, t) := (Leaf(a), Leaf(b), Leaf(c));
    LeafIn(d, a);
    LeafIn(d, b);
    LeafIn(d, c);
    SumValue(d, s, l, r, x, y, sum);
    CallOfTwo(s, Sum(l, r), t, sum, z, q);
  }

  lemma SumOfOverValue(
      d: R.Dialect, s: Sense, a: string, b: string, c: string, x: real, y: real, z: real, q: real, sum: real)
    requires HasSums(d) && Free(d, a) && Free(d, b) && Free(d, c)
    requires Lawful(s) && s.word(a) == Num(x) && s.word(b) == Num(y) && s.word(c) == Num(z)
    requires z != 0.0 && q == y / z && sum == x + q && s.infix("+", Num(x), Num(q)) == Num(sum)
    ensures TermValue(s, Meant(SumOfOver(a, b, c))) == Num(sum)
  {
    var (l, r, t) := (Leaf(a), Leaf(b), Leaf(c));
    LeafIn(d, a);
    LeafIn(d, b);
    LeafIn(d, c);
    GuardedSumValue(d, s, l, r, t, x, y, z, q, sum);
  }

  lemma GuardedSumValue(
      d: R.Dialect, s: Sense, l: Expr, r: Expr, t: Expr, x: real, y: real, z: real, q: real, sum: real)
    requires HasSums(d) && Lawful(s) && Fragment(d, l) && Fragment(d, r) && Fragment(d, t)
    requires TermValue(s, Meant(l)) == Num(x) && TermValue(s, Meant(r)) == Num(y) && TermValue(s, Meant(t)) == Num(z)
    requires z != 0.0 && q == y / z && sum == x + q && s.infix("+", Num(x), Num(q)) == Num(sum)
    ensures var e := Sum(l, Node(Over, List2(r, t)));
      TermValue(s, Meant(Node(Case, List3(Node(IsZero, List1(t)), Node(Zero, End), e)))) == Num(sum)
  {
    OverIn(d, r, t);
    OverNumbers(s, r, t, y, z, q);
    SumValue(d, s, l, Node(Over, List2(r, t)), x, q, sum);
    GuardPassed(s, t, Sum(l, Node(Over, List2(r, t))), z);
  }

  lemma TextWorth(d: R.Dialect, s: Sense, e: Expr, text: string)
    requires Proper(d) && Fragment(d, e) && Safe(d, {}, e) && text == Print(e)
    ensures TextValue(d, s, text) == Some(TermValue(s, Meant(e)))
  {
    TextReads(d, e);
  }

  /** before is (x + y) / z, and after is x + y / z. */
  predicate Figures(x: real, y: real, z: real, sum: real, q: real, before: real, after: real) {
    z != 0.0 && sum == x + y && q == y / z && before == sum / z && after == x + q
  }

  /** Where + binds more loosely than division, a call that divides a sum is worth
      the quotient, and its replacement divides the last summand only. */
  lemma GroupingLost(
      d: R.Dialect, s: Sense, a: string, b: string, c: string, x: real, y: real, z: real, sum: real, q: real,
      before: real, after: real)
    requires Proper(d) && HasSums(d) && Free(d, a) && Free(d, b) && Free(d, c)
    requires Lawful(s) && Adds(s, a, b, c, x, y, z) && Figures(x, y, z, sum, q, before, after)
    ensures TextValue(d, s, Print(SumOver(a, b, c))) == Some(Num(before))
    ensures TextValue(d, s, Print(Chain(SumOver(a, b, c)))) == Some(Num(after))
  {
    AddsTo(s, a, b, c, x, y, z, x, y, sum);
    AddsTo(s, a, b, c, x, y, z, x, q, after);
    CallWorth(d, s, a, b, c, x, y, z, sum, before);
    ReplacementWorth(d, s, a, b, c, x, y, z, q, after);
  }

  lemma AddsTo(
      s: Sense, a: string, b: string, c: string, x: real, y: real, z: real, u: real, v: real, sum: real)
    requires Adds(s, a, b, c, x, y, z) && sum == u + v
    ensures s.infix("+", Num(u), Num(v)) == Num(sum)
    ensures s.word(a) == Num(x) && s.word(b) == Num(y) && s.word(c) == Num(z)
  {
  }

  lemma CallWorth(
      d: R.Dialect, s: Sense, a: string, b: string, c: string, x: real, y: real, z: real, sum: real, before: real)
    requires Proper(d) && HasSums(d) && Free(d, a) && Free(d, b) && Free(d, c)
    requires Lawful(s) && s.word(a) == Num(x) && s.word(b) == Num(y) && s.word(c) == Num(z)
    requires z != 0.0 && sum == x + y && before == sum / z && s.infix("+", Num(x), Num(y)) == Num(sum)
    ensures TextValue(d, s, Print(SumOver(a, b, c))) == Some(Num(before))
  {
    SumOverRead(d, a, b, c);
    SumOverValue(d, s, a, b, c, x, y, z, sum, before);
    TextWorth(d, s, SumOver(a, b, c), Print(SumOver(a, b, c)));
  }

  lemma ReplacementWorth(
      d: R.Dialect, s: Sense, a: string, b: string, c: string, x: real, y: real, z: real, q: real, after: real)
    requires Proper(d) && HasSums(d) && Free(d, a) && Free(d, b) && Free(d, c)
    requires Lawful(s) && s.word(a) == Num(x) && s.word(b) == Num(y) && s.word(c) == Num(z)
    requires z != 0.0 && q == y / z && after == x + q && s.infix("+", Num(x), Num(q)) == Num(after)
    ensures TextValue(d, s, Print(Chain(SumOver(a, b, c)))) == Some(Num(after))
  {
    SumOfOverRead(d, a, b, c);
    SameText(d, a, b, c);
    ChainOfSumOver(a, b, c);
    SumOfOverValue(d, s, a, b, c, x, y, z, q, after);
    TextWorth(d, s, SumOfOver(a, b, c), Print(GuardedSum(a, b, c)));
  }

  /** (2 + 4) / 2 is 3, but 2 + 4 / 2 is 4. */
  lemma GroupingLostOnNumbers(d: R.Dialect, s: Sense)
    requires Proper(d) && HasSums(d) && Free(d, "2") && Free(d, "4")
    requires Lawful(s) && Adds(s, "2", "4", "2", 2.0, 4.0, 2.0)
    ensures TextValue(d, s, "DIV0(2 + 4, 2)") == Some(Num(3.0))
    ensures TextValue(d, s, Replacement(DIV0, ["2 + 4", "2"])) == Some(Num(4.0))
  {
    NumberText(d);
    NumberReplacement(d);
    NumbersLost(d, s, "2", "4", "DIV0(2 + 4, 2)", Replacement(DIV0, ["2 + 4", "2"]));
  }

  lemma NumbersLost(d: R.Dialect, s: Sense, two: string, four: string, before: string, after: string)
    requires Proper(d) && HasSums(d) && Free(d, two) && Free(d, four)
    requires Lawful(s) && Adds(s, two, four, two, 2.0, 4.0, 2.0)
    requires before == Print(SumOver(two, four, two)) && after == Print(Chain(SumOver(two, four, two)))
    ensures TextValue(d, s, before) == Some(Num(3.0)) && TextValue(d, s, after) == Some(Num(4.0))
  {
    FiguresOf246();
    GroupingLost(d, s, two, four, two, 2.0, 4.0, 2.0, 6.0, 2.0, 3.0, 4.0);
  }

  lemma FiguresOf246()
    ensures Figures(2.0, 4.0, 2.0, 6.0, 2.0, 3.0, 4.0)
  {
  }

  lemma NumberText(d: R.Dialect)
    requires HasSums(d) && Free(d, "2") && Free(d, "4")
    ensures Print(SumOver("2", "4", "2")) == "DIV0(2 + 4, 2)"
  {
    SumOverText(d, "2", "4", "2");
    NumberTexts();
  }

  lemma NumberReplacement(d: R.Dialect)
    requires HasSums(d) && Free(d, "2") && Free(d, "4")
    ensures Print(Chain(SumOver("2", "4", "2"))) == Replacement(DIV0, ["2 + 4", "2"])
  {
    GuardedSumText(d, "2", "4", "2");
    ChainOfSumOver("2", "4", "2");
    NumberTexts();
  }

  lemma NumberTexts()
    ensures "2" + " + " + "4" == "2 + 4"
    ensures (NameOf(DIV0) + "(") + "2 + 4" + ", " + "2" + ")" == "DIV0(2 + 4, 2)"
  {
  }
}

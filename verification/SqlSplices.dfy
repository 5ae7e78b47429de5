/** Exactly for which expressions the text that the chain of rewrites leaves is read
    as the rewritten tree. */
module SqlSplices {
  import opened Text
  import opened FuncArgs
  import opened CallSearch
  import opened SqlExpr
  import opened SqlText
  import opened SqlLexer
  import opened SqlGrouping
  import R = SqlReader

  predicate BindsAt(d: R.Dialect, e: Expr, k: nat) {
    R.Binds(d, Meant(e), k)
  }

  predicate Sides(d: R.Dialect, op: string, l: Expr, r: Expr) {
    BindsAt(d, l, R.NeedLeft(d, op)) && BindsAt(d, r, R.NeedRight(d, op))
  }

  predicate BothSides(d: R.Dialect, op: string, es: Exprs) {
    Len(es) == 2 ==> Sides(d, op, Arg(es, 0), Arg(es, 1))
  }

  /** The operands of a node bind as tightly as their places need. */
  predicate HeadTight(d: R.Dialect, head: Head, es: Exprs) {
    match head
    case NotNull => es.More? ==> BindsAt(d, es.first, R.NeedLeft(d, R.IS))
    case IsZero => es.More? ==> BindsAt(d, es.first, R.NeedLeft(d, "="))
    case Over => BothSides(d, "/", es)
    case Around(parts) => |parts| == 3 && |parts[1]| >= 2 ==> BothSides(d, OpOf(parts[1]), es)
    case _ => true
  }

  /** The arguments of a call bind as tightly as the places where its replacement
      puts them need. */
  predicate SpliceTight(d: R.Dialect, f: Rule, es: Exprs)
    requires Len(es) >= Arity(f)
  {
    match f
    case NVL2 => BindsAt(d, Arg(es, 0), R.NeedLeft(d, R.IS))
    case DIV0NULL => Sides(d, "/", Arg(es, 0), Arg(es, 1))
    case DIV0 => Sides(d, "/", Arg(es, 0), Arg(es, 1)) && BindsAt(d, Arg(es, 1), R.NeedLeft(d, "="))
    case _ => true
  }

  /** Everywhere in the tree, where calls of fs stand for their replacements; what a
      replacement drops does not matter. */
  predicate Safe(d: R.Dialect, fs: set<Rule>, e: Expr)
    decreases e
  {
    if e.head.Call? && e.head.rule in fs && Len(e.kids) >= Arity(e.head.rule) then
      SpliceTight(d, e.head.rule, e.kids) && KeptSafe(d, fs, e.head.rule, e.kids, 0)
    else
      HeadTight(d, e.head, e.kids) && AllSafe(d, fs, e.kids)
  }

  predicate AllSafe(d: R.Dialect, fs: set<Rule>, es: Exprs)
    decreases es
  {
    es.More? ==> Safe(d, fs, es.first) && AllSafe(d, fs, es.rest)
  }

  predicate KeptSafe(d: R.Dialect, fs: set<Rule>, f: Rule, es: Exprs, i: nat)
    decreases es
  {
    es.More? ==> (Copies(f, i) > 0 ==> Safe(d, fs, es.first)) && KeptSafe(d, fs, f, es.rest, i + 1)
  }

  // ---- Without rewrites, this is how trees are read ----

  lemma {:induction false} SafeIsGrouped(d: R.Dialect, e: Expr)
    requires Fragment(d, e)
    ensures Safe(d, {}, e) <==> R.Grouped(d, Meant(e))
    decreases e
  {
    AllSafeIsGrouped(d, e.kids);
    Shapes(e.kids);
    match e.head
    case Case => ChoiceGrouped(d, e.kids);
    case Over => InfixGrouped(d, "/", e.kids);
    case Around(parts) => if |parts| == 3 { InfixGrouped(d, OpOf(parts[1]), e.kids); }
    case _ =>
  }

  lemma {:induction false} AllSafeIsGrouped(d: R.Dialect, es: Exprs)
    requires AllFragment(d, es)
    ensures AllSafe(d, {}, es) <==> R.AllGrouped(d, MeantAll(es))
    decreases es
  {
    if es.More? { SafeIsGrouped(d, es.first); AllSafeIsGrouped(d, es.rest); }
  }

  lemma ChoiceGrouped(d: R.Dialect, es: Exprs)
    requires Len(es) == 3
    ensures R.AllGrouped(d, MeantAll(es)) <==> R.Grouped(d, MeantChoice(es))
  {
    Shapes(es);
    var (y, n) := (es.rest, es.rest.rest);
    assert R.AllGrouped(d, MeantAll(n)) <==> R.Grouped(d, Meant(n.first));
    assert R.AllGrouped(d, MeantAll(y)) <==> R.Grouped(d, Meant(y.first)) && R.AllGrouped(d, MeantAll(n));
  }

  lemma InfixGrouped(d: R.Dialect, op: string, es: Exprs)
    requires Len(es) == 2
    ensures R.AllGrouped(d, MeantAll(es)) && BothSides(d, op, es) <==> R.Grouped(d, MeantInfix(op, es))
  {
    Shapes(es);
    assert R.AllGrouped(d, MeantAll(es.rest)) <==> R.Grouped(d, Meant(es.rest.first));
    assert Arg(es, 1) == es.rest.first;
  }

  // ---- A rewrite ----

  lemma SafeLists(d: R.Dialect, fs: set<Rule>, a: Expr, b: Expr, c: Expr)
    ensures AllSafe(d, fs, List1(a)) <==> Safe(d, fs, a)
    ensures AllSafe(d, fs, List2(a, b)) <==> Safe(d, fs, a) && Safe(d, fs, b)
    ensures AllSafe(d, fs, List3(a, b, c)) <==> Safe(d, fs, a) && Safe(d, fs, b) && Safe(d, fs, c)
  {
    assert AllSafe(d, fs, List1(c)) <==> Safe(d, fs, c);
    assert AllSafe(d, fs, List1(b)) <==> Safe(d, fs, b);
    assert AllSafe(d, fs, List2(b, c)) <==> Safe(d, fs, b) && AllSafe(d, fs, List1(c));
  }

  lemma {:induction false} NothingKeptSafe(d: R.Dialect, fs: set<Rule>, f: Rule, es: Exprs, i: nat)
    requires forall j :: j >= i ==> Copies(f, j) == 0
    ensures KeptSafe(d, fs, f, es, i)
    decreases es
  {
    if es.More? { NothingKeptSafe(d, fs, f, es.rest, i + 1); }
  }

  lemma {:induction false} NvlKeepsSafe(d: R.Dialect, fs: set<Rule>, es: Exprs, i: nat)
    ensures KeptSafe(d, fs, NVL, es, i) <==> AllSafe(d, fs, es)
    decreases es
  {
    if es.More? { NvlKeepsSafe(d, fs, es.rest, i + 1); }
  }

  lemma KeptUpTo(d: R.Dialect, fs: set<Rule>, f: Rule, es: Exprs, n: nat)
    requires 1 <= n <= 3 && Len(es) >= n && forall j :: 0 <= j ==> (Copies(f, j) > 0 <==> j < n)
    ensures KeptSafe(d, fs, f, es, 0) <==>
      && Safe(d, fs, Arg(es, 0)) && (n > 1 ==> Safe(d, fs, Arg(es, 1))) && (n > 2 ==> Safe(d, fs, Arg(es, 2)))
  {
    var es1 := es.rest;
    assert KeptSafe(d, fs, f, es, 0) <==> Safe(d, fs, Arg(es, 0)) && KeptSafe(d, fs, f, es1, 1);
    if n == 1 { NothingKeptSafe(d, fs, f, es1, 1); }
    if n > 1 {
      var es2 := es1.rest;
      assert Arg(es, 1) == es1.first;
      assert KeptSafe(d, fs, f, es1, 1) <==> Safe(d, fs, es1.first) && KeptSafe(d, fs, f, es2, 2);
      if n == 2 { NothingKeptSafe(d, fs, f, es2, 2); }
      if n > 2 {
        assert Arg(es, 2) == Arg(es1, 1) == es2.first;
        NothingKeptSafe(d, fs, f, es2.rest, 3);
        assert KeptSafe(d, fs, f, es2, 2) <==> Safe(d, fs, es2.first) && KeptSafe(d, fs, f, es2.rest, 3);
      }
    }
  }

  /** CASE WHEN c = 0 THEN 0 ELSE a / b END */
  lemma GuardSafe(d: R.Dialect, fs: set<Rule>, c: Expr, a: Expr, b: Expr)
    ensures Safe(d, fs, Node(Case, List3(Node(IsZero, List1(c)), Node(Zero, End), Node(Over, List2(a, b))))) <==>
      && Safe(d, fs, c) && Safe(d, fs, a) && Safe(d, fs, b)
      && BindsAt(d, c, R.NeedLeft(d, "=")) && Sides(d, "/", a, b)
  {
    var (zero, test, quotient) := (Node(Zero, End), Node(IsZero, List1(c)), Node(Over, List2(a, b)));
    SafeLists(d, fs, test, zero, quotient);
    SafeLists(d, fs, c, zero, zero);
    SafeLists(d, fs, a, b, zero);
    Lengths(a, b, b);
    assert Arg(List2(a, b), 1) == b;
    assert Safe(d, fs, zero);
  }

  /** The replacement of a call is safe exactly if the arguments it keeps are, and fit. */
  lemma TemplateSafe(d: R.Dialect, fs: set<Rule>, f: Rule, kids: Exprs)
    requires Len(kids) >= Arity(f)
    ensures Safe(d, fs, Template(f, kids)) <==> SpliceTight(d, f, kids) && KeptSafe(d, fs, f, kids, 0)
  {
    match f
    case IFF =>
      KeptUpTo(d, fs, f, kids, 3);
      SafeLists(d, fs, Arg(kids, 0), Arg(kids, 1), Arg(kids, 2));
    case NVL2 =>
      KeptUpTo(d, fs, f, kids, 3);
      SafeLists(d, fs, Node(NotNull, List1(Arg(kids, 0))), Arg(kids, 1), Arg(kids, 2));
      SafeLists(d, fs, Arg(kids, 0), Arg(kids, 0), Arg(kids, 0));
    case NVL =>
      NvlKeepsSafe(d, fs, kids, 0);
    case DIV0NULL =>
      KeptUpTo(d, fs, f, kids, 2);
      var (divisor, zero) := (Arg(kids, 1), Node(Zero, End));
      GuardSafe(d, fs, Node(Coalesce, List2(divisor, zero)), Arg(kids, 0), divisor);
      SafeLists(d, fs, divisor, zero, zero);
      assert Safe(d, fs, zero);
    case DIV0 =>
      KeptUpTo(d, fs, f, kids, 2);
      GuardSafe(d, fs, Arg(kids, 1), Arg(kids, 0), Arg(kids, 1));
    case SQUARE =>
      KeptUpTo(d, fs, f, kids, 1);
      SafeLists(d, fs, Arg(kids, 0), Node(Two, End), Node(Two, End));
      assert Safe(d, fs, Node(Two, End));
  }

  /** What a rewrite makes of an operand binds like the operand. */
  lemma NormBinds(d: R.Dialect, f: Rule, e: Expr, k: nat)
    requires Fragment(d, e)
    ensures BindsAt(d, Norm(f, e), k) <==> BindsAt(d, e, k)
  {
    if Calls(e.head, f) {
      TemplateBinds(d, f, NormAll(f, e.kids), k);
    } else {
      OuterBinds(d, e, k);
      OuterBinds(d, Norm(f, e), k);
    }
  }

  /** Only the outermost operator counts. */
  predicate HeadBinds(d: R.Dialect, head: Head, k: nat) {
    match head
    case NotNull => d.level(R.IS) >= k
    case Over => d.level("/") >= k
    case IsZero => d.level("=") >= k
    case Around(parts) => |parts| == 3 && |parts[1]| >= 2 ==> d.level(OpOf(parts[1])) >= k
    case _ => true
  }

  lemma OuterBinds(d: R.Dialect, e: Expr, k: nat)
    requires HeadIn(d, e.head, Len(e.kids))
    ensures BindsAt(d, e, k) <==> HeadBinds(d, e.head, k)
  {
    Shapes(e.kids);
    match e.head
    case Case => MeantChoiceOf(e.kids.first, e.kids.rest.first, e.kids.rest.rest.first);
    case Over => assert MeantInfix("/", e.kids).Infix?;
    case Around(parts) => if |parts| == 3 { MeantOperator(parts, e.kids.first, e.kids.rest.first); }
    case _ =>
  }

  /** A replacement needs no operator around it. */
  lemma TemplateBinds(d: R.Dialect, f: Rule, kids: Exprs, k: nat)
    ensures BindsAt(d, Template(f, kids), k)
  {
    if Len(kids) >= Arity(f) {
      match f
      case IFF => MeantChoiceOf(Arg(kids, 0), Arg(kids, 1), Arg(kids, 2));
      case NVL2 => MeantChoiceOf(Node(NotNull, List1(Arg(kids, 0))), Arg(kids, 1), Arg(kids, 2));
      case _ =>
    }
  }

  lemma NormSides(d: R.Dialect, f: Rule, op: string, l: Expr, r: Expr)
    requires Fragment(d, l) && Fragment(d, r)
    ensures Sides(d, op, Norm(f, l), Norm(f, r)) <==> Sides(d, op, l, r)
  {
    NormBinds(d, f, l, R.NeedLeft(d, op));
    NormBinds(d, f, r, R.NeedRight(d, op));
  }

  lemma {:induction false} ArgIn(d: R.Dialect, es: Exprs, i: nat)
    requires AllFragment(d, es) && i < Len(es)
    ensures Fragment(d, Arg(es, i))
  {
    if i > 0 { ArgIn(d, es.rest, i - 1); }
  }

  lemma NormHeadTight(d: R.Dialect, f: Rule, head: Head, es: Exprs)
    requires AllFragment(d, es)
    ensures HeadTight(d, head, NormAll(f, es)) <==> HeadTight(d, head, es)
  {
    if es.More? {
      NormBinds(d, f, es.first, R.NeedLeft(d, R.IS));
      NormBinds(d, f, es.first, R.NeedLeft(d, "="));
    }
    match head
    case Over => NormBothSides(d, f, "/", es);
    case Around(parts) => if |parts| == 3 && |parts[1]| >= 2 { NormBothSides(d, f, OpOf(parts[1]), es); }
    case _ =>
  }

  lemma NormBothSides(d: R.Dialect, f: Rule, op: string, es: Exprs)
    requires AllFragment(d, es)
    ensures BothSides(d, op, NormAll(f, es)) <==> BothSides(d, op, es)
  {
    if Len(es) == 2 {
      ArgIn(d, es, 0);
      ArgIn(d, es, 1);
      ArgNorm(f, es, 0);
      ArgNorm(f, es, 1);
      NormSides(d, f, op, Arg(es, 0), Arg(es, 1));
    }
  }

  lemma NormSpliceTight(d: R.Dialect, f: Rule, g: Rule, es: Exprs)
    requires AllFragment(d, es) && Len(es) >= Arity(g)
    ensures SpliceTight(d, g, NormAll(f, es)) <==> SpliceTight(d, g, es)
  {
    if Arity(g) >= 2 {
      ArgIn(d, es, 0);
      ArgIn(d, es, 1);
      ArgNorm(f, es, 0);
      ArgNorm(f, es, 1);
      NormSides(d, f, "/", Arg(es, 0), Arg(es, 1));
      NormBinds(d, f, Arg(es, 0), R.NeedLeft(d, R.IS));
      NormBinds(d, f, Arg(es, 1), R.NeedLeft(d, "="));
    }
  }

  /** A rewrite is safe exactly if it was counted on. */
  lemma {:induction false} SafeNorm(d: R.Dialect, fs: set<Rule>, f: Rule, e: Expr)
    requires Fragment(d, e)
    ensures Safe(d, fs, Norm(f, e)) <==> Safe(d, fs + {f}, e)
    decreases e
  {
    AllSafeNorm(d, fs, f, e.kids);
    NormHeadTight(d, f, e.head, e.kids);
    if e.head.Call? && Len(e.kids) >= Arity(e.head.rule) {
      KeptSafeNorm(d, fs, f, e.head.rule, e.kids, 0);
      CallSafeNorm(d, fs, f, e.head.rule, e.head.word, e.kids, NormAll(f, e.kids));
    }
  }

  lemma CallSafeNorm(d: R.Dialect, fs: set<Rule>, f: Rule, g: Rule, word: string, es: Exprs, kids: Exprs)
    requires AllFragment(d, es) && Len(es) >= Arity(g) && kids == NormAll(f, es)
    requires KeptSafe(d, fs, g, kids, 0) <==> KeptSafe(d, fs + {f}, g, es, 0)
    requires AllSafe(d, fs, kids) <==> AllSafe(d, fs + {f}, es)
    ensures Safe(d, fs, Norm(f, Node(Call(g, word), es))) <==> Safe(d, fs + {f}, Node(Call(g, word), es))
  {
    NormSpliceTight(d, f, g, es);
    if g == f { TemplateSafe(d, fs, f, kids); }
  }

  lemma {:induction false} AllSafeNorm(d: R.Dialect, fs: set<Rule>, f: Rule, es: Exprs)
    requires AllFragment(d, es)
    ensures AllSafe(d, fs, NormAll(f, es)) <==> AllSafe(d, fs + {f}, es)
    decreases es
  {
    if es.More? { SafeNorm(d, fs, f, es.first); AllSafeNorm(d, fs, f, es.rest); }
  }

  lemma {:induction false} KeptSafeNorm(d: R.Dialect, fs: set<Rule>, f: Rule, g: Rule, es: Exprs, i: nat)
    requires AllFragment(d, es)
    ensures KeptSafe(d, fs, g, NormAll(f, es), i) <==> KeptSafe(d, fs + {f}, g, es, i)
    decreases es
  {
    if es.More? { SafeNorm(d, fs, f, es.first); KeptSafeNorm(d, fs, f, g, es.rest, i + 1); }
  }

  // ---- The chain ----

  lemma {:induction false} NormIn(d: R.Dialect, f: Rule, e: Expr)
    requires Proper(d) && Fragment(d, e)
    ensures Fragment(d, Norm(f, e))
    decreases e
  {
    AllNormIn(d, f, e.kids);
    if Calls(e.head, f) { TemplateIn(d, f, NormAll(f, e.kids)); }
  }

  lemma {:induction false} AllNormIn(d: R.Dialect, f: Rule, es: Exprs)
    requires Proper(d) && AllFragment(d, es)
    ensures AllFragment(d, NormAll(f, es))
    decreases es
  {
    if es.More? { NormIn(d, f, es.first); AllNormIn(d, f, es.rest); }
  }

  lemma RuleIn(d: R.Dialect, f: Rule, n: nat)
    requires Proper(d)
    ensures HeadIn(d, Call(f, NameOf(f)), n)
  {
    var w := NameOf(f);
    NameFacts(f);
    assert IsRule(w) && Emitted(w, R.Name(w));
    assert AllParts(w);
    UpperName(f);
  }

  lemma ListsIn(d: R.Dialect, a: Expr, b: Expr, c: Expr)
    requires Fragment(d, a) && Fragment(d, b) && Fragment(d, c)
    ensures AllFragment(d, List1(a)) && AllFragment(d, List2(a, b)) && AllFragment(d, List3(a, b, c))
  {
    assert AllFragment(d, List1(c)) && AllFragment(d, List1(b));
    assert AllFragment(d, List2(b, c));
  }

  lemma GuardIn(d: R.Dialect, c: Expr, a: Expr, b: Expr)
    requires Fragment(d, c) && Fragment(d, a) && Fragment(d, b)
    ensures Fragment(d, Node(Case, List3(Node(IsZero, List1(c)), Node(Zero, End), Node(Over, List2(a, b)))))
  {
    var (zero, test, quotient) := (Node(Zero, End), Node(IsZero, List1(c)), Node(Over, List2(a, b)));
    Lengths(a, b, c);
    Lengths(c, zero, quotient);
    Lengths(test, zero, quotient);
    assert Fragment(d, zero);
    ListsIn(d, c, zero, zero);
    ListsIn(d, a, b, zero);
    ListsIn(d, test, zero, quotient);
  }

  lemma TemplateIn(d: R.Dialect, f: Rule, kids: Exprs)
    requires Proper(d) && AllFragment(d, kids)
    ensures Fragment(d, Template(f, kids))
  {
    if Len(kids) < Arity(f) {
      RuleIn(d, f, Len(kids));
    } else {
      var (zero, two) := (Node(Zero, End), Node(Two, End));
      assert Fragment(d, zero) && Fragment(d, two);
      if Arity(f) > 0 { ArgIn(d, kids, 0); }
      if Arity(f) > 1 { ArgIn(d, kids, 1); }
      if Arity(f) > 2 { ArgIn(d, kids, 2); }
      match f
      case IFF => ChoiceIn(d, Arg(kids, 0), Arg(kids, 1), Arg(kids, 2));
      case NVL2 =>
        ListsIn(d, Arg(kids, 0), zero, zero);
        Lengths(Arg(kids, 0), zero, zero);
        ChoiceIn(d, Node(NotNull, List1(Arg(kids, 0))), Arg(kids, 1), Arg(kids, 2));
      case NVL =>
      case DIV0NULL =>
        ListsIn(d, Arg(kids, 1), zero, zero);
        GuardIn(d, Node(Coalesce, List2(Arg(kids, 1), zero)), Arg(kids, 0), Arg(kids, 1));
      case DIV0 => GuardIn(d, Arg(kids, 1), Arg(kids, 0), Arg(kids, 1));
      case SQUARE =>
        ListsIn(d, Arg(kids, 0), two, two);
        Lengths(Arg(kids, 0), two, two);
    }
  }

  lemma ChoiceIn(d: R.Dialect, c: Expr, y: Expr, n: Expr)
    requires Fragment(d, c) && Fragment(d, y) && Fragment(d, n)
    ensures Fragment(d, Node(Case, List3(c, y, n)))
  {
    ListsIn(d, c, y, n);
    Lengths(c, y, n);
  }

  /** A tree's text is read as the tree exactly if every operand binds tightly enough. */
  lemma TextReads(d: R.Dialect, e: Expr)
    requires Proper(d) && Fragment(d, e)
    ensures ReadText(d, Print(e)) == Some(Meant(e)) <==> Safe(d, {}, e)
  {
    LexPrint(d, e, "");
    assert Print(e) + "" == Print(e);
    R.ReaderExact(d, Lex(d, Print(e)), Meant(e));
    SafeIsGrouped(d, e);
  }

  /** Every operand binds as tightly as its place needs, where calls of the six
      functions stand for their replacements: a divided argument at least like a
      quotient, a divisor more tightly, and the first argument of NVL2 more tightly
      than IS. */
  predicate Spliceable(d: R.Dialect, e: Expr) {
    Safe(d, {IFF, NVL2, NVL, DIV0NULL, DIV0, SQUARE}, e)
  }

  lemma SpliceableChain(d: R.Dialect, e: Expr)
    requires Proper(d) && Fragment(d, e)
    ensures Fragment(d, Chain(e)) && (Safe(d, {}, Chain(e)) <==> Spliceable(d, e))
  {
    var e1 := Norm(IFF, e);
    var e2 := Norm(NVL2, e1);
    var e3 := Norm(NVL, e2);
    var e4 := Norm(DIV0NULL, e3);
    var e5 := Norm(DIV0, e4);
    NormIn(d, IFF, e);
    NormIn(d, NVL2, e1);
    NormIn(d, NVL, e2);
    NormIn(d, DIV0NULL, e3);
    NormIn(d, DIV0, e4);
    NormIn(d, SQUARE, e5);
    SafeNorm(d, {}, SQUARE, e5);
    var f1: set<Rule> := {} + {SQUARE};
    SafeNorm(d, f1, DIV0, e4);
    var f2 := f1 + {DIV0};
    SafeNorm(d, f2, DIV0NULL, e3);
    var f3 := f2 + {DIV0NULL};
    SafeNorm(d, f3, NVL, e2);
    var f4 := f3 + {NVL};
    SafeNorm(d, f4, NVL2, e1);
    var f5 := f4 + {NVL2};
    SafeNorm(d, f5, IFF, e);
    assert f5 + {IFF} == {IFF, NVL2, NVL, DIV0NULL, DIV0, SQUARE};
  }

  /** The text that the chain of rewrites leaves is read as the rewritten tree exactly
      if the spliced operands bind tightly enough. */
  lemma ChainReads(d: R.Dialect, e: Expr)
    requires Proper(d) && Fragment(d, e)
    ensures ReadText(d, Print(Chain(e))) == Some(Meant(Chain(e))) <==> Spliceable(d, e)
  {
    SpliceableChain(d, e);
    TextReads(d, Chain(e));
  }
}

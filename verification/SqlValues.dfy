/** What expressions are worth under SQL's three-valued logic, and that the
    rewrites keep it. CASE and COALESCE are those of section 6.9 of SQL-92. */
module SqlValues {
  import opened SqlExpr

  /** Fault is a run-time error. */
  datatype Val = Null | Truth(b: bool) | Num(x: real) | Chars(s: string) | Fault

  /** The same value, or a value where there was an error. */
  predicate Refines(v: Val, w: Val) {
    v.Fault? || v == w
  }

  predicate AllRefine(vs: seq<Val>, ws: seq<Val>) {
    |vs| == |ws| && forall i :: 0 <= i < |vs| ==> Refines(vs[i], ws[i])
  }

  /** What calls of other functions and all other text mean. */
  datatype Meaning = Meaning(fn: (string, seq<Val>) -> Val, around: (seq<string>, seq<Val>) -> Val)

  /** An operand that stops being an error changes no other result. */
  ghost predicate Monotone(m: Meaning) {
    forall vs, ws :: AllRefine(vs, ws) ==>
      && (forall name {:trigger m.fn(name, vs)} :: Refines(m.fn(name, vs), m.fn(name, ws)))
      && (forall parts {:trigger m.around(parts, vs)} :: Refines(m.around(parts, vs), m.around(parts, ws)))
  }

  // ---- The forms ----

  /** CASE WHEN c THEN t ELSE e END; only the chosen branch is looked at. */
  function Choose(c: Val, t: Val, e: Val): Val {
    match c
    case Truth(b) => if b then t else e
    case Null => e
    case _ => Fault
  }

  function IsNotNull(v: Val): Val {
    if v.Fault? then Fault else Truth(v != Null)
  }

  /** The first operand that is not NULL. */
  function FirstOf(vs: seq<Val>): Val
    decreases |vs|
  {
    if vs == [] then Null else if vs[0].Null? then FirstOf(vs[1..]) else vs[0]
  }

  function Quotient(a: Val, b: Val): Val {
    match (a, b)
    case (Num(x), Num(y)) => if y == 0.0 then Fault else Num(x / y)
    case (Num(_), Null) => Null
    case (Null, Num(y)) => if y == 0.0 then Fault else Null
    case (Null, Null) => Null
    case _ => Fault
  }

  function EqualsZero(v: Val): Val {
    match v
    case Num(x) => Truth(x == 0.0)
    case Null => Null
    case _ => Fault
  }

  /** POWER(x, 2); other exponents are not needed. */
  function SecondPower(v: Val, n: Val): Val {
    match (v, n)
    case (Num(x), Num(y)) => if y == 2.0 then Num(x * x) else Fault
    case (Null, Num(_)) => Null
    case _ => Fault
  }

  // ---- The functions ----

  /** What a call of a rewritten function is worth: IFF, NVL and NVL2 look only at
      the operands they need, the others at all of them. */
  function CallValue(f: Rule, vs: seq<Val>): Val {
    match f
    case IFF => if |vs| == 3 then Choose(vs[0], vs[1], vs[2]) else Fault
    case NVL2 => if |vs| != 3 || vs[0].Fault? then Fault else if vs[0] != Null then vs[1] else vs[2]
    case NVL => if |vs| == 2 then if vs[0] != Null then vs[0] else vs[1] else Fault
    case DIV0NULL =>
      if |vs| != 2 || vs[0].Fault? || vs[1].Fault? then Fault
      else if vs[1] == Null || vs[1] == Num(0.0) then Num(0.0)
      else Quotient(vs[0], vs[1])
    case DIV0 =>
      if |vs| != 2 || vs[0].Fault? || vs[1].Fault? then Fault
      else if vs[1] == Num(0.0) then Num(0.0)
      else Quotient(vs[0], vs[1])
    case SQUARE =>
      if |vs| != 1 then Fault
      else match vs[0] case Num(x) => Num(x * x) case Null => Null case _ => Fault
  }

  function HeadValue(m: Meaning, head: Head, vs: seq<Val>): Val {
    match head
    case Call(f, _) => CallValue(f, vs)
    case Fn(name) => m.fn(name, vs)
    case Coalesce => FirstOf(vs)
    case Power => if |vs| == 2 then SecondPower(vs[0], vs[1]) else Fault
    case Case => if |vs| == 3 then Choose(vs[0], vs[1], vs[2]) else Fault
    case NotNull => if |vs| == 1 then IsNotNull(vs[0]) else Fault
    case Over => if |vs| == 2 then Quotient(vs[0], vs[1]) else Fault
    case IsZero => if |vs| == 1 then EqualsZero(vs[0]) else Fault
    case Zero => Num(0.0)
    case Two => Num(2.0)
    case Around(parts) => m.around(parts, vs)
  }

  function Eval(m: Meaning, e: Expr): Val {
    HeadValue(m, e.head, EvalAll(m, e.kids))
  }

  function EvalAll(m: Meaning, es: Exprs): (vs: seq<Val>)
    ensures |vs| == Len(es)
  {
    match es case End => [] case More(e, rest) => [Eval(m, e)] + EvalAll(m, rest)
  }

  // ---- The rewrites keep values ----

  lemma {:induction false} FirstOfMonotone(vs: seq<Val>, ws: seq<Val>)
    requires AllRefine(vs, ws)
    ensures Refines(FirstOf(vs), FirstOf(ws))
    decreases |vs|
  {
    if vs != [] {
      assert Refines(vs[0], ws[0]);
      if vs[0].Null? {
        assert AllRefine(vs[1..], ws[1..]);
        FirstOfMonotone(vs[1..], ws[1..]);
      }
    }
  }

  lemma CallMonotone(f: Rule, vs: seq<Val>, ws: seq<Val>)
    requires AllRefine(vs, ws)
    ensures Refines(CallValue(f, vs), CallValue(f, ws))
  {
    assert |vs| > 0 ==> Refines(vs[0], ws[0]);
    assert |vs| > 1 ==> Refines(vs[1], ws[1]);
    assert |vs| > 2 ==> Refines(vs[2], ws[2]);
  }

  lemma HeadMonotone(m: Meaning, head: Head, vs: seq<Val>, ws: seq<Val>)
    requires Monotone(m) && AllRefine(vs, ws)
    ensures Refines(HeadValue(m, head, vs), HeadValue(m, head, ws))
  {
    assert |vs| > 0 ==> Refines(vs[0], ws[0]);
    assert |vs| > 1 ==> Refines(vs[1], ws[1]);
    assert |vs| > 2 ==> Refines(vs[2], ws[2]);
    match head
    case Call(f, _) => CallMonotone(f, vs, ws);
    case Coalesce => FirstOfMonotone(vs, ws);
    case _ =>
  }

  lemma {:induction false} EvalArg(m: Meaning, es: Exprs, i: nat)
    requires i < Len(es)
    ensures EvalAll(m, es)[i] == Eval(m, Arg(es, i))
  {
    if i > 0 { EvalArg(m, es.rest, i - 1); }
  }

  lemma EvalLists(m: Meaning, a: Expr, b: Expr, c: Expr)
    ensures EvalAll(m, List1(a)) == [Eval(m, a)]
    ensures EvalAll(m, List2(a, b)) == [Eval(m, a), Eval(m, b)]
    ensures EvalAll(m, List3(a, b, c)) == [Eval(m, a), Eval(m, b), Eval(m, c)]
  {
    assert EvalAll(m, List1(c)) == [Eval(m, c)] + EvalAll(m, End);
    assert EvalAll(m, List2(b, c)) == [Eval(m, b)] + EvalAll(m, List1(c));
  }

  lemma FirstOfTwo(a: Val, b: Val)
    ensures FirstOf([a, b]) == if a.Null? then b else a
  {
    assert [a, b][1..] == [b] && [b][1..] == [];
    assert FirstOf([b]) == if b.Null? then FirstOf([]) else b;
  }

  lemma GuardedQuotient(m: Meaning, d: Expr, a: Expr, b: Expr)
    ensures Eval(m, Node(Case, List3(Node(IsZero, List1(d)), Node(Zero, End), Node(Over, List2(a, b))))) ==
      Choose(EqualsZero(Eval(m, d)), Num(0.0), Quotient(Eval(m, a), Eval(m, b)))
  {
    var zero := Node(Zero, End);
    EvalLists(m, d, zero, zero);
    EvalLists(m, a, b, zero);
    EvalLists(m, Node(IsZero, List1(d)), zero, Node(Over, List2(a, b)));
  }

  lemma LazyTemplateValue(m: Meaning, f: Rule, kids: Exprs)
    requires Len(kids) >= Arity(f) && (f.IFF? || f.NVL2? || f.NVL?)
    ensures Refines(CallValue(f, EvalAll(m, kids)), Eval(m, Template(f, kids)))
  {
    var vs := EvalAll(m, kids);
    if Arity(f) == 3 { EvalArg(m, kids, 0); EvalArg(m, kids, 1); EvalArg(m, kids, 2); }
    match f
    case IFF => EvalLists(m, Arg(kids, 0), Arg(kids, 1), Arg(kids, 2));
    case NVL2 =>
      EvalLists(m, Arg(kids, 0), Arg(kids, 0), Arg(kids, 0));
      EvalLists(m, Node(NotNull, List1(Arg(kids, 0))), Arg(kids, 1), Arg(kids, 2));
    case NVL =>
      if |vs| == 2 { assert vs == [vs[0], vs[1]]; FirstOfTwo(vs[0], vs[1]); }
  }

  lemma DivTemplateValue(m: Meaning, f: Rule, kids: Exprs)
    requires Len(kids) >= Arity(f) && (f.DIV0NULL? || f.DIV0?)
    ensures Refines(CallValue(f, EvalAll(m, kids)), Eval(m, Template(f, kids)))
  {
    var zero := Node(Zero, End);
    EvalArg(m, kids, 0);
    EvalArg(m, kids, 1);
    var (a, b) := (Arg(kids, 0), Arg(kids, 1));
    if f.DIV0NULL? {
      EvalLists(m, b, zero, zero);
      FirstOfTwo(Eval(m, b), Num(0.0));
      GuardedQuotient(m, Node(Coalesce, List2(b, zero)), a, b);
    } else {
      GuardedQuotient(m, b, a, b);
    }
  }

  /** A call's replacement is worth what the call is worth; a call with a wrong
      number of arguments is an error. */
  lemma TemplateValue(m: Meaning, f: Rule, kids: Exprs)
    ensures Refines(CallValue(f, EvalAll(m, kids)), Eval(m, Template(f, kids)))
  {
    if Len(kids) >= Arity(f) {
      match f
      case DIV0NULL => DivTemplateValue(m, f, kids);
      case DIV0 => DivTemplateValue(m, f, kids);
      case SQUARE =>
        EvalArg(m, kids, 0);
        EvalLists(m, Arg(kids, 0), Node(Two, End), Node(Two, End));
      case _ => LazyTemplateValue(m, f, kids);
    }
  }

  /** Rewriting all calls of a function keeps every value that is not an error. */
  lemma {:induction false} NormValue(m: Meaning, f: Rule, e: Expr)
    requires Monotone(m)
    ensures Refines(Eval(m, e), Eval(m, Norm(f, e)))
  {
    NormAllValue(m, f, e.kids);
    HeadMonotone(m, e.head, EvalAll(m, e.kids), EvalAll(m, NormAll(f, e.kids)));
    if Calls(e.head, f) { TemplateValue(m, f, NormAll(f, e.kids)); }
  }

  lemma {:induction false} NormAllValue(m: Meaning, f: Rule, es: Exprs)
    requires Monotone(m)
    ensures AllRefine(EvalAll(m, es), EvalAll(m, NormAll(f, es)))
  {
    if es.More? { NormValue(m, f, es.first); NormAllValue(m, f, es.rest); }
  }

  /** And so does the chain. */
  lemma ChainValue(m: Meaning, e: Expr)
    requires Monotone(m)
    ensures Refines(Eval(m, e), Eval(m, Chain(e)))
  {
    var e1 := Norm(IFF, e);
    var e2 := Norm(NVL2, e1);
    var e3 := Norm(NVL, e2);
    var e4 := Norm(DIV0NULL, e3);
    NormValue(m, IFF, e);
    NormValue(m, NVL2, e1);
    NormValue(m, NVL, e2);
    NormValue(m, DIV0NULL, e3);
    NormValue(m, DIV0, e4);
    NormValue(m, SQUARE, Norm(DIV0, e4));
  }

  /** The chain can repair an error: where the divisor is 0 the dividend is not
      looked at any more. */
  lemma ErrorRepaired(m: Meaning)
    ensures var (zero, two) := (Node(Zero, End), Node(Two, End));
      var bad := Node(Over, List2(two, zero));
      var e := Node(Call(DIV0, "DIV0"), List2(bad, zero));
      Eval(m, e) == Fault && Eval(m, Norm(DIV0, e)) == Num(0.0)
  {
    var (zero, two) := (Node(Zero, End), Node(Two, End));
    var bad := Node(Over, List2(two, zero));
    EvalLists(m, two, zero, zero);
    EvalLists(m, bad, zero, zero);
    EvalLists(m, zero, zero, zero);
    NormLists(DIV0, two, zero, zero);
    NormLists(DIV0, bad, zero, zero);
    assert Arg(List2(bad, zero), 1) == zero;
    EvalLists(m, Node(IsZero, List1(zero)), zero, Node(Over, List2(bad, zero)));
  }

  // ---- Which errors stay errors ----

  /** The number of arguments that a function has. */
  function ArgCount(f: Rule): nat {
    if f.NVL? then 2 else Arity(f)
  }

  /** The dividend is an error that is not looked at, because the divisor is 0, or
      NULL in DIV0NULL. */
  predicate Repairs(f: Rule, vs: seq<Val>) {
    |vs| == 2 && vs[0].Fault? &&
    ((f.DIV0? && vs[1] == Num(0.0)) || (f.DIV0NULL? && (vs[1] == Num(0.0) || vs[1].Null?)))
  }

  /** A call with the right number of arguments and its replacement are worth the
      same, errors included, exactly if no error is repaired. */
  lemma TemplateExact(m: Meaning, f: Rule, kids: Exprs)
    requires Len(kids) == ArgCount(f)
    ensures Eval(m, Template(f, kids)) == CallValue(f, EvalAll(m, kids)) <==> !Repairs(f, EvalAll(m, kids))
  {
    TemplateValue(m, f, kids);
    match f
    case DIV0NULL => GuardExact(m, f, kids);
    case DIV0 => GuardExact(m, f, kids);
    case SQUARE =>
      EvalArg(m, kids, 0);
      EvalLists(m, Arg(kids, 0), Node(Two, End), Node(Two, End));
    case _ => LazyExact(m, f, kids);
  }

  lemma LazyExact(m: Meaning, f: Rule, kids: Exprs)
    requires Len(kids) == ArgCount(f) && (f.IFF? || f.NVL2? || f.NVL?)
    ensures Eval(m, Template(f, kids)) == CallValue(f, EvalAll(m, kids))
  {
    var vs := EvalAll(m, kids);
    if Arity(f) == 3 { EvalArg(m, kids, 0); EvalArg(m, kids, 1); EvalArg(m, kids, 2); }
    match f
    case IFF => EvalLists(m, Arg(kids, 0), Arg(kids, 1), Arg(kids, 2));
    case NVL2 =>
      EvalLists(m, Arg(kids, 0), Arg(kids, 0), Arg(kids, 0));
      EvalLists(m, Node(NotNull, List1(Arg(kids, 0))), Arg(kids, 1), Arg(kids, 2));
    case NVL => assert vs == [vs[0], vs[1]]; FirstOfTwo(vs[0], vs[1]);
  }

  lemma GuardExact(m: Meaning, f: Rule, kids: Exprs)
    requires Len(kids) == 2 && (f.DIV0NULL? || f.DIV0?)
    ensures Eval(m, Template(f, kids)) == CallValue(f, EvalAll(m, kids)) <==> !Repairs(f, EvalAll(m, kids))
  {
    var zero := Node(Zero, End);
    EvalArg(m, kids, 0);
    EvalArg(m, kids, 1);
    var (a, b) := (Arg(kids, 0), Arg(kids, 1));
    if f.DIV0NULL? {
      EvalLists(m, b, zero, zero);
      FirstOfTwo(Eval(m, b), Num(0.0));
      GuardedQuotient(m, Node(Coalesce, List2(b, zero)), a, b);
    } else {
      GuardedQuotient(m, b, a, b);
    }
  }

  /** Every call has the right number of arguments, and none repairs an error. */
  predicate Steady(m: Meaning, e: Expr) {
    && (e.head.Call? ==> Len(e.kids) == ArgCount(e.head.rule) && !Repairs(e.head.rule, EvalAll(m, e.kids)))
    && AllSteady(m, e.kids)
  }

  predicate AllSteady(m: Meaning, es: Exprs) {
    es.More? ==> Steady(m, es.first) && AllSteady(m, es.rest)
  }

  lemma {:induction false} ArgSteady(m: Meaning, es: Exprs, i: nat)
    requires AllSteady(m, es) && i < Len(es)
    ensures Steady(m, Arg(es, i))
  {
    if i > 0 { ArgSteady(m, es.rest, i - 1); }
  }

  lemma SteadyLists(m: Meaning, a: Expr, b: Expr, c: Expr)
    requires Steady(m, a) && Steady(m, b) && Steady(m, c)
    ensures AllSteady(m, List1(a)) && AllSteady(m, List2(a, b)) && AllSteady(m, List3(a, b, c))
  {
    assert AllSteady(m, List1(c)) && AllSteady(m, List1(b));
    assert AllSteady(m, List2(b, c));
  }

  lemma GuardSteady(m: Meaning, d: Expr, a: Expr, b: Expr)
    requires Steady(m, d) && Steady(m, a) && Steady(m, b)
    ensures Steady(m, Node(Case, List3(Node(IsZero, List1(d)), Node(Zero, End), Node(Over, List2(a, b)))))
  {
    var zero := Node(Zero, End);
    assert Steady(m, zero);
    SteadyLists(m, d, zero, zero);
    SteadyLists(m, a, b, zero);
    SteadyLists(m, Node(IsZero, List1(d)), zero, Node(Over, List2(a, b)));
  }

  lemma TemplateSteady(m: Meaning, f: Rule, kids: Exprs)
    requires AllSteady(m, kids) && Len(kids) == ArgCount(f)
    ensures Steady(m, Template(f, kids))
  {
    var (zero, two) := (Node(Zero, End), Node(Two, End));
    assert Steady(m, zero) && Steady(m, two);
    ArgSteady(m, kids, 0);
    if Len(kids) > 1 { ArgSteady(m, kids, 1); }
    if Len(kids) > 2 { ArgSteady(m, kids, 2); }
    match f
    case IFF => SteadyLists(m, Arg(kids, 0), Arg(kids, 1), Arg(kids, 2));
    case NVL2 =>
      SteadyLists(m, Arg(kids, 0), zero, zero);
      SteadyLists(m, Node(NotNull, List1(Arg(kids, 0))), Arg(kids, 1), Arg(kids, 2));
    case NVL =>
    case DIV0NULL =>
      SteadyLists(m, Arg(kids, 1), zero, zero);
      GuardSteady(m, Node(Coalesce, List2(Arg(kids, 1), zero)), Arg(kids, 0), Arg(kids, 1));
    case DIV0 => GuardSteady(m, Arg(kids, 1), Arg(kids, 0), Arg(kids, 1));
    case SQUARE => SteadyLists(m, Arg(kids, 0), two, two);
  }

  lemma {:induction false} NormExact(m: Meaning, f: Rule, e: Expr)
    requires Steady(m, e)
    ensures Eval(m, Norm(f, e)) == Eval(m, e) && Steady(m, Norm(f, e))
  {
    NormAllExact(m, f, e.kids);
    if Calls(e.head, f) {
      TemplateExact(m, f, NormAll(f, e.kids));
      TemplateSteady(m, f, NormAll(f, e.kids));
    }
  }

  lemma {:induction false} NormAllExact(m: Meaning, f: Rule, es: Exprs)
    requires AllSteady(m, es)
    ensures EvalAll(m, NormAll(f, es)) == EvalAll(m, es) && AllSteady(m, NormAll(f, es))
  {
    if es.More? { NormExact(m, f, es.first); NormAllExact(m, f, es.rest); }
  }

  /** If no call repairs an error, the chain keeps every value, errors included. */
  lemma ChainExact(m: Meaning, e: Expr)
    requires Steady(m, e)
    ensures Eval(m, Chain(e)) == Eval(m, e)
  {
    var e1 := Norm(IFF, e);
    var e2 := Norm(NVL2, e1);
    var e3 := Norm(NVL, e2);
    var e4 := Norm(DIV0NULL, e3);
    NormExact(m, IFF, e);
    NormExact(m, NVL2, e1);
    NormExact(m, NVL, e2);
    NormExact(m, DIV0NULL, e3);
    NormExact(m, DIV0, e4);
    NormExact(m, SQUARE, Norm(DIV0, e4));
  }

  /** Every call has the right number of arguments, and none divides. */
  predicate Undivided(e: Expr) {
    && (e.head.Call? ==> Len(e.kids) == ArgCount(e.head.rule) && !e.head.rule.DIV0? && !e.head.rule.DIV0NULL?)
    && AllUndivided(e.kids)
  }

  predicate AllUndivided(es: Exprs) {
    es.More? ==> Undivided(es.first) && AllUndivided(es.rest)
  }

  /** An expression without DIV0 and DIV0NULL keeps its errors as well. */
  lemma {:induction false} UndividedIsSteady(m: Meaning, e: Expr)
    requires Undivided(e)
    ensures Steady(m, e)
  {
    AllUndividedAreSteady(m, e.kids);
  }

  lemma {:induction false} AllUndividedAreSteady(m: Meaning, es: Exprs)
    requires AllUndivided(es)
    ensures AllSteady(m, es)
  {
    if es.More? { UndividedIsSteady(m, es.first); AllUndividedAreSteady(m, es.rest); }
  }

  lemma UndividedExact(m: Meaning, e: Expr)
    requires Undivided(e)
    ensures Eval(m, Chain(e)) == Eval(m, e)
  {
    UndividedIsSteady(m, e);
    ChainExact(m, e);
  }
}

/** SQL expressions as trees, the six function rewrites of
    internal/rewriter/rewriter.go on them, how many rewrites the
    rewrite-until-none-left loop makes, and what the rewrites do to values. */
module SqlExpr {
  import opened Text

  /** The rewritten functions, in the order of the rules. */
  datatype Rule = IFF | NVL2 | NVL | DIV0NULL | DIV0 | SQUARE

  /** A node is a call of a rewritten function, its name written as word, a call
      of another function, one of the forms that the rewrites emit, or any other
      text around its operands. */
  datatype Head =
    | Call(rule: Rule, word: string)
    | Fn(name: string)
    | Coalesce
    | Power
    | Case
    | NotNull
    | Over
    | IsZero
    | Zero
    | Two
    | Around(parts: seq<string>)

  datatype Expr = Node(head: Head, kids: Exprs)

  datatype Exprs = End | More(first: Expr, rest: Exprs)

  function NameOf(f: Rule): string {
    match f
    case IFF => "IFF"
    case NVL2 => "NVL2"
    case NVL => "NVL"
    case DIV0NULL => "DIV0NULL"
    case DIV0 => "DIV0"
    case SQUARE => "SQUARE"
  }

  predicate Calls(head: Head, f: Rule) {
    head.Call? && head.rule == f
  }

  function Len(es: Exprs): nat {
    match es case End => 0 case More(_, rest) => 1 + Len(rest)
  }

  function List1(a: Expr): Exprs { More(a, End) }
  function List2(a: Expr, b: Expr): Exprs { More(a, List1(b)) }
  function List3(a: Expr, b: Expr, c: Expr): Exprs { More(a, List2(b, c)) }

  function Arity(f: Rule): nat {
    match f
    case IFF => 3 case NVL2 => 3 case NVL => 0 case DIV0NULL => 2 case DIV0 => 2 case SQUARE => 1
  }

  function Arg(es: Exprs, i: nat): Expr
    requires i < Len(es)
  {
    if i == 0 then es.first else Arg(es.rest, i - 1)
  }

  /** What a call is replaced with; a call with too few arguments is emitted again. */
  function Template(f: Rule, kids: Exprs): Expr {
    if Len(kids) < Arity(f) then Node(Call(f, NameOf(f)), kids)
    else
      match f
      case IFF => Node(Case, List3(Arg(kids, 0), Arg(kids, 1), Arg(kids, 2)))
      case NVL2 => Node(Case, List3(Node(NotNull, List1(Arg(kids, 0))), Arg(kids, 1), Arg(kids, 2)))
      case NVL => Node(Coalesce, kids)
      case DIV0NULL =>
        var divisor := Node(Coalesce, List2(Arg(kids, 1), Node(Zero, End)));
        Node(Case, List3(Node(IsZero, List1(divisor)), Node(Zero, End), Node(Over, List2(Arg(kids, 0), Arg(kids, 1)))))
      case DIV0 =>
        var (dividend, divisor) := (Arg(kids, 0), Arg(kids, 1));
        Node(Case, List3(Node(IsZero, List1(divisor)), Node(Zero, End), Node(Over, List2(dividend, divisor))))
      case SQUARE => Node(Power, List2(Arg(kids, 0), Node(Two, End)))
  }

  /** How often the replacement of a call repeats its i-th argument. */
  function Copies(f: Rule, i: nat): nat {
    match f
    case IFF => if i < 3 then 1 else 0
    case NVL2 => if i < 3 then 1 else 0
    case NVL => 1
    case DIV0NULL => if i == 0 then 1 else if i == 1 then 2 else 0
    case DIV0 => if i == 0 then 1 else if i == 1 then 2 else 0
    case SQUARE => if i == 0 then 1 else 0
  }

  // ---- One replacement, and all of them ----

  predicate HasCall(f: Rule, e: Expr) {
    Calls(e.head, f) || AnyCall(f, e.kids)
  }

  predicate AnyCall(f: Rule, es: Exprs) {
    es.More? && (HasCall(f, es.first) || AnyCall(f, es.rest))
  }

  /** Replaces the call that starts first. */
  function Step(f: Rule, e: Expr): Expr
    requires HasCall(f, e)
  {
    if Calls(e.head, f) then Template(f, e.kids) else Node(e.head, StepAny(f, e.kids))
  }

  function StepAny(f: Rule, es: Exprs): (r: Exprs)
    requires AnyCall(f, es)
    ensures Len(r) == Len(es)
  {
    if HasCall(f, es.first) then More(Step(f, es.first), es.rest) else More(es.first, StepAny(f, es.rest))
  }

  /** Every call that the loop comes to has enough arguments. A surplus argument
      is dropped with all that is in it. */
  predicate EnoughArgs(f: Rule, e: Expr) {
    if Calls(e.head, f) then Len(e.kids) >= Arity(f) && KeptEnough(f, e.kids, 0) else AllEnough(f, e.kids)
  }

  predicate AllEnough(f: Rule, es: Exprs) {
    es.More? ==> EnoughArgs(f, es.first) && AllEnough(f, es.rest)
  }

  predicate KeptEnough(f: Rule, es: Exprs, i: nat) {
    es.More? ==> (Copies(f, i) > 0 ==> EnoughArgs(f, es.first)) && KeptEnough(f, es.rest, i + 1)
  }

  /** The number of replacements the loop makes: what is in a divisor is replaced
      twice, because the divisor is written twice. */
  function Replacements(f: Rule, e: Expr): nat {
    if Calls(e.head, f) then 1 + Weighted(f, e.kids, 0) else Total(f, e.kids)
  }

  function Total(f: Rule, es: Exprs): nat {
    match es case End => 0 case More(e, rest) => Replacements(f, e) + Total(f, rest)
  }

  function Weighted(f: Rule, es: Exprs, i: nat): nat {
    match es case End => 0 case More(e, rest) => Copies(f, i) * Replacements(f, e) + Weighted(f, rest, i + 1)
  }

  lemma {:induction false} NothingKept(f: Rule, es: Exprs, i: nat)
    requires forall j :: j >= i ==> Copies(f, j) == 0
    ensures Weighted(f, es, i) == 0 && KeptEnough(f, es, i)
  {
    if es.More? { NothingKept(f, es.rest, i + 1); }
  }

  lemma {:induction false} NvlKeepsAll(es: Exprs, i: nat)
    ensures Weighted(NVL, es, i) == Total(NVL, es) && (KeptEnough(NVL, es, i) <==> AllEnough(NVL, es))
  {
    if es.More? { NvlKeepsAll(es.rest, i + 1); }
  }

  lemma TotalOf(f: Rule, a: Expr, b: Expr, c: Expr)
    ensures Total(f, List1(a)) == Replacements(f, a)
    ensures Total(f, List2(a, b)) == Replacements(f, a) + Replacements(f, b)
    ensures Total(f, List3(a, b, c)) == Replacements(f, a) + Replacements(f, b) + Replacements(f, c)
    ensures AllEnough(f, List1(a)) <==> EnoughArgs(f, a)
    ensures AllEnough(f, List2(a, b)) <==> EnoughArgs(f, a) && EnoughArgs(f, b)
    ensures AllEnough(f, List3(a, b, c)) <==> EnoughArgs(f, a) && EnoughArgs(f, b) && EnoughArgs(f, c)
  {
    assert Total(f, List2(b, c)) == Replacements(f, b) + Total(f, List1(c));
    assert Total(f, List1(c)) == Replacements(f, c);
    assert AllEnough(f, List1(c)) <==> EnoughArgs(f, c);
  }

  lemma WeightedUpTo(f: Rule, es: Exprs, n: nat)
    requires n <= 3 && Len(es) >= n && forall j :: j >= n ==> Copies(f, j) == 0
    ensures Weighted(f, es, 0) ==
      (if n > 0 then Copies(f, 0) * Replacements(f, Arg(es, 0)) else 0) +
      (if n > 1 then Copies(f, 1) * Replacements(f, Arg(es, 1)) else 0) +
      (if n > 2 then Copies(f, 2) * Replacements(f, Arg(es, 2)) else 0)
    ensures KeptEnough(f, es, 0) <==>
      && (n > 0 && Copies(f, 0) > 0 ==> EnoughArgs(f, Arg(es, 0)))
      && (n > 1 && Copies(f, 1) > 0 ==> EnoughArgs(f, Arg(es, 1)))
      && (n > 2 && Copies(f, 2) > 0 ==> EnoughArgs(f, Arg(es, 2)))
  {
    if n == 0 { NothingKept(f, es, 0); }
    if n > 0 {
      var es1 := es.rest;
      assert Weighted(f, es, 0) == Copies(f, 0) * Replacements(f, Arg(es, 0)) + Weighted(f, es1, 1);
      if n == 1 { NothingKept(f, es1, 1); }
      if n > 1 {
        var es2 := es1.rest;
        assert Arg(es, 1) == es1.first;
        if n == 2 { NothingKept(f, es2, 2); }
        if n > 2 {
          assert Arg(es, 2) == Arg(es1, 1) == es2.first;
          NothingKept(f, es2.rest, 3);
          assert KeptEnough(f, es2, 2) <==> (Copies(f, 2) > 0 ==> EnoughArgs(f, Arg(es, 2)));
        }
      }
    }
  }

  /** One replacement leaves one fewer to make. */
  lemma TemplateCounts(f: Rule, kids: Exprs)
    requires Len(kids) >= Arity(f)
    ensures Replacements(f, Template(f, kids)) == Weighted(f, kids, 0)
    ensures EnoughArgs(f, Template(f, kids)) <==> KeptEnough(f, kids, 0)
  {
    match f
    case IFF =>
      WeightedUpTo(f, kids, 3);
      TotalOf(f, Arg(kids, 0), Arg(kids, 1), Arg(kids, 2));
    case NVL2 =>
      WeightedUpTo(f, kids, 3);
      TotalOf(f, Node(NotNull, List1(Arg(kids, 0))), Arg(kids, 1), Arg(kids, 2));
      TotalOf(f, Arg(kids, 0), Arg(kids, 0), Arg(kids, 0));
    case NVL =>
      NvlKeepsAll(kids, 0);
    case DIV0NULL =>
      WeightedUpTo(f, kids, 2);
      var (divisor, zero) := (Arg(kids, 1), Node(Zero, End));
      GuardCounts(f, Node(Coalesce, List2(divisor, zero)), Arg(kids, 0), divisor);
      TotalOf(f, divisor, zero, zero);
    case DIV0 =>
      WeightedUpTo(f, kids, 2);
      GuardCounts(f, Arg(kids, 1), Arg(kids, 0), Arg(kids, 1));
    case SQUARE =>
      WeightedUpTo(f, kids, 1);
      TotalOf(f, Arg(kids, 0), Node(Two, End), Node(Two, End));
  }

  /** CASE WHEN d = 0 THEN 0 ELSE a / b END */
  lemma GuardCounts(f: Rule, d: Expr, a: Expr, b: Expr)
    ensures var guarded := Node(Case, List3(Node(IsZero, List1(d)), Node(Zero, End), Node(Over, List2(a, b))));
      && Replacements(f, guarded) == Replacements(f, d) + Replacements(f, a) + Replacements(f, b)
      && (EnoughArgs(f, guarded) <==> EnoughArgs(f, d) && EnoughArgs(f, a) && EnoughArgs(f, b))
  {
    var zero := Node(Zero, End);
    TotalOf(f, Node(IsZero, List1(d)), zero, Node(Over, List2(a, b)));
    TotalOf(f, d, zero, zero);
    TotalOf(f, a, b, zero);
  }

  lemma {:induction false} StepCounts(f: Rule, e: Expr)
    requires HasCall(f, e) && EnoughArgs(f, e)
    ensures Replacements(f, Step(f, e)) == Replacements(f, e) - 1 && EnoughArgs(f, Step(f, e))
  {
    if Calls(e.head, f) { TemplateCounts(f, e.kids); } else { StepAnyCounts(f, e.kids); }
  }

  lemma {:induction false} StepAnyCounts(f: Rule, es: Exprs)
    requires AnyCall(f, es) && AllEnough(f, es)
    ensures Total(f, StepAny(f, es)) == Total(f, es) - 1 && AllEnough(f, StepAny(f, es))
  {
    if HasCall(f, es.first) { StepCounts(f, es.first); } else { StepAnyCounts(f, es.rest); }
  }

  /** A call without enough arguments is come to in the end, and emitted again for
      ever. */
  lemma {:induction false} StaysStuck(f: Rule, e: Expr)
    requires !EnoughArgs(f, e)
    ensures HasCall(f, e) && !EnoughArgs(f, Step(f, e))
  {
    if Calls(e.head, f) {
      if Len(e.kids) >= Arity(f) { TemplateCounts(f, e.kids); }
    } else {
      AnyStaysStuck(f, e.kids);
    }
  }

  lemma {:induction false} AnyStaysStuck(f: Rule, es: Exprs)
    requires !AllEnough(f, es)
    ensures AnyCall(f, es) && !AllEnough(f, StepAny(f, es))
  {
    if !EnoughArgs(f, es.first) { StaysStuck(f, es.first); } else { AnyStaysStuck(f, es.rest); }
  }

  lemma {:induction false} CallsCount(f: Rule, e: Expr)
    ensures HasCall(f, e) <==> Replacements(f, e) > 0
    ensures !HasCall(f, e) ==> EnoughArgs(f, e)
  {
    AnyCallsCount(f, e.kids);
  }

  lemma {:induction false} AnyCallsCount(f: Rule, es: Exprs)
    ensures AnyCall(f, es) <==> Total(f, es) > 0
    ensures !AnyCall(f, es) ==> AllEnough(f, es)
  {
    if es.More? { CallsCount(f, es.first); AnyCallsCount(f, es.rest); }
  }

  /** What the loop holds after at most n replacements. */
  function Replaced(f: Rule, e: Expr, n: nat): Expr
    decreases n
  {
    if n == 0 || !HasCall(f, e) then e else Replaced(f, Step(f, e), n - 1)
  }

  /** The loop ends exactly if every call it comes to has enough arguments, and
      then after exactly the counted number of replacements. */
  lemma LoopEnds(f: Rule, e: Expr)
    ensures EnoughArgs(f, e) <==> exists n: nat :: !HasCall(f, Replaced(f, e, n))
    ensures EnoughArgs(f, e) ==>
      forall n: nat :: HasCall(f, Replaced(f, e, n)) <==> n < Replacements(f, e)
  {
    forall n: nat
      ensures EnoughArgs(f, e) ==> (HasCall(f, Replaced(f, e, n)) <==> n < Replacements(f, e))
      ensures !EnoughArgs(f, e) ==> HasCall(f, Replaced(f, e, n))
    {
      AfterCounts(f, e, n);
    }
    if EnoughArgs(f, e) { assert !HasCall(f, Replaced(f, e, Replacements(f, e))); }
  }

  lemma {:induction false} AfterCounts(f: Rule, e: Expr, n: nat)
    ensures EnoughArgs(f, e) ==> (HasCall(f, Replaced(f, e, n)) <==> n < Replacements(f, e))
    ensures !EnoughArgs(f, e) ==> HasCall(f, Replaced(f, e, n))
    decreases n
  {
    CallsCount(f, e);
    if HasCall(f, e) && n > 0 {
      if EnoughArgs(f, e) { StepCounts(f, e); } else { StaysStuck(f, e); }
      AfterCounts(f, Step(f, e), n - 1);
    } else if !EnoughArgs(f, e) {
      StaysStuck(f, e);
    }
  }

  // ---- The result, built from the inside ----

  function Norm(f: Rule, e: Expr): Expr {
    if Calls(e.head, f) then Template(f, NormAll(f, e.kids)) else Node(e.head, NormAll(f, e.kids))
  }

  function NormAll(f: Rule, es: Exprs): (r: Exprs)
    ensures Len(r) == Len(es)
  {
    match es case End => End case More(e, rest) => More(Norm(f, e), NormAll(f, rest))
  }

  lemma {:induction false} ArgNorm(f: Rule, es: Exprs, i: nat)
    requires i < Len(es)
    ensures Arg(NormAll(f, es), i) == Norm(f, Arg(es, i))
  {
    if i > 0 { ArgNorm(f, es.rest, i - 1); }
  }

  lemma NormLists(f: Rule, a: Expr, b: Expr, c: Expr)
    ensures NormAll(f, List1(a)) == List1(Norm(f, a))
    ensures NormAll(f, List2(a, b)) == List2(Norm(f, a), Norm(f, b))
    ensures NormAll(f, List3(a, b, c)) == List3(Norm(f, a), Norm(f, b), Norm(f, c))
  {
    assert NormAll(f, List1(c)) == List1(Norm(f, c));
    assert NormAll(f, List2(b, c)) == More(Norm(f, b), NormAll(f, List1(c)));
  }

  lemma NormTemplate(f: Rule, kids: Exprs)
    ensures Norm(f, Template(f, kids)) == Template(f, NormAll(f, kids))
  {
    if Len(kids) >= Arity(f) {
      var (zero, two) := (Node(Zero, End), Node(Two, End));
      assert Norm(f, zero) == zero && Norm(f, two) == two;
      if Arity(f) > 0 { ArgNorm(f, kids, 0); }
      if Arity(f) > 1 { ArgNorm(f, kids, 1); }
      if Arity(f) > 2 { ArgNorm(f, kids, 2); }
      match f
      case IFF => NormLists(f, Arg(kids, 0), Arg(kids, 1), Arg(kids, 2));
      case NVL2 =>
        NormLists(f, Arg(kids, 0), zero, zero);
        NormLists(f, Node(NotNull, List1(Arg(kids, 0))), Arg(kids, 1), Arg(kids, 2));
      case NVL =>
      case DIV0NULL =>
        var divisor := Node(Coalesce, List2(Arg(kids, 1), zero));
        NormLists(f, Arg(kids, 1), zero, zero);
        NormLists(f, divisor, zero, zero);
        NormLists(f, Arg(kids, 0), Arg(kids, 1), zero);
        NormLists(f, Node(IsZero, List1(divisor)), zero, Node(Over, List2(Arg(kids, 0), Arg(kids, 1))));
      case DIV0 =>
        NormLists(f, Arg(kids, 1), zero, zero);
        NormLists(f, Arg(kids, 0), Arg(kids, 1), zero);
        NormLists(f, Node(IsZero, List1(Arg(kids, 1))), zero, Node(Over, List2(Arg(kids, 0), Arg(kids, 1))));
      case SQUARE => NormLists(f, Arg(kids, 0), two, zero);
    }
  }

  /** A replacement does not change the result. */
  lemma {:induction false} NormStep(f: Rule, e: Expr)
    requires HasCall(f, e)
    ensures Norm(f, Step(f, e)) == Norm(f, e)
  {
    if Calls(e.head, f) { NormTemplate(f, e.kids); } else { NormStepAny(f, e.kids); }
  }

  lemma {:induction false} NormStepAny(f: Rule, es: Exprs)
    requires AnyCall(f, es)
    ensures NormAll(f, StepAny(f, es)) == NormAll(f, es)
  {
    if HasCall(f, es.first) { NormStep(f, es.first); } else { NormStepAny(f, es.rest); }
  }

  lemma {:induction false} NormDone(f: Rule, e: Expr)
    requires !HasCall(f, e)
    ensures Norm(f, e) == e
  {
    NormAllDone(f, e.kids);
  }

  lemma {:induction false} NormAllDone(f: Rule, es: Exprs)
    requires !AnyCall(f, es)
    ensures NormAll(f, es) == es
  {
    if es.More? { NormDone(f, es.first); NormAllDone(f, es.rest); }
  }

  /** No call is left. */
  lemma {:induction false} NormClean(f: Rule, e: Expr)
    requires EnoughArgs(f, e)
    ensures !HasCall(f, Norm(f, e))
    decreases Replacements(f, e)
  {
    CallsCount(f, e);
    if HasCall(f, e) {
      StepCounts(f, e);
      NormStep(f, e);
      NormClean(f, Step(f, e));
    } else {
      NormDone(f, e);
    }
  }

  // ---- The chain of rules ----

  lemma {:induction false} ArgsClean(g: Rule, es: Exprs, i: nat)
    requires i < Len(es)
    ensures !AnyCall(g, es) ==> !HasCall(g, Arg(es, i))
    ensures AllEnough(g, es) ==> EnoughArgs(g, Arg(es, i))
  {
    if i > 0 { ArgsClean(g, es.rest, i - 1); }
  }

  lemma AnyCallOf(f: Rule, a: Expr, b: Expr, c: Expr)
    ensures AnyCall(f, List1(a)) <==> HasCall(f, a)
    ensures AnyCall(f, List2(a, b)) <==> HasCall(f, a) || HasCall(f, b)
    ensures AnyCall(f, List3(a, b, c)) <==> HasCall(f, a) || HasCall(f, b) || HasCall(f, c)
  {
    assert AnyCall(f, List1(c)) <==> HasCall(f, c);
    assert AnyCall(f, List2(b, c)) <==> HasCall(f, b) || AnyCall(f, List1(c));
  }

  lemma ListFacts(g: Rule, a: Expr, b: Expr, c: Expr)
    ensures AnyCall(g, List1(a)) <==> HasCall(g, a)
    ensures AnyCall(g, List2(a, b)) <==> HasCall(g, a) || HasCall(g, b)
    ensures AnyCall(g, List3(a, b, c)) <==> HasCall(g, a) || HasCall(g, b) || HasCall(g, c)
    ensures AllEnough(g, List1(a)) <==> EnoughArgs(g, a)
    ensures AllEnough(g, List2(a, b)) <==> EnoughArgs(g, a) && EnoughArgs(g, b)
    ensures AllEnough(g, List3(a, b, c)) <==> EnoughArgs(g, a) && EnoughArgs(g, b) && EnoughArgs(g, c)
  {
    AnyCallOf(g, a, b, c);
    TotalOf(g, a, b, c);
  }

  /** Replacing calls of one function neither adds calls of another nor takes
      arguments from them. */
  lemma TemplateKeeps(f: Rule, g: Rule, kids: Exprs)
    requires f != g
    ensures !AnyCall(g, kids) ==> !HasCall(g, Template(f, kids))
    ensures AllEnough(g, kids) ==> EnoughArgs(g, Template(f, kids))
  {
    if Len(kids) >= Arity(f) {
      var (zero, two) := (Node(Zero, End), Node(Two, End));
      if Arity(f) > 0 { ArgsClean(g, kids, 0); }
      if Arity(f) > 1 { ArgsClean(g, kids, 1); }
      if Arity(f) > 2 { ArgsClean(g, kids, 2); }
      match f
      case IFF => ListFacts(g, Arg(kids, 0), Arg(kids, 1), Arg(kids, 2));
      case NVL2 =>
        ListFacts(g, Arg(kids, 0), zero, zero);
        ListFacts(g, Node(NotNull, List1(Arg(kids, 0))), Arg(kids, 1), Arg(kids, 2));
      case NVL =>
      case DIV0NULL =>
        var divisor := Node(Coalesce, List2(Arg(kids, 1), zero));
        ListFacts(g, Arg(kids, 1), zero, zero);
        ListFacts(g, divisor, zero, zero);
        ListFacts(g, Arg(kids, 0), Arg(kids, 1), zero);
        ListFacts(g, Node(IsZero, List1(divisor)), zero, Node(Over, List2(Arg(kids, 0), Arg(kids, 1))));
      case DIV0 =>
        ListFacts(g, Arg(kids, 1), zero, zero);
        ListFacts(g, Arg(kids, 0), Arg(kids, 1), zero);
        ListFacts(g, Node(IsZero, List1(Arg(kids, 1))), zero, Node(Over, List2(Arg(kids, 0), Arg(kids, 1))));
      case SQUARE => ListFacts(g, Arg(kids, 0), two, zero);
    }
  }

  lemma {:induction false} NormKeeps(f: Rule, g: Rule, e: Expr)
    requires f != g
    ensures !HasCall(g, e) ==> !HasCall(g, Norm(f, e))
    ensures EnoughArgs(g, e) ==> EnoughArgs(g, Norm(f, e))
  {
    NormAllKeeps(f, g, e.kids, 0);
    if Calls(e.head, f) { TemplateKeeps(f, g, NormAll(f, e.kids)); }
  }

  lemma {:induction false} NormAllKeeps(f: Rule, g: Rule, es: Exprs, i: nat)
    requires f != g
    ensures !AnyCall(g, es) ==> !AnyCall(g, NormAll(f, es))
    ensures AllEnough(g, es) ==> AllEnough(g, NormAll(f, es))
    ensures KeptEnough(g, es, i) ==> KeptEnough(g, NormAll(f, es), i)
  {
    if es.More? { NormKeeps(f, g, es.first); NormAllKeeps(f, g, es.rest, i + 1); }
  }

  /** The six rules in their order. */
  function Chain(e: Expr): Expr {
    Norm(SQUARE, Norm(DIV0, Norm(DIV0NULL, Norm(NVL, Norm(NVL2, Norm(IFF, e))))))
  }

  /** If every call has enough arguments, no rule of the chain meets one that has
      not, and no call of any of the six functions is left. */
  lemma ChainCleans(e: Expr)
    requires forall f :: EnoughArgs(f, e)
    ensures forall f :: !HasCall(f, Chain(e))
    ensures var e1 := Norm(IFF, e); var e2 := Norm(NVL2, e1); var e3 := Norm(NVL, e2); var e4 := Norm(DIV0NULL, e3);
      var e5 := Norm(DIV0, e4);
      EnoughArgs(IFF, e) && EnoughArgs(NVL2, e1) && EnoughArgs(NVL, e2) && EnoughArgs(DIV0NULL, e3) &&
      EnoughArgs(DIV0, e4) && EnoughArgs(SQUARE, e5)
  {
    var e1 := Cleaned(IFF, {}, e);
    var e2 := Cleaned(NVL2, {IFF}, e1);
    var e3 := Cleaned(NVL, {IFF, NVL2}, e2);
    var e4 := Cleaned(DIV0NULL, {IFF, NVL2, NVL}, e3);
    var e5 := Cleaned(DIV0, {IFF, NVL2, NVL, DIV0NULL}, e4);
    var e6 := Cleaned(SQUARE, {IFF, NVL2, NVL, DIV0NULL, DIV0}, e5);
    forall f ensures !HasCall(f, e6) {
      assert f.IFF? || f.NVL2? || f.NVL? || f.DIV0NULL? || f.DIV0? || f.SQUARE?;
    }
  }

  lemma Cleaned(f: Rule, done: set<Rule>, e: Expr) returns (r: Expr)
    requires f !in done && (forall g :: EnoughArgs(g, e)) && forall g :: g in done ==> !HasCall(g, e)
    ensures r == Norm(f, e) && (forall g :: EnoughArgs(g, r)) && forall g :: g in done + {f} ==> !HasCall(g, r)
  {
    r := Norm(f, e);
    NormClean(f, e);
    forall g ensures EnoughArgs(g, r) && (g in done + {f} ==> !HasCall(g, r)) {
      if g == f { CallsCount(f, r); } else { NormKeeps(f, g, e); }
    }
  }
}

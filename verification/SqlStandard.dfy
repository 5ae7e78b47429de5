/** One dialect and one meaning of operators, as in most engines: so the conditions
    that the theorems put on them can be met. */
module SqlStandard {
  import opened Text
  import opened SqlExpr
  import opened SqlValues
  import opened SqlText
  import opened SqlLexer
  import opened SqlGrouping
  import opened SqlSplices
  import opened SqlTextValues
  import R = SqlReader

  function Keyword(u: string): Option<R.Token> {
    if u == "CASE" then Some(R.Case)
    else if u == "WHEN" then Some(R.When)
    else if u == "THEN" then Some(R.Then)
    else if u == "ELSE" then Some(R.Else)
    else if u == "END" then Some(R.End)
    else if u == "IS" then Some(R.Is)
    else None
  }

  function Level(u: string): nat {
    if u == "OR" then 1
    else if u == "AND" then 2
    else if u == "IS" then 4
    else if u == "=" || u == "<" || u == ">" || u == "<=" || u == ">=" || u == "<>" then 5
    else if u == "+" || u == "-" then 6
    else if u == "*" || u == "/" then 7
    else 0
  }

  function TokenOf(w: string): R.Token {
    match Keyword(ToUpper(w))
    case Some(t) => t
    case None => if Level(ToUpper(w)) > 0 then R.Op(ToUpper(w)) else R.Name(w)
  }

  /** Comparisons and IS do not chain. */
  function Standard(): R.Dialect {
    R.Dialect(TokenOf, Level, op => Level(op) < 4 || Level(op) > 5)
  }

  lemma StandardEmitted(w: string, t: R.Token)
    requires Emitted(w, t) && ToUpper(w) == w
    ensures TokenOf(w) == t
  {
    if t.Name? && IsRule(w) {
      var f :| w == NameOf(f);
      RuleIsName(f);
    }
  }

  lemma RuleIsName(f: Rule)
    ensures Keyword(NameOf(f)).None? && Level(NameOf(f)) == 0
  {
  }

  lemma EmittedUpper(w: string, t: R.Token)
    requires Emitted(w, t)
    ensures ToUpper(w) == w
  {
    if t.Name? && IsRule(w) {
      var f :| w == NameOf(f);
      UpperFixed(NameOf(f));
    } else {
      UpperFixed(w);
    }
  }

  lemma StandardIsProper()
    ensures Proper(Standard()) && HasSums(Standard())
  {
    forall w, t | Emitted(w, t) ensures TokenOf(w) == t {
      EmittedUpper(w, t);
      StandardEmitted(w, t);
    }
    UpperFixed("+");
  }

  // ---- Numbers ----

  predicate IsNumber(w: string) {
    w != "" && forall k :: 0 <= k < |w| ==> IsDigit(w[k])
  }

  function WordValue(w: string): Val {
    if IsNumber(w) then Num(Decimal(w) as real) else Null
  }

  function Added(v: Val, w: Val): Val {
    match (v, w)
    case (Num(x), Num(y)) => Num(x + y)
    case (Null, Num(_)) => Null
    case (Num(_), Null) => Null
    case (Null, Null) => Null
    case _ => Fault
  }

  function Compared(v: Val, w: Val): Val {
    match (v, w)
    case (Num(x), Num(y)) => Truth(x == y)
    case (Null, Num(_)) => Null
    case (Num(_), Null) => Null
    case (Null, Null) => Null
    case _ => Fault
  }

  function InfixValue(op: string, v: Val, w: Val): Val {
    if op == "/" then Quotient(v, w) else if op == "=" then Compared(v, w) else if op == "+" then Added(v, w) else Fault
  }

  function RuleOf(u: string): (r: Option<Rule>)
    ensures r.Some? ==> u == NameOf(r.value)
    ensures r.None? ==> forall f :: u != NameOf(f)
  {
    if u == NameOf(IFF) then Some(IFF)
    else if u == NameOf(NVL2) then Some(NVL2)
    else if u == NameOf(NVL) then Some(NVL)
    else if u == NameOf(DIV0NULL) then Some(DIV0NULL)
    else if u == NameOf(DIV0) then Some(DIV0)
    else if u == NameOf(SQUARE) then Some(SQUARE)
    else None
  }

  function CalledValue(name: string, vs: seq<Val>): Val {
    match RuleOf(ToUpper(name))
    case Some(f) => CallValue(f, vs)
    case None =>
      if name == "COALESCE" then FirstOf(vs)
      else if name == "POWER" && |vs| == 2 then SecondPower(vs[0], vs[1])
      else Fault
  }

  function Arithmetic(): Sense {
    Sense(WordValue, InfixValue, CalledValue)
  }

  lemma DigitWord(w: string, n: nat)
    requires |w| == 1 && IsDigit(w[0]) && n == DigitValue(w[0])
    ensures WordValue(w) == Num(n as real)
  {
    assert w[..0] == "" && Decimal(w[..0]) == 0;
    assert Decimal(w) == n;
  }

  lemma CalledRule(f: Rule, w: string, vs: seq<Val>)
    requires ToUpper(w) == NameOf(f)
    ensures CalledValue(w, vs) == CallValue(f, vs)
  {
    NamesDiffer(RuleOf(ToUpper(w)).value, f);
  }

  lemma CalledOther(vs: seq<Val>)
    ensures CalledValue("COALESCE", vs) == FirstOf(vs)
    ensures |vs| == 2 ==> CalledValue("POWER", vs) == SecondPower(vs[0], vs[1])
  {
    forall f ensures ToUpper("COALESCE") != NameOf(f) && ToUpper("POWER") != NameOf(f) { EmittedNames(f); }
  }

  lemma LawfulCalling(s: Sense)
    requires s.apply == CalledValue
    ensures LawfulCalls(s)
  {
    forall vs: seq<Val>
      ensures s.apply("COALESCE", vs) == FirstOf(vs)
      ensures |vs| == 2 ==> s.apply("POWER", vs) == SecondPower(vs[0], vs[1])
    {
      CalledOther(vs);
    }
    forall f, w, vs | ToUpper(w) == NameOf(f) ensures s.apply(w, vs) == CallValue(f, vs) { CalledRule(f, w, vs); }
  }

  lemma InfixCases(v: Val, w: Val)
    ensures InfixValue("/", v, w) == Quotient(v, w) && InfixValue("=", v, Num(0.0)) == EqualsZero(v)
  {
  }

  lemma LawfulInfix(s: Sense)
    requires s.infix == InfixValue
    ensures LawfulOperators(s)
  {
    forall v, w ensures s.infix("/", v, w) == Quotient(v, w) && s.infix("=", v, Num(0.0)) == EqualsZero(v) {
      InfixCases(v, w);
    }
  }

  lemma ArithmeticIsLawful()
    ensures Lawful(Arithmetic())
  {
    DigitWord("0", 0);
    DigitWord("2", 2);
    LawfulInfix(Arithmetic());
    LawfulCalling(Arithmetic());
  }

  lemma CalledMonotone(name: string, vs: seq<Val>, ws: seq<Val>)
    requires AllRefine(vs, ws)
    ensures Refines(CalledValue(name, vs), CalledValue(name, ws))
  {
    FirstOfMonotone(vs, ws);
    assert |vs| > 0 ==> Refines(vs[0], ws[0]);
    assert |vs| > 1 ==> Refines(vs[1], ws[1]);
    match RuleOf(ToUpper(name))
    case Some(f) => CallMonotone(f, vs, ws);
    case None =>
  }

  lemma ArithmeticIsMonotone()
    ensures MonotoneSense(Arithmetic())
  {
    forall name, vs, ws | AllRefine(vs, ws) ensures Refines(CalledValue(name, vs), CalledValue(name, ws)) {
      CalledMonotone(name, vs, ws);
    }
  }

  lemma FreeDigits()
    ensures Free(Standard(), "2") && Free(Standard(), "4")
  {
    UpperFixed("2");
    UpperFixed("4");
    assert AllParts("2") && AllParts("4");
  }

  lemma ArithmeticAdds(s: Sense)
    requires s == Arithmetic()
    ensures Adds(s, "2", "4", "2", 2.0, 4.0, 2.0)
  {
    DigitWord("2", 2);
    DigitWord("4", 4);
    forall u, v ensures s.infix("+", Num(u), Num(v)) == Num(u + v) { PlusAdds(u, v); }
  }

  lemma PlusAdds(u: real, v: real)
    ensures InfixValue("+", Num(u), Num(v)) == Num(u + v)
  {
  }

  /** In this dialect and with these numbers the grouping is lost: 6 / 2 becomes
      2 + 4 / 2. */
  lemma StandardLosesGrouping()
    ensures TextValue(Standard(), Arithmetic(), "DIV0(2 + 4, 2)") == Some(Num(3.0))
    ensures TextValue(Standard(), Arithmetic(), Replacement(DIV0, ["2 + 4", "2"])) == Some(Num(4.0))
  {
    StandardIsProper();
    ArithmeticIsLawful();
    FreeDigits();
    ArithmeticAdds(Arithmetic());
    GroupingLostOnNumbers(Standard(), Arithmetic());
  }

  /** The positive result for this dialect and these numbers: a text that is read as it
      was meant, with spliceable operands, keeps its value. */
  lemma StandardKeepsValue(e: Expr)
    requires Fragment(Standard(), e) && Safe(Standard(), {}, e) && Spliceable(Standard(), e)
    ensures var (d, s) := (Standard(), Arithmetic());
      var (before, after) := (TextValue(d, s, Print(e)), TextValue(d, s, Print(Chain(e))));
      && before.Some? && after.Some? && Refines(before.value, after.value)
      && (Steady(MeaningOf(s), e) ==> before == after)
  {
    StandardIsProper();
    ArithmeticIsLawful();
    ArithmeticIsMonotone();
    TextValueKept(Standard(), Arithmetic(), e);
  }
}

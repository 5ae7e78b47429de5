/** The expressions that can be read by operator precedence are among those whose
    text the rewriting loop is proved on. */
module SqlFragment {
  import opened Text
  import opened FuncArgs
  import opened CallSearch
  import opened SqlExpr
  import opened SqlText
  import opened FuncCalls
  import opened SqlLexer
  import opened SqlGrouping
  import R = SqlReader

  /** No string literal holds an opening parenthesis, so none holds a call. */
  predicate LiteralsQuiet(e: Expr) {
    && (e.head.Around? && |e.head.parts| == 1 ==> forall k :: 0 <= k < |e.head.parts[0]| ==> e.head.parts[0][k] != '(')
    && AllLiteralsQuiet(e.kids)
  }

  predicate AllLiteralsQuiet(es: Exprs) {
    es.More? ==> LiteralsQuiet(es.first) && AllLiteralsQuiet(es.rest)
  }

  lemma {:induction false} FragmentInner(d: R.Dialect, e: Expr)
    requires Fragment(d, e) && LiteralsQuiet(e)
    ensures Inner(e)
    decreases e
  {
    var n := Len(e.kids);
    AllFragmentInner(d, e.kids);
    match e.head
    case Call(f, word) => CallNeat(e.head, n);
    case Fn(name) => NotRules(ToUpper(name)); CallNeat(e.head, n);
    case Coalesce => EmittedNames(IFF); CallNeat(e.head, n);
    case Power => HeadReady(e.head, n);
    case Around(parts) =>
      if n == 0 { LeafInner(parts); } else if n == 1 { GroupInner(parts); } else { OperatorInner(d, parts); }
    case _ => HeadReady(e.head, n);
  }

  lemma {:induction false} AllFragmentInner(d: R.Dialect, es: Exprs)
    requires AllFragment(d, es) && AllLiteralsQuiet(es)
    ensures AllInner(es)
    decreases es
  {
    if es.More? { FragmentInner(d, es.first); AllFragmentInner(d, es.rest); }
  }

  lemma NotRules(w: string)
    requires !IsRule(w)
    ensures forall f :: w != NameOf(f)
  {
  }

  lemma PartsPlain(w: string)
    requires AllParts(w) || AllSymbols(w)
    ensures Plain(w)
  {
    forall k | 0 <= k < |w| ensures w[k] != '\'' && w[k] != '(' && w[k] != ')' && w[k] != ',' {
      assert IsPart(w[k]) || IsSymbol(w[k]);
    }
  }

  lemma {:induction false} LiteralWalk(w: string)
    requires w != "" && w[|w| - 1] == '\'' && forall k :: 0 <= k < |w| - 1 ==> w[k] != '\''
    ensures Walk(w, 1, true) == Some((1, false))
  {
    if |w| > 1 {
      LiteralWalk(w[1..]);
    } else {
      assert w[1..] == "" && Walk(w[1..], 1, false) == Some((1, false));
    }
  }

  lemma UnitWalk(w: string)
    requires IsUnit(w)
    ensures Walk(w, 1, false) == Some((1, false)) && !IsSpace(w[0]) && !IsSpace(w[|w| - 1])
  {
    if IsLiteral(w) {
      LiteralWalk(w[1..]);
    } else {
      PartsPlain(w);
      PlainWalk(w, 1);
      assert AllParts(w) ==> IsPart(w[0]) && IsPart(w[|w| - 1]);
      assert AllSymbols(w) ==> IsSymbol(w[0]) && IsSymbol(w[|w| - 1]);
    }
  }

  lemma LeafInner(parts: seq<string>)
    requires |parts| == 1 && IsUnit(parts[0]) && forall k :: 0 <= k < |parts[0]| ==> parts[0][k] != '('
    ensures HeadOk(Around(parts), 0) && Neat(Around(parts), 0)
  {
    var head := Around(parts);
    UnitWalk(parts[0]);
    forall f ensures Fits(head, 0, NameOf(f)) { NoParenQuiet(parts[0], NameOf(f)); }
    assert NeatFrom(head, 0, 0, 1);
  }

  lemma GroupInner(parts: seq<string>)
    requires |parts| == 2 && parts[0] == "(" && parts[1] == ")"
    ensures HeadOk(Around(parts), 1) && Neat(Around(parts), 1)
  {
    var head := Around(parts);
    forall f ensures Fits(head, 1, NameOf(f)) {
      NameFacts(f);
      NoWordQuiet("((", NameOf(f));
      NoWordQuiet(")", NameOf(f));
      assert "(" + "(" == "((" && SkipBlank(")") == ")";
    }
    assert "("[1..] == "" && ")"[1..] == "";
    assert Walk("(", 1, false) == Walk("", 2, false);
    assert Walk(")", 2, false) == Walk("", 1, false);
    assert NeatFrom(head, 1, 1, 1);
  }

  lemma OperatorLead(p: string, op: string, name: string)
    requires p == " " + op + " " && (IsName(op) || AllSymbols(op)) && op != ""
    requires IsName(name) && ToUpper(op) != name
    ensures Joint(p) && Lead(p, name)
  {
    assert p[1..] == op + " ";
    if IsName(op) {
      NameBlocks(op, " (", name);
      assert (op + " ") + "(" == op + " (";
      NoWordQuiet(" (", name);
      assert " " + "(" == " (";
      LeadAfterLead(" ", op + " ", name);
      assert " " + (op + " ") == p && IsWordChar(op[0]);
    } else {
      forall k | 0 <= k < |p + "("| ensures !IsWordChar((p + "(")[k]) {
        if 1 <= k <= |op| { assert (p + "(")[k] == op[k - 1] && IsSymbol(op[k - 1]); }
      }
      NoWordQuiet(p + "(", name);
      assert IsSymbol(op[0]);
    }
  }

  lemma OperatorPlain(p: string, op: string)
    requires p == " " + op + " " && (IsName(op) || AllSymbols(op))
    ensures Plain(p)
  {
    assert IsName(op) ==> AllParts(op);
    PartsPlain(op);
    forall k | 0 <= k < |p| ensures p[k] != '\'' && p[k] != '(' && p[k] != ')' && p[k] != ',' {
      if 1 <= k <= |op| { assert p[k] == op[k - 1]; }
    }
  }

  lemma OperatorInner(d: R.Dialect, parts: seq<string>)
    requires |parts| == 3 && parts[0] == "" && IsOperator(d, parts[1]) && parts[2] == ""
    ensures HeadOk(Around(parts), 2) && Neat(Around(parts), 2)
  {
    var (head, p) := (Around(parts), parts[1]);
    Between(p);
    NotRules(OpOf(p));
    forall f ensures Fits(head, 2, NameOf(f)) {
      NameFacts(f);
      NoWordQuiet("(", NameOf(f));
      assert "" + "(" == "(";
      OperatorLead(p, Trimmed(p), NameOf(f));
    }
    OperatorPlain(p, Trimmed(p));
    PlainNeatFrom(head, 2, 0);
  }
}

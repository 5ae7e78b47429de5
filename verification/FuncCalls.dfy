/** The rewrite-until-none-left loop of internal/rewriter/rewriter.go on SQL text:
    each turn is one replacement in the tree that the text writes. */
module FuncCalls {
  import opened Text
  import opened FuncArgs
  import opened CallSearch
  import opened SqlExpr
  import opened SqlText

  // ---- What the rewrites emit can be an operand again ----

  predicate Plain(s: string) {
    forall k :: 0 <= k < |s| ==> s[k] != '\'' && s[k] != '(' && s[k] != ')' && s[k] != ','
  }

  lemma {:induction false} PlainWalk(s: string, depth: nat)
    requires depth >= 1 && Plain(s)
    ensures Walk(s, depth, false) == Some((depth, false))
    decreases |s|
  {
    if s != "" { PlainWalk(s[1..], depth); }
  }

  lemma {:induction false} CallNeatFrom(head: Head, n: nat, i: nat)
    requires IsCallHead(head) && i < n
    ensures NeatFrom(head, n, i, 2)
    decreases n - i
  {
    var p := After(head, n, i);
    if i + 1 == n {
      assert p == ")" && p[1..] == "";
      assert Walk(p, 2, false) == Walk(p[1..], 1, false);
      assert NeatFrom(head, n, n, 1);
    } else {
      assert p == ", " && p[1..] == " " && p[1..][1..] == "";
      assert Walk(p, 2, false) == Walk(p[1..], 2, false) == Walk(p[1..][1..], 2, false);
      CallNeatFrom(head, n, i + 1);
    }
  }

  lemma CallNeat(head: Head, n: nat)
    requires IsCallHead(head) && IsName(WordOf(head))
    ensures Neat(head, n)
  {
    var w := WordOf(head);
    PlainWalk(w, 1);
    WalkOn(w, "(", 1, false);
    WalkOn(w + "(", ")", 1, false);
    assert "("[1..] == "" && ")"[1..] == "";
    assert Walk("(", 1, false) == Walk("", 2, false);
    assert Walk(")", 2, false) == Walk("", 1, false);
    assert (w + "(") + ")" == w + "()";
    assert !IsSpace(w[0]);
    if n > 0 { CallNeatFrom(head, n, 0); } else { assert NeatFrom(head, 0, 0, 1); }
  }

  predicate IsForm(head: Head, n: nat) {
    match head
    case Case => n == 3
    case NotNull => n == 1
    case Over => n == 2
    case IsZero => n == 1
    case Zero => n == 0
    case Two => n == 0
    case _ => false
  }

  lemma FormPlain(head: Head, n: nat)
    requires IsForm(head, n)
    ensures Plain(Open(head, n)) && forall i: nat :: i < n ==> Plain(After(head, n, i))
  {
  }

  lemma FormEnds(head: Head, n: nat)
    requires IsForm(head, n)
    ensures if Open(head, n) == "" then n > 0 else !IsSpace(Open(head, n)[0])
    ensures var last := if n == 0 then Open(head, n) else After(head, n, n - 1);
      last == "" || !IsSpace(last[|last| - 1])
  {
  }

  lemma {:induction false} PlainNeatFrom(head: Head, n: nat, i: nat)
    requires i <= n && forall j: nat :: j < n ==> Plain(After(head, n, j))
    ensures NeatFrom(head, n, i, 1)
    decreases n - i
  {
    if i < n {
      PlainWalk(After(head, n, i), 1);
      PlainNeatFrom(head, n, i + 1);
    }
  }

  lemma FormNeat(head: Head, n: nat)
    requires IsForm(head, n)
    ensures Neat(head, n)
  {
    FormPlain(head, n);
    FormEnds(head, n);
    PlainWalk(Open(head, n), 1);
    PlainNeatFrom(head, n, 0);
  }

  lemma {:induction false} ArgInner(es: Exprs, i: nat)
    requires AllInner(es) && i < Len(es)
    ensures Inner(Arg(es, i))
  {
    if i > 0 { ArgInner(es.rest, i - 1); }
  }

  lemma HeadReady(head: Head, n: nat)
    requires IsForm(head, n) || (head.Power? && n == 2) || (head.Coalesce? && n == 2)
    ensures HeadOk(head, n) && Neat(head, n)
  {
    if head.Power? || head.Coalesce? {
      EmittedNames(IFF);
      CallNeat(head, n);
    } else {
      FormNeat(head, n);
    }
  }

  lemma FormInner(head: Head, a: Expr, b: Expr, c: Expr)
    requires Inner(a) && Inner(b) && Inner(c)
    ensures HeadOk(head, 1) && Neat(head, 1) ==> Inner(Node(head, List1(a)))
    ensures HeadOk(head, 2) && Neat(head, 2) ==> Inner(Node(head, List2(a, b)))
    ensures HeadOk(head, 3) && Neat(head, 3) ==> Inner(Node(head, List3(a, b, c)))
  {
    Lengths(a, b, c);
    assert AllInner(List1(c)) && AllInner(List2(b, c));
    assert AllInner(List1(b)) && AllInner(List1(a)) && AllInner(List2(a, b)) && AllInner(List3(a, b, c));
  }

  lemma NodeInner1(head: Head, a: Expr)
    requires Inner(a) && IsForm(head, 1)
    ensures Inner(Node(head, List1(a)))
  {
    HeadReady(head, 1);
    FormInner(head, a, a, a);
  }

  lemma NodeInner2(head: Head, a: Expr, b: Expr)
    requires Inner(a) && Inner(b) && (IsForm(head, 2) || head.Power? || head.Coalesce?)
    ensures Inner(Node(head, List2(a, b)))
  {
    HeadReady(head, 2);
    FormInner(head, a, b, b);
  }

  lemma NodeInner3(a: Expr, b: Expr, c: Expr)
    requires Inner(a) && Inner(b) && Inner(c)
    ensures Inner(Node(Case, List3(a, b, c)))
  {
    HeadReady(Case, 3);
    FormInner(Case, a, b, c);
  }

  lemma ConstantsInner()
    ensures Inner(Node(Zero, End)) && Inner(Node(Two, End))
  {
    FormNeat(Zero, 0);
    FormNeat(Two, 0);
  }

  lemma CallInner(f: Rule, kids: Exprs)
    requires AllInner(kids)
    ensures Inner(Node(Call(f, NameOf(f)), kids)) && Inner(Node(Coalesce, kids))
  {
    NameFacts(f);
    UpperName(f);
    CallNeat(Call(f, NameOf(f)), Len(kids));
    EmittedNames(f);
    CallNeat(Coalesce, Len(kids));
  }

  lemma ArgsInner(f: Rule, kids: Exprs)
    requires AllInner(kids) && Len(kids) >= Arity(f)
    ensures forall i: nat :: i < Arity(f) ==> Inner(Arg(kids, i))
  {
    forall i: nat | i < Arity(f) ensures Inner(Arg(kids, i)) { ArgInner(kids, i); }
  }

  lemma TemplateInner(f: Rule, kids: Exprs)
    requires AllInner(kids)
    ensures Inner(Template(f, kids))
  {
    if Len(kids) < Arity(f) || f.NVL? {
      CallInner(f, kids);
    } else {
      ArgsInner(f, kids);
      ConstantsInner();
      match f
      case IFF => NodeInner3(Arg(kids, 0), Arg(kids, 1), Arg(kids, 2));
      case NVL2 =>
        NodeInner1(NotNull, Arg(kids, 0));
        NodeInner3(Node(NotNull, List1(Arg(kids, 0))), Arg(kids, 1), Arg(kids, 2));
      case DIV0NULL =>
        NodeInner2(Coalesce, Arg(kids, 1), Node(Zero, End));
        GuardInner(Node(Coalesce, List2(Arg(kids, 1), Node(Zero, End))), Arg(kids, 0), Arg(kids, 1));
      case DIV0 => GuardInner(Arg(kids, 1), Arg(kids, 0), Arg(kids, 1));
      case SQUARE => NodeInner2(Power, Arg(kids, 0), Node(Two, End));
    }
  }

  lemma GuardInner(d: Expr, a: Expr, b: Expr)
    requires Inner(d) && Inner(a) && Inner(b)
    ensures Inner(Node(Case, List3(Node(IsZero, List1(d)), Node(Zero, End), Node(Over, List2(a, b)))))
  {
    ConstantsInner();
    NodeInner1(IsZero, d);
    NodeInner2(Over, a, b);
    NodeInner3(Node(IsZero, List1(d)), Node(Zero, End), Node(Over, List2(a, b)));
  }

  /** A replacement leaves a text of the same kind. */
  lemma {:induction false} StepInner(f: Rule, e: Expr)
    requires HasCall(f, e) && Written(e)
    ensures Written(Step(f, e)) && (Inner(e) ==> Inner(Step(f, e)))
    decreases e
  {
    if Calls(e.head, f) { TemplateInner(f, e.kids); } else { StepAnyInner(f, e.kids); }
  }

  lemma {:induction false} StepAnyInner(f: Rule, es: Exprs)
    requires AnyCall(f, es) && AllInner(es)
    ensures AllInner(StepAny(f, es))
    decreases es
  {
    if HasCall(f, es.first) { StepInner(f, es.first); } else { StepAnyInner(f, es.rest); }
  }

  // ---- Where the first call is written ----

  /** The first call stands after a leading text, and replacing it in the tree
      replaces it in the text. */
  lemma {:induction false} Spot(f: Rule, e: Expr) returns (pre: string, c: Expr, post: string)
    requires HasCall(f, e) && Written(e)
    ensures Calls(c.head, f) && Written(c) && Lead(pre, NameOf(f))
    ensures Print(e) == pre + Print(c) + post
    ensures Print(Step(f, e)) == pre + Print(Template(f, c.kids)) + post
    decreases e
  {
    NameFacts(f);
    if Calls(e.head, f) {
      pre, c, post := "", e, "";
      NoWordQuiet("" + "(", NameOf(f));
      Alone(Print(e));
      Alone(Print(Step(f, e)));
    } else {
      var n := Len(e.kids);
      HeadFits(e.head, n, f);
      pre, c, post := SpotRest(f, e.head, n, 0, e.kids);
      LeadAfterLead(Open(e.head, n), pre, NameOf(f));
      InFront(Open(e.head, n), pre, Print(c), post);
      InFront(Open(e.head, n), pre, Print(Template(f, c.kids)), post);
      pre := Open(e.head, n) + pre;
    }
  }

  lemma {:induction false} SpotRest(f: Rule, head: Head, n: nat, i: nat, es: Exprs)
      returns (pre: string, c: Expr, post: string)
    requires AnyCall(f, es) && AllInner(es) && i + Len(es) == n && Fits(head, n, NameOf(f)) && IsName(NameOf(f))
    ensures Calls(c.head, f) && Written(c) && Lead(pre, NameOf(f)) && (pre == "" || Starts(pre))
    ensures Rest(head, n, i, es) == pre + Print(c) + post
    ensures Rest(head, n, i, StepAny(f, es)) == pre + Print(Template(f, c.kids)) + post
    decreases es, 1
  {
    if HasCall(f, es.first) {
      pre, c, post := SpotFirst(f, head, n, i, es);
    } else {
      pre, c, post := SpotFurther(f, head, n, i, es);
    }
  }

  lemma {:induction false} SpotFirst(f: Rule, head: Head, n: nat, i: nat, es: Exprs)
      returns (pre: string, c: Expr, post: string)
    requires AllInner(es) && i + Len(es) == n && es.More? && HasCall(f, es.first)
    ensures Calls(c.head, f) && Written(c) && Lead(pre, NameOf(f)) && (pre == "" || Starts(pre))
    ensures Rest(head, n, i, es) == pre + Print(c) + post
    ensures Rest(head, n, i, StepAny(f, es)) == pre + Print(Template(f, c.kids)) + post
    decreases es, 0
  {
    InnerText(es.first);
    pre, c, post := Spot(f, es.first);
    post := SpotHere(Print(es.first), Print(Step(f, es.first)), pre, Print(c), Print(Template(f, c.kids)), post,
                     After(head, n, i), Rest(head, n, i + 1, es.rest));
  }

  lemma {:induction false} SpotFurther(f: Rule, head: Head, n: nat, i: nat, es: Exprs)
      returns (pre: string, c: Expr, post: string)
    requires AnyCall(f, es) && AllInner(es) && i + Len(es) == n && Fits(head, n, NameOf(f)) && IsName(NameOf(f))
    requires !HasCall(f, es.first)
    ensures Calls(c.head, f) && Written(c) && Lead(pre, NameOf(f)) && (pre == "" || Starts(pre))
    ensures Rest(head, n, i, es) == pre + Print(c) + post
    ensures Rest(head, n, i, StepAny(f, es)) == pre + Print(Template(f, c.kids)) + post
    decreases es, 0
  {
    QuietOperand(f, head, n, i, es);
    var next := i + 1;
    pre, c, post := SpotRest(f, head, n, next, es.rest);
    pre := SpotBehind(NameOf(f), head, n, i, next, es, StepAny(f, es), pre, Print(c), Print(Template(f, c.kids)), post);
  }

  lemma QuietOperand(f: Rule, head: Head, n: nat, i: nat, es: Exprs)
    requires es.More? && es.rest.More? && Inner(es.first) && !HasCall(f, es.first)
    requires i + Len(es) == n && Fits(head, n, NameOf(f))
    ensures IsTrimmed(Print(es.first)) && Quiet(Print(es.first), NameOf(f))
    ensures Joint(After(head, n, i)) && Lead(After(head, n, i), NameOf(f))
  {
    InnerText(es.first);
    QuietText(f, es.first);
    assert FitsAfter(head, n, i, NameOf(f));
  }

  lemma SpotBehind(name: string, head: Head, n: nat, i: nat, next: nat, es: Exprs, es': Exprs,
      pre: string, s: string, t: string, post: string) returns (pre': string)
    requires es.More? && es'.More? && es'.first == es.first && IsName(name)
    requires IsTrimmed(Print(es.first)) && Quiet(Print(es.first), name)
    requires Joint(After(head, n, i)) && Lead(After(head, n, i), name)
    requires Lead(pre, name) && (pre == "" || Starts(pre))
    requires next == i + 1
    requires Rest(head, n, next, es.rest) == pre + s + post && Rest(head, n, next, es'.rest) == pre + t + post
    ensures Lead(pre', name) && Starts(pre')
    ensures Rest(head, n, i, es) == pre' + s + post && Rest(head, n, i, es') == pre' + t + post
  {
    RestMore(head, n, i, next, es);
    RestMore(head, n, i, next, es');
    pre' := SpotLater(name, Print(es.first), After(head, n, i), pre, s, t, post,
                      Rest(head, n, i + 1, es.rest), Rest(head, n, i + 1, es'.rest));
  }

  /** With one quiet operand more in front. */
  lemma SpotLater(
      name: string, k: string, p: string, pre: string, s: string, t: string, post: string, r: string, r': string)
      returns (pre': string)
    requires r == pre + s + post && r' == pre + t + post
    requires IsName(name) && IsTrimmed(k) && Quiet(k, name) && Joint(p) && Lead(p, name)
    requires Lead(pre, name) && (pre == "" || Starts(pre))
    ensures Lead(pre', name) && Starts(pre')
    ensures k + p + r == pre' + s + post && k + p + r' == pre' + t + post
  {
    LeadThenJoint(k, p, name);
    LeadAfterLead(k + p, pre, name);
    InFront(k + p, pre, s, post);
    InFront(k + p, pre, t, post);
    pre' := k + p + pre;
    assert pre'[0] == k[0];
  }

  lemma Alone(s: string)
    ensures s == "" + s + ""
  {
  }

  lemma InFront(a: string, pre: string, s: string, post: string)
    ensures a + (pre + s + post) == (a + pre) + s + post
  {
  }

  /** With the rest of the operands behind. */
  lemma SpotHere(k: string, k': string, pre: string, s: string, t: string, post: string, p: string, r: string)
      returns (post': string)
    requires IsTrimmed(k) && k == pre + s + post && k' == pre + t + post
    ensures k + p + r == pre + s + post' && k' + p + r == pre + t + post'
    ensures pre == "" || Starts(pre)
  {
    post' := post + p + r;
    Behind(pre, s, post, p, r);
    Behind(pre, t, post, p, r);
    if pre != "" { assert k[0] == pre[0]; }
  }

  lemma Behind(pre: string, s: string, post: string, p: string, r: string)
    ensures (pre + s + post) + p + r == pre + s + (post + p + r)
  {
  }
}

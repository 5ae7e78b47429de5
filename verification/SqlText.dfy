/** Expressions as SQL text, as the rewrites splice them: operands are written
    without parentheses. Where the first call of a function stands in the text. */
module SqlText {
  import opened Text
  import opened FuncArgs
  import opened CallSearch
  import opened SqlExpr

  // ---- Printing ----

  /** The text before the first operand, or all of it if there is none. */
  function Open(head: Head, n: nat): string {
    match head
    case Call(_, word) => if n == 0 then word + "()" else word + "("
    case Fn(name) => if n == 0 then name + "()" else name + "("
    case Coalesce => if n == 0 then "COALESCE" + "()" else "COALESCE" + "("
    case Power => if n == 0 then "POWER" + "()" else "POWER" + "("
    case Case => "CASE WHEN "
    case NotNull => ""
    case Over => ""
    case IsZero => ""
    case Zero => "0"
    case Two => "2"
    case Around(parts) => if parts == [] then "" else parts[0]
  }

  /** The text after the i-th of n operands. */
  function After(head: Head, n: nat, i: nat): string {
    match head
    case Case => if i == 0 then " THEN " else if i == 1 then " ELSE " else " END"
    case NotNull => " IS NOT NULL"
    case Over => if i == 0 then " / " else ""
    case IsZero => " = 0"
    case Zero => ""
    case Two => ""
    case Around(parts) => if i + 1 < |parts| then parts[i + 1] else ""
    case _ => if i + 1 == n then ")" else ", "
  }

  function Print(e: Expr): string
    decreases e
  {
    Open(e.head, Len(e.kids)) + Rest(e.head, Len(e.kids), 0, e.kids)
  }

  function Rest(head: Head, n: nat, i: nat, es: Exprs): string
    decreases es
  {
    match es
    case End => ""
    case More(e, rest) => Print(e) + After(head, n, i) + Rest(head, n, i + 1, rest)
  }

  function PrintAll(es: Exprs): (r: seq<string>)
    ensures |r| == Len(es)
  {
    match es case End => [] case More(e, rest) => [Print(e)] + PrintAll(rest)
  }

  // ---- Which trees are a text's ----

  /** Around the operands no call is written, and no word runs into them. */
  ghost predicate Fits(head: Head, n: nat, name: string) {
    && (if n == 0 then Quiet(Open(head, n), name) else Lead(Open(head, n), name))
    && forall i :: 0 <= i < n ==> FitsAfter(head, n, i, name)
  }

  ghost predicate FitsAfter(head: Head, n: nat, i: nat, name: string) {
    var p := After(head, n, i);
    if i + 1 < n then Joint(p) && Lead(p, name) else p == "" || (Joint(p) && Quiet(p, name))
  }

  /** The head can be written around n operands, and its text holds no call that
      the tree does not. */
  ghost predicate HeadOk(head: Head, n: nat) {
    match head
    case Call(f, word) => IsName(word) && ToUpper(word) == NameOf(f)
    case Fn(name) => IsName(name) && forall f :: ToUpper(name) != NameOf(f)
    case Coalesce => true
    case Power => n == 2
    case Case => n == 3
    case NotNull => n == 1
    case Over => n == 2
    case IsZero => n == 1
    case Zero => n == 0
    case Two => n == 0
    case Around(parts) => |parts| == n + 1 && forall f :: Fits(head, n, NameOf(f))
  }

  /** From the i-th operand on, at this parenthesis depth: quotes are closed,
      parentheses balanced, and no comma stands at the top level. */
  predicate NeatFrom(head: Head, n: nat, i: nat, depth: nat)
    requires i <= n && depth >= 1
    decreases n - i
  {
    if i == n then depth == 1
    else
      match Walk(After(head, n, i), depth, false)
      case None => false
      case Some((d, q)) => !q && NeatFrom(head, n, i + 1, d)
  }

  predicate Neat(head: Head, n: nat) {
    && (match Walk(Open(head, n), 1, false)
        case None => false
        case Some((d, q)) => !q && NeatFrom(head, n, 0, d))
    && (if Open(head, n) == "" then n > 0 else !IsSpace(Open(head, n)[0]))
    && var last := if n == 0 then Open(head, n) else After(head, n, n - 1);
       last == "" || !IsSpace(last[|last| - 1])
  }

  /** An operand: closed and trimmed, so that it can be an argument. */
  ghost predicate Inner(e: Expr) {
    HeadOk(e.head, Len(e.kids)) && Neat(e.head, Len(e.kids)) && AllInner(e.kids)
  }

  ghost predicate AllInner(es: Exprs) {
    es.More? ==> Inner(es.first) && AllInner(es.rest)
  }

  /** A whole statement. */
  ghost predicate Written(e: Expr) {
    HeadOk(e.head, Len(e.kids)) && AllInner(e.kids)
  }

  // ---- Operands are closed and trimmed ----

  lemma {:induction false} WalkOn(a: string, b: string, depth: nat, quoted: bool)
    requires depth >= 1 && Walk(a, depth, quoted).Some?
    ensures var (d, q) := Walk(a, depth, quoted).value; Walk(a + b, depth, quoted) == Walk(b, d, q)
    decreases |a|
  {
    if a == "" { assert a + b == b; } else {
      assert (a + b)[1..] == a[1..] + b;
      WalkOn(a[1..], b, NextDepth(a[0], depth, quoted), NextQuoted(a[0], quoted));
    }
  }

  lemma {:induction false} WalkDeeper(p: string, depth: nat, quoted: bool)
    requires depth >= 1 && Walk(p, depth, quoted).Some?
    ensures var (d, q) := Walk(p, depth, quoted).value; Walk(p, depth + 1, quoted) == Some((d + 1, q))
    decreases |p|
  {
    if p != "" {
      var (d, q) := (NextDepth(p[0], depth, quoted), NextQuoted(p[0], quoted));
      assert NextDepth(p[0], depth + 1, quoted) == d + 1;
      WalkDeeper(p[1..], d, q);
    }
  }

  lemma {:induction false} ClosedAt(p: string, depth: nat)
    requires Closed(p) && depth >= 1
    ensures Walk(p, depth, false) == Some((depth, false))
    decreases depth
  {
    if depth > 1 {
      ClosedAt(p, depth - 1);
      WalkDeeper(p, depth - 1, false);
    }
  }

  lemma {:induction false} InnerText(e: Expr)
    requires Inner(e)
    ensures Closed(Print(e)) && IsTrimmed(Print(e))
    decreases e
  {
    var n := Len(e.kids);
    var a := Open(e.head, n);
    var (d, q) := Walk(a, 1, false).value;
    RestWalk(e.head, n, 0, e.kids, d);
    if n > 0 { RestEnds(e.head, n, 0, e.kids, n - 1); }
    WalkOn(a, Rest(e.head, n, 0, e.kids), 1, false);
  }

  lemma {:induction false} RestWalk(head: Head, n: nat, i: nat, es: Exprs, depth: nat)
    requires AllInner(es) && i + Len(es) == n && depth >= 1 && NeatFrom(head, n, i, depth)
    ensures Walk(Rest(head, n, i, es), depth, false) == Some((1, false))
    decreases es
  {
    if es.More? {
      var d := Walk(After(head, n, i), depth, false).value.0;
      InnerText(es.first);
      RestWalk(head, n, i + 1, es.rest, d);
      WalkThree(Print(es.first), After(head, n, i), Rest(head, n, i + 1, es.rest), depth, d);
    }
  }

  lemma WalkThree(k: string, p: string, r: string, depth: nat, d: nat)
    requires Closed(k) && depth >= 1 && d >= 1
    requires Walk(p, depth, false) == Some((d, false)) && Walk(r, d, false) == Some((1, false))
    ensures Walk(k + p + r, depth, false) == Some((1, false))
  {
    ClosedAt(k, depth);
    WalkOn(k, p, depth, false);
    WalkOn(k + p, r, depth, false);
  }

  lemma {:induction false} RestEnds(head: Head, n: nat, i: nat, es: Exprs, last: nat)
    requires AllInner(es) && i + Len(es) == n && last + 1 == n && es.More?
    requires var p := After(head, n, last); p == "" || !IsSpace(p[|p| - 1])
    ensures IsTrimmed(Rest(head, n, i, es))
    decreases es
  {
    var next := i + 1;
    InnerText(es.first);
    RestMore(head, n, i, next, es);
    if es.rest.More? {
      RestEnds(head, n, next, es.rest, last);
      TrimmedFront(Print(es.first), After(head, n, i), Rest(head, n, next, es.rest));
    } else {
      assert i == last;
      TrimmedEnd(Print(es.first), After(head, n, last));
    }
  }

  lemma TrimmedFront(k: string, p: string, r: string)
    requires IsTrimmed(k) && IsTrimmed(r)
    ensures IsTrimmed(k + p + r)
  {
    var s := k + p + r;
    assert s[0] == k[0] && s[|s| - 1] == r[|r| - 1];
  }

  lemma TrimmedEnd(k: string, p: string)
    requires IsTrimmed(k) && (p == "" || !IsSpace(p[|p| - 1]))
    ensures IsTrimmed(k + p + "")
  {
    var s := k + p + "";
    assert s[0] == k[0] && s[|s| - 1] == if p == "" then k[|k| - 1] else p[|p| - 1];
  }

  // ---- Trees without a call have none in their text ----

  lemma NameFacts(f: Rule)
    ensures IsName(NameOf(f)) && |NameOf(f)| >= 3
  {
  }

  lemma UpperName(f: Rule)
    ensures ToUpper(NameOf(f)) == NameOf(f)
  {
    UpperFixed(NameOf(f));
  }

  lemma {:induction false} QuietText(f: Rule, e: Expr)
    requires Written(e) && !HasCall(f, e)
    ensures Quiet(Print(e), NameOf(f))
    decreases e
  {
    var n := Len(e.kids);
    NameFacts(f);
    HeadFits(e.head, n, f);
    if n == 0 {
      assert Print(e) == Open(e.head, n);
    } else {
      RestQuiet(f, e.head, n, 0, e.kids);
      QuietAfterLead(Open(e.head, n), Rest(e.head, n, 0, e.kids), NameOf(f));
    }
  }

  /** What follows the opening is quiet, and starts with no blank. */
  lemma {:induction false} RestQuiet(f: Rule, head: Head, n: nat, i: nat, es: Exprs)
    requires AllInner(es) && !AnyCall(f, es) && i + Len(es) == n && es.More? && Fits(head, n, NameOf(f))
    ensures Quiet(Rest(head, n, i, es), NameOf(f)) && Starts(Rest(head, n, i, es))
    decreases es, 1
  {
    var next := i + 1;
    OperandQuiet(f, head, n, i, es);
    if es.rest.More? { RestQuiet(f, head, n, next, es.rest); }
    RestMore(head, n, i, next, es);
    QuietThree(Print(es.first), After(head, n, i), Rest(head, n, next, es.rest), NameOf(f));
  }

  lemma {:induction false} OperandQuiet(f: Rule, head: Head, n: nat, i: nat, es: Exprs)
    requires AllInner(es) && !AnyCall(f, es) && i + Len(es) == n && es.More? && Fits(head, n, NameOf(f))
    ensures IsName(NameOf(f)) && Quiet(Print(es.first), NameOf(f)) && Starts(Print(es.first))
    ensures var p := After(head, n, i);
      if es.rest.More? then Joint(p) && Lead(p, NameOf(f)) else p == "" || (Joint(p) && Quiet(p, NameOf(f)))
    decreases es, 0
  {
    NameFacts(f);
    InnerText(es.first);
    QuietText(f, es.first);
    assert FitsAfter(head, n, i, NameOf(f));
  }

  lemma RestMore(head: Head, n: nat, i: nat, next: nat, es: Exprs)
    requires es.More? && next == i + 1
    ensures Rest(head, n, i, es) == Print(es.first) + After(head, n, i) + Rest(head, n, next, es.rest)
    ensures es.rest.End? ==> Rest(head, n, next, es.rest) == ""
  {
  }

  predicate Starts(s: string) {
    s != "" && !IsBlank(s[0])
  }

  lemma QuietThree(k: string, p: string, r: string, name: string)
    requires IsName(name) && Quiet(k, name) && Starts(k)
    requires if r == "" then p == "" || (Joint(p) && Quiet(p, name))
             else Joint(p) && Lead(p, name) && Quiet(r, name) && Starts(r)
    ensures Quiet(k + p + r, name) && Starts(k + p + r)
  {
    if r != "" {
      LeadThenJoint(k, p, name);
      QuietAfterLead(k + p, r, name);
    } else if p != "" {
      QuietThenJoint(k, p, name);
      assert k + p + r == k + p;
    } else {
      assert k + p + r == k;
    }
    assert (k + p + r)[0] == k[0];
  }

  // ---- The heads that the rewrites emit ----

  lemma HeadFits(head: Head, n: nat, f: Rule)
    requires HeadOk(head, n) && !Calls(head, f)
    ensures Fits(head, n, NameOf(f))
  {
    var name := NameOf(f);
    NameFacts(f);
    match head
    case Around(_) =>
    case Call(g, word) => NamesDiffer(f, g); CallFits(head, word, n, name);
    case Fn(word) => CallFits(head, word, n, name);
    case Coalesce => EmittedNames(f); CallFits(head, "COALESCE", n, name);
    case Power => EmittedNames(f); CallFits(head, "POWER", n, name);
    case Case => CaseFits(f);
    case _ => FormFits(head, n, name);
  }

  lemma NamesDiffer(f: Rule, g: Rule)
    ensures f != g ==> NameOf(f) != NameOf(g)
  {
    match f
    case IFF => assert NameOf(f)[0] == 'I';
    case NVL2 => assert |NameOf(f)| == 4 && NameOf(f)[0] == 'N';
    case NVL => assert |NameOf(f)| == 3 && NameOf(f)[0] == 'N';
    case DIV0NULL => assert |NameOf(f)| == 8;
    case DIV0 => assert |NameOf(f)| == 4 && NameOf(f)[0] == 'D';
    case SQUARE => assert NameOf(f)[0] == 'S';
  }

  lemma EmittedNames(f: Rule)
    ensures IsName("COALESCE") && ToUpper("COALESCE") != NameOf(f)
    ensures IsName("POWER") && ToUpper("POWER") != NameOf(f)
  {
    NameStarts(f);
    var (c, p) := ("COALESCE", "POWER");
    assert c[0] == 'C' && ToUpper(c)[0] == 'C';
    assert |ToUpper(p)| == 5;
  }

  lemma NameStarts(f: Rule)
    ensures NameOf(f)[0] != 'C' && |NameOf(f)| != 5
  {
  }

  lemma CallFits(head: Head, word: string, n: nat, name: string)
    requires head.Call? || head.Fn? || head.Coalesce? || head.Power?
    requires Open(head, n) == if n == 0 then word + "()" else word + "("
    requires IsName(name) && IsName(word) && ToUpper(word) != name
    ensures Fits(head, n, name)
  {
    OtherNameLead(word, name);
    NoWordQuiet(", " + "(", name);
    NoWordQuiet(")", name);
    assert SkipBlank(", ") == ", " && SkipBlank(")") == ")";
    assert Joint(", ") && Lead(", ", name) && Joint(")");
  }

  lemma FormFits(head: Head, n: nat, name: string)
    requires HeadOk(head, n) && IsName(name)
    requires head.NotNull? || head.Over? || head.IsZero? || head.Zero? || head.Two?
    ensures Fits(head, n, name)
  {
    NoWordQuiet("" + "(", name);
    NoWordQuiet(" / " + "(", name);
    NoParenQuiet(" IS NOT NULL", name);
    NoParenQuiet(" = 0", name);
    NoParenQuiet("0", name);
    NoParenQuiet("2", name);
    assert SkipBlank(" / ") == "/ " by { assert " / "[1..] == "/ "; }
    assert SkipBlank(" IS NOT NULL") == "IS NOT NULL" by { assert " IS NOT NULL"[1..] == "IS NOT NULL"; }
    assert SkipBlank(" = 0") == "= 0" by { assert " = 0"[1..] == "= 0"; }
  }

  lemma CaseFits(f: Rule)
    ensures Fits(Case, 3, NameOf(f))
  {
    var name := NameOf(f);
    NameFacts(f);
    NameEnds(f);
    WordsLead("CASE WHEN ", name);
    WordsLead(" THEN ", name);
    WordsLead(" ELSE ", name);
    NoParenQuiet(" END", name);
    assert SkipBlank(" THEN ") == "THEN " by { assert " THEN "[1..] == "THEN "; }
    assert SkipBlank(" ELSE ") == "ELSE " by { assert " ELSE "[1..] == "ELSE "; }
    assert SkipBlank(" END") == "END" by { assert " END"[1..] == "END"; }
  }

  lemma NameEnds(f: Rule)
    ensures var name := NameOf(f); name[|name| - 1] != 'N' && (name[|name| - 1] == 'E' ==> name[|name| - 2] != 'S')
  {
  }

  // ---- What a replacement is written like ----

  /** What the replacer of a rule returns for the arguments it is given. */
  function Replacement(f: Rule, args: seq<string>): string {
    if |args| < Arity(f) then NameOf(f) + "(" + Listed(args) + ")"
    else
      match f
      case IFF => "CASE WHEN " + args[0] + " THEN " + args[1] + " ELSE " + args[2] + " END"
      case NVL2 => "CASE WHEN " + args[0] + " IS NOT NULL THEN " + args[1] + " ELSE " + args[2] + " END"
      case NVL => "COALESCE(" + Listed(args) + ")"
      case DIV0NULL =>
        "CASE WHEN COALESCE(" + args[1] + ", 0) = 0 THEN 0 ELSE " + args[0] + " / " + args[1] + " END"
      case DIV0 => "CASE WHEN " + args[1] + " = 0 THEN 0 ELSE " + args[0] + " / " + args[1] + " END"
      case SQUARE => "POWER(" + args[0] + ", 2)"
  }

  predicate IsCallHead(head: Head) {
    head.Call? || head.Fn? || head.Coalesce? || head.Power?
  }

  function WordOf(head: Head): string
    requires IsCallHead(head)
  {
    match head case Call(_, word) => word case Fn(name) => name case Coalesce => "COALESCE" case Power => "POWER"
  }

  lemma {:induction false} RestListed(head: Head, n: nat, i: nat, es: Exprs)
    requires IsCallHead(head) && i + Len(es) == n && es.More?
    ensures Rest(head, n, i, es) == Listed(PrintAll(es)) + ")"
    decreases es
  {
    var (k, all) := (Print(es.first), PrintAll(es));
    assert all[1..] == PrintAll(es.rest);
    if es.rest.More? {
      RestListed(head, n, i + 1, es.rest);
      assert k + ", " + (Listed(all[1..]) + ")") == (k + ", " + Listed(all[1..])) + ")";
    } else {
      assert k + ")" + "" == k + ")";
    }
  }

  /** A call is written as its name and the list of its arguments. */
  lemma CallText(head: Head, es: Exprs)
    requires IsCallHead(head)
    ensures Print(Node(head, es)) == WordOf(head) + "(" + Listed(PrintAll(es)) + ")"
  {
    var n := Len(es);
    var w := WordOf(head);
    if es.End? {
      assert w + "()" + "" == w + "(" + "" + ")";
    } else {
      RestListed(head, n, 0, es);
      assert (w + "(") + (Listed(PrintAll(es)) + ")") == w + "(" + Listed(PrintAll(es)) + ")";
    }
  }

  lemma {:induction false} PrintArg(es: Exprs, i: nat)
    requires i < Len(es)
    ensures PrintAll(es)[i] == Print(Arg(es, i))
  {
    if i > 0 { PrintArg(es.rest, i - 1); }
  }

  lemma RestLast(head: Head, n: nat, i: nat, a: Expr)
    ensures Rest(head, n, i, List1(a)) == Print(a) + After(head, n, i)
  {
    var s := Print(a) + After(head, n, i);
    assert Rest(head, n, i + 1, End) == "";
    assert s + "" == s;
  }

  lemma FormText(head: Head, a: Expr, b: Expr, c: Expr)
    ensures Print(Node(head, List1(a))) == Open(head, 1) + (Print(a) + After(head, 1, 0))
    ensures Print(Node(head, List2(a, b))) ==
      Open(head, 2) + (Print(a) + After(head, 2, 0) + (Print(b) + After(head, 2, 1)))
    ensures Print(Node(head, List3(a, b, c))) ==
      Open(head, 3) + (Print(a) + After(head, 3, 0) + (Print(b) + After(head, 3, 1) + (Print(c) + After(head, 3, 2))))
  {
    Lengths(a, b, c);
    RestLast(head, 1, 0, a);
    RestLast(head, 2, 1, b);
    RestLast(head, 3, 2, c);
    assert Rest(head, 3, 1, List2(b, c)) == Print(b) + After(head, 3, 1) + Rest(head, 3, 2, List1(c));
  }

  lemma Lengths(a: Expr, b: Expr, c: Expr)
    ensures Len(List1(a)) == 1 && Len(List2(a, b)) == 2 && Len(List3(a, b, c)) == 3
  {
    assert Len(List1(c)) == 1 && Len(List2(b, c)) == 2;
  }

  /** Chains of five, seven and nine texts, however they are bracketed. */
  lemma Chain7(t0: string, a: string, t1: string, b: string, t2: string, c: string, t3: string)
    ensures t0 + (a + t1 + (b + t2 + (c + t3))) == t0 + a + t1 + b + t2 + c + t3
  {
    var s := b + t2 + (c + t3);
    assert t0 + (a + t1 + s) == t0 + a + t1 + s;
    assert t0 + a + t1 + s == t0 + a + t1 + b + t2 + (c + t3);
  }

  lemma PrintConstants()
    ensures Print(Node(Zero, End)) == "0" && Print(Node(Two, End)) == "2"
  {
    assert "0" + "" == "0" && "2" + "" == "2";
  }

  lemma CaseText(c: Expr, t: Expr, e: Expr)
    ensures Print(Node(Case, List3(c, t, e))) ==
      "CASE WHEN " + Print(c) + " THEN " + Print(t) + " ELSE " + Print(e) + " END"
  {
    FormText(Case, c, t, e);
    Chain7("CASE WHEN ", Print(c), " THEN ", Print(t), " ELSE ", Print(e), " END");
  }

  lemma FormTexts(a: Expr, b: Expr)
    ensures Print(Node(NotNull, List1(a))) == Print(a) + " IS NOT NULL"
    ensures Print(Node(Over, List2(a, b))) == Print(a) + " / " + Print(b)
    ensures Print(Node(IsZero, List1(a))) == Print(a) + " = 0"
  {
    FormText(NotNull, a, a, a);
    FormText(IsZero, a, a, a);
    FormText(Over, a, b, b);
    var (x, y) := (Print(a), Print(b));
    assert "" + (x + " IS NOT NULL") == x + " IS NOT NULL";
    assert "" + (x + " = 0") == x + " = 0";
    assert "" + (x + " / " + (y + "")) == x + " / " + y;
  }

  lemma PairText(head: Head, a: Expr, b: Expr)
    requires IsCallHead(head)
    ensures Print(Node(head, List2(a, b))) == WordOf(head) + "(" + (Print(a) + ", " + Print(b)) + ")"
  {
    CallText(head, List2(a, b));
    assert PrintAll(List1(b)) == [Print(b)];
    assert PrintAll(List2(a, b)) == [Print(a), Print(b)];
    assert [Print(a), Print(b)][1..] == [Print(b)];
    assert Listed([Print(b)]) == Print(b);
  }

  /** The replacement's text is the text of the replacing tree. */
  lemma TemplateText(f: Rule, kids: Exprs)
    ensures Print(Template(f, kids)) == Replacement(f, PrintAll(kids))
  {
    if Len(kids) < Arity(f) {
      CallText(Call(f, NameOf(f)), kids);
    } else {
      if Arity(f) > 0 { PrintArg(kids, 0); }
      if Arity(f) > 1 { PrintArg(kids, 1); }
      if Arity(f) > 2 { PrintArg(kids, 2); }
      match f
      case IFF => CaseText(Arg(kids, 0), Arg(kids, 1), Arg(kids, 2));
      case NVL2 => Nvl2Text(Arg(kids, 0), Arg(kids, 1), Arg(kids, 2));
      case NVL =>
        CallText(Coalesce, kids);
        assert "COALESCE" + "(" == "COALESCE(";
      case DIV0NULL => Div0NullText(Arg(kids, 0), Arg(kids, 1));
      case DIV0 => GuardText(Arg(kids, 1), Arg(kids, 0), Arg(kids, 1));
      case SQUARE => SquareText(Arg(kids, 0));
    }
  }

  lemma Nvl2Text(a: Expr, b: Expr, c: Expr)
    ensures Print(Node(Case, List3(Node(NotNull, List1(a)), b, c))) ==
      "CASE WHEN " + Print(a) + " IS NOT NULL THEN " + Print(b) + " ELSE " + Print(c) + " END"
  {
    FormTexts(a, a);
    CaseText(Node(NotNull, List1(a)), b, c);
    NotNullThen("CASE WHEN ", Print(a));
  }

  lemma NotNullThen(t: string, a: string)
    ensures t + (a + " IS NOT NULL") + " THEN " == t + a + " IS NOT NULL THEN "
  {
    assert " IS NOT NULL" + " THEN " == " IS NOT NULL THEN ";
    assert t + (a + " IS NOT NULL") == t + a + " IS NOT NULL";
    AppendAssoc(t + a, " IS NOT NULL", " THEN ");
  }

  /** CASE WHEN d = 0 THEN 0 ELSE a / b END. */
  lemma GuardText(d: Expr, a: Expr, b: Expr)
    ensures Print(Node(Case, List3(Node(IsZero, List1(d)), Node(Zero, End), Node(Over, List2(a, b))))) ==
      "CASE WHEN " + Print(d) + " = 0 THEN 0 ELSE " + Print(a) + " / " + Print(b) + " END"
  {
    PrintConstants();
    FormTexts(d, d);
    FormTexts(a, b);
    CaseText(Node(IsZero, List1(d)), Node(Zero, End), Node(Over, List2(a, b)));
    GuardJoin("CASE WHEN ", Print(d), Print(a), Print(b));
  }

  lemma GuardJoin(t: string, d: string, a: string, b: string)
    ensures t + (d + " = 0") + " THEN " + "0" + " ELSE " + (a + " / " + b) + " END" ==
      t + d + " = 0 THEN 0 ELSE " + a + " / " + b + " END"
  {
    var mid := " = 0 THEN 0 ELSE ";
    assert mid == " = 0" + " THEN " + "0" + " ELSE ";
    assert t + (d + " = 0") + " THEN " + "0" + " ELSE " == t + d + mid;
    assert t + d + mid + (a + " / " + b) == t + d + mid + a + " / " + b;
  }

  lemma Div0NullText(a: Expr, b: Expr)
    ensures var divisor := Node(Coalesce, List2(b, Node(Zero, End)));
      Print(Node(Case, List3(Node(IsZero, List1(divisor)), Node(Zero, End), Node(Over, List2(a, b))))) ==
      "CASE WHEN COALESCE(" + Print(b) + ", 0) = 0 THEN 0 ELSE " + Print(a) + " / " + Print(b) + " END"
  {
    PrintConstants();
    PairText(Coalesce, b, Node(Zero, End));
    GuardText(Node(Coalesce, List2(b, Node(Zero, End))), a, b);
    CoalesceJoin(Print(b));
  }

  lemma CoalesceJoin(b: string)
    ensures "CASE WHEN " + ("COALESCE" + "(" + (b + ", " + "0") + ")") + " = 0 THEN 0 ELSE " ==
      "CASE WHEN COALESCE(" + b + ", 0) = 0 THEN 0 ELSE "
  {
    assert "CASE WHEN " + ("COALESCE" + "(") == "CASE WHEN COALESCE(";
    assert ", " + "0" + ")" + " = 0 THEN 0 ELSE " == ", 0) = 0 THEN 0 ELSE ";
    Regroup("CASE WHEN ", "COALESCE" + "(", b, ", ", "0", ")", " = 0 THEN 0 ELSE ");
  }

  lemma Regroup(t: string, c: string, b: string, u: string, v: string, w: string, x: string)
    ensures t + (c + (b + u + v) + w) + x == (t + c) + b + (u + v + w + x)
  {
  }

  lemma SquareText(a: Expr)
    ensures Print(Node(Power, List2(a, Node(Two, End)))) == "POWER(" + Print(a) + ", 2)"
  {
    PrintConstants();
    PairText(Power, a, Node(Two, End));
    assert "POWER" + "(" == "POWER(" && ", " + "2" + ")" == ", 2)";
    assert "POWER(" + (Print(a) + ", " + "2") + ")" == "POWER(" + Print(a) + (", " + "2" + ")");
  }
}

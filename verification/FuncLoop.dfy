/** findFuncCall, replaceFuncCall and the chain of function rules of
    internal/rewriter/rewriter.go on SQL text, against the trees the text writes. */
module FuncLoop {
  import opened Text
  import opened FuncArgs
  import opened CallSearch
  import opened SqlExpr
  import opened SqlText
  import opened FuncCalls

  datatype Found = Found(start: nat, args: seq<string>, close: nat)

  /** The first parenthesis from i on. */
  function ParenFrom(s: string, i: nat): (r: Option<nat>)
    ensures r.Some? ==> i <= r.value < |s|
    decreases |s| - i
  {
    if i >= |s| then None else if s[i] == '(' then Some(i) else ParenFrom(s, i + 1)
  }

  /** The call found first, unless its parentheses do not close. */
  function FirstCall(sql: string, f: Rule): (r: Option<Found>)
    ensures r.Some? ==> r.value.start <= r.value.close < |sql|
  {
    match FindFrom(sql, NameOf(f), 0)
    case None => None
    case Some(start) =>
      match ParenFrom(sql, start)
      case None => None
      case Some(open) =>
        match Extracted(sql, open)
        case None => None
        case Some((args, close)) => Some(Found(start, args, close))
  }

  function Spliced(sql: string, start: nat, close: nat, piece: string): string
    requires start <= close < |sql|
  {
    sql[..start] + piece + sql[close + 1..]
  }

  /** One turn of the loop; None when it ends. */
  function Turn(sql: string, f: Rule): Option<string> {
    match FirstCall(sql, f)
    case None => None
    case Some(c) => Some(Spliced(sql, c.start, c.close, Replacement(f, c.args)))
  }

  // ---- A turn on the text is a step in the tree ----

  lemma {:induction false} ArgsReady(es: Exprs)
    requires AllInner(es)
    ensures forall i :: 0 <= i < Len(es) ==> IsTrimmed(PrintAll(es)[i]) && Closed(PrintAll(es)[i])
  {
    if es.More? {
      InnerText(es.first);
      ArgsReady(es.rest);
      assert forall i :: 0 < i < Len(es) ==> PrintAll(es)[i] == PrintAll(es.rest)[i - 1];
    }
  }

  lemma {:induction false} ParenAfterWord(s: string, i: nat, open: nat)
    requires i <= open < |s| && s[open] == '(' && forall k :: i <= k < open ==> s[k] != '('
    ensures ParenFrom(s, i) == Some(open)
    decreases open - i
  {
    if i < open { ParenAfterWord(s, i + 1, open); }
  }

  /** Where the parts of a text with a call lie. */
  lemma CallParts(
      pre: string, word: string, inner: string, post: string, sql: string, start: nat, open: nat, close: nat)
    requires sql == pre + (word + "(" + inner + ")") + post
    requires start == |pre| && open == start + |word| && close == open + 1 + |inner|
    requires forall k :: 0 <= k < |word| ==> word[k] != '('
    ensures sql == pre + (word + ("(" + inner + ")" + post)) && sql == (pre + word) + "(" + inner + ")" + post
    ensures open < |sql| && ParenFrom(sql, start) == Some(open)
    ensures close < |sql| && sql[..start] == pre && sql[close + 1..] == post
  {
    var tail := "(" + inner + ")" + post;
    assert word + "(" + inner + ")" + post == word + tail;
    assert sql == pre + (word + tail);
    assert sql == (pre + word) + tail;
    assert sql[open] == '(';
    forall k | start <= k < open ensures sql[k] != '(' { assert sql[k] == word[k - start]; }
    ParenAfterWord(sql, start, open);
    assert sql == (pre + (word + "(" + inner + ")")) + post;
  }

  lemma WordHasNoParen(word: string, name: string)
    requires IsName(name) && ToUpper(word) == name
    ensures forall k :: 0 <= k < |word| ==> word[k] != '('
  {
    WordChars(word, name);
  }

  /** The call after a leading text is found, with its arguments. */
  lemma CallFound(f: Rule, pre: string, word: string, args: seq<string>, inner: string, post: string, sql: string,
      start: nat, open: nat, close: nat)
    requires Lead(pre, NameOf(f)) && ToUpper(word) == NameOf(f) && inner == Listed(args)
    requires forall i :: 0 <= i < |args| ==> IsTrimmed(args[i]) && Closed(args[i])
    requires sql == pre + (word + "(" + inner + ")") + post
    requires start == |pre| && open == start + |word| && close == open + 1 + |inner|
    ensures FirstCall(sql, f) == Some(Found(start, args, close))
  {
    NameFacts(f);
    WordHasNoParen(word, NameOf(f));
    CallParts(pre, word, inner, post, sql, start, open, close);
    FoundAfterLead(pre, word, "(" + inner + ")" + post, NameOf(f), sql, start);
    ListRoundTrip(pre + word, args, inner, post, sql, open, close);
  }

  /** A turn replaces the first call of the tree, and ends the loop exactly if there
      is none. */
  lemma TextTurn(f: Rule, e: Expr)
    requires Written(e)
    ensures Turn(Print(e), f) == if HasCall(f, e) then Some(Print(Step(f, e))) else None
  {
    NameFacts(f);
    var sql := Print(e);
    if HasCall(f, e) {
      var pre, c, post := Spot(f, e);
      var args := PrintAll(c.kids);
      CallText(c.head, c.kids);
      ArgsReady(c.kids);
      TemplateText(f, c.kids);
      TurnAt(f, pre, c.head.word, args, Listed(args), post, sql);
    } else {
      QuietText(f, e);
    }
  }

  lemma TurnAt(f: Rule, pre: string, word: string, args: seq<string>, inner: string, post: string, sql: string)
    requires Lead(pre, NameOf(f)) && ToUpper(word) == NameOf(f) && inner == Listed(args)
    requires forall i :: 0 <= i < |args| ==> IsTrimmed(args[i]) && Closed(args[i])
    requires sql == pre + (word + "(" + inner + ")") + post
    ensures Turn(sql, f) == Some(pre + Replacement(f, args) + post)
  {
    var (start, open) := (|pre|, |pre| + |word|);
    var close := open + 1 + |inner|;
    NameFacts(f);
    WordHasNoParen(word, NameOf(f));
    CallParts(pre, word, inner, post, sql, start, open, close);
    CallFound(f, pre, word, args, inner, post, sql, start, open, close);
  }

  // ---- The loops ----

  /** findFuncCall. */
  method FindFuncCall(sql: string, f: Rule) returns (r: Option<Found>)
    ensures r == FirstCall(sql, f)
  {
    var loc := FindFrom(sql, NameOf(f), 0);
    if loc.None? { return None; }
    var open := ParenFrom(sql, loc.value);
    if open.None? { return None; }
    var extracted := ExtractFuncArgs(sql, open.value);
    if extracted.None? { return None; }
    return Some(Found(loc.value, extracted.value.0, extracted.value.1));
  }

  /** The body of replaceFuncCall's loop. */
  method TurnOnce(sql: string, f: Rule) returns (next: Option<string>)
    ensures next == Turn(sql, f)
  {
    var c := FindFuncCall(sql, f);
    if c.None? { return None; }
    return Some(Spliced(sql, c.value.start, c.value.close, Replacement(f, c.value.args)));
  }

  lemma StepFacts(f: Rule, e: Expr, next: Expr)
    requires HasCall(f, e) && Written(e) && EnoughArgs(f, e) && next == Step(f, e)
    ensures Written(next) && EnoughArgs(f, next) && Norm(f, next) == Norm(f, e)
    ensures 0 <= Replacements(f, next) < Replacements(f, e)
  {
    StepCounts(f, e);
    NormStep(f, e);
    StepInner(f, e);
  }

  /** replaceFuncCall with the replacer of a rule, on the text of any statement whose
      calls have enough arguments: it ends, and the text is that of the rewritten
      tree. */
  method ReplaceFuncCall(sql: string, f: Rule, ghost e: Expr) returns (r: string)
    requires Written(e) && sql == Print(e) && EnoughArgs(f, e)
    ensures r == Print(Norm(f, e)) && Written(Norm(f, e))
  {
    r := sql;
    ghost var cur, left := e, Replacements(f, e);
    while true
      invariant Written(cur) && r == Print(cur) && EnoughArgs(f, cur)
      invariant Norm(f, cur) == Norm(f, e) && left == Replacements(f, cur)
      decreases left
    {
      TextTurn(f, cur);
      var next := TurnOnce(r, f);
      if next.None? {
        NormDone(f, cur);
        return;
      }
      ghost var step := Step(f, cur);
      StepFacts(f, cur, step);
      r := next.value;
      cur, left := step, Replacements(f, step);
    }
  }

  /** The six function rules in the order of the rule list. */
  method RewriteFunctions(sql: string, ghost e: Expr) returns (r: string)
    requires Written(e) && sql == Print(e) && forall f :: EnoughArgs(f, e)
    ensures r == Print(Chain(e))
  {
    ChainCleans(e);
    ghost var e1 := Norm(IFF, e);
    ghost var e2 := Norm(NVL2, e1);
    ghost var e3 := Norm(NVL, e2);
    ghost var e4 := Norm(DIV0NULL, e3);
    ghost var e5 := Norm(DIV0, e4);
    r := ReplaceFuncCall(sql, IFF, e);
    r := ReplaceFuncCall(r, NVL2, e1);
    r := ReplaceFuncCall(r, NVL, e2);
    r := ReplaceFuncCall(r, DIV0NULL, e3);
    r := ReplaceFuncCall(r, DIV0, e4);
    r := ReplaceFuncCall(r, SQUARE, e5);
  }

  /** What at most n turns make of a text. */
  function Turned(turn: string -> Option<string>, sql: string, n: nat): string
    decreases n
  {
    if n == 0 then sql else match turn(sql) case None => sql case Some(next) => Turned(turn, next, n - 1)
  }

  function TurnOf(f: Rule): string -> Option<string> {
    s => Turn(s, f)
  }

  /** turn replaces the first call of every written tree. */
  ghost predicate Steps(turn: string -> Option<string>, f: Rule) {
    forall e :: Written(e) ==> turn(Print(e)) == if HasCall(f, e) then Some(Print(Step(f, e))) else None
  }

  lemma {:induction false} TurnedIsReplaced(turn: string -> Option<string>, f: Rule, e: Expr, n: nat)
    requires Steps(turn, f) && Written(e)
    ensures Written(Replaced(f, e, n)) && Turned(turn, Print(e), n) == Print(Replaced(f, e, n))
    decreases n
  {
    if n > 0 && HasCall(f, e) {
      StepInner(f, e);
      TurnedIsReplaced(turn, f, Step(f, e), n - 1);
    }
  }

  /** The loop has ended after n turns. */
  predicate Ended(turn: string -> Option<string>, sql: string, n: nat) {
    turn(Turned(turn, sql, n)).None?
  }

  lemma EndsIffEnough(turn: string -> Option<string>, f: Rule, e: Expr)
    requires Steps(turn, f) && Written(e)
    ensures EnoughArgs(f, e) <==> exists n: nat :: Ended(turn, Print(e), n)
  {
    LoopEnds(f, e);
    if EnoughArgs(f, e) {
      var n: nat :| !HasCall(f, Replaced(f, e, n));
      TurnedIsReplaced(turn, f, e, n);
      assert Ended(turn, Print(e), n);
    }
    if n: nat :| Ended(turn, Print(e), n) {
      TurnedIsReplaced(turn, f, e, n);
      assert !HasCall(f, Replaced(f, e, n));
    }
  }

  /** On a statement's text the loop ends exactly if every call it comes to has
      enough arguments. */
  lemma TextLoopEnds(f: Rule, e: Expr)
    requires Written(e)
    ensures EnoughArgs(f, e) <==> exists n: nat :: Ended(TurnOf(f), Print(e), n)
  {
    var turn := TurnOf(f);
    forall d | Written(d) ensures turn(Print(d)) == if HasCall(f, d) then Some(Print(Step(f, d))) else None {
      TextTurn(f, d);
    }
    EndsIffEnough(turn, f, e);
  }

  // ---- What the text does not show ----

  /** Operands are written without parentheses: two different quotients have the
      same text, so a divided operand should be a primary. */
  lemma OperandsRunTogether(a: string, b: string, c: string)
    ensures var sum := (x: Expr, y: Expr) => Node(Around(["", " + ", ""]), List2(x, y));
      var leaf := (t: string) => Node(Around([t]), End);
      Print(Node(Over, List2(sum(leaf(a), leaf(b)), leaf(c)))) ==
      Print(sum(leaf(a), Node(Over, List2(leaf(b), leaf(c)))))
  {
    var plus := Around(["", " + ", ""]);
    var (x, y, z) := (Node(Around([a]), End), Node(Around([b]), End), Node(Around([c]), End));
    LeafText(a);
    LeafText(b);
    LeafText(c);
    FormText(plus, x, y, y);
    FormText(Over, y, z, z);
    FormText(Over, Node(plus, List2(x, y)), z, z);
    FormText(plus, x, Node(Over, List2(y, z)), z);
    SameChain(a, b, c);
  }

  lemma LeafText(t: string)
    ensures Print(Node(Around([t]), End)) == t + ""
  {
    assert Rest(Around([t]), 0, 0, End) == "" && [t][0] == t;
  }

  lemma SameChain(a: string, b: string, c: string)
    ensures a + "" == a && b + "" == b && c + "" == c
    ensures "" + (("" + (a + " + " + (b + ""))) + " / " + (c + "")) ==
            "" + (a + " + " + (("" + (b + " / " + (c + ""))) + ""))
  {
    var s := a + " + " + b;
    assert "" + (a + " + " + (b + "")) == s;
    assert "" + (s + " / " + (c + "")) == s + " / " + c;
    assert ("" + (b + " / " + (c + ""))) + "" == b + " / " + c;
    assert a + " + " + (b + " / " + c) == s + " / " + c;
  }
}

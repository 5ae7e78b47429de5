/** How an engine groups the operators of a SQL expression: a reader of tokens by
    operator precedence, and exactly which trees it gives back. */
module SqlReader {
  import opened Text

  datatype Token =
    | Name(text: string)
    | Op(text: string)
    | Open
    | Close
    | Comma
    | Case
    | When
    | Then
    | Else
    | End
    | Is

  /** What each word is, and any table of binary operators: the higher the level the
      tighter an operator binds. One that chains may stand as its own left operand,
      as in a - b - c. IS is a postfix operator. */
  datatype Dialect = Dialect(token: string -> Token, level: string -> nat, chains: string -> bool)

  datatype Term =
    | Word(text: string)
    | Infix(op: string, left: Term, right: Term)
    | IsNotNull(operand: Term)
    | Apply(name: string, args: Terms)
    | Choice(cond: Term, yes: Term, no: Term)
    | Group(inner: Term)

  datatype Terms = NoTerms | Cons(first: Term, rest: Terms)

  const IS := "IS"

  /** What the term is an operand of needs at most this level; only an operator can
      bind too loosely. */
  predicate Binds(d: Dialect, t: Term, k: nat) {
    match t
    case Infix(op, _, _) => d.level(op) >= k
    case IsNotNull(_) => d.level(IS) >= k
    case _ => true
  }

  /** The level an operator needs on its left; on its right it needs a higher one
      than its own. */
  function NeedLeft(d: Dialect, op: string): nat {
    if d.chains(op) then d.level(op) else d.level(op) + 1
  }

  function NeedRight(d: Dialect, op: string): nat {
    d.level(op) + 1
  }

  /** Every operand binds as tightly as its place needs. */
  predicate Grouped(d: Dialect, t: Term) {
    match t
    case Word(_) => true
    case Infix(op, l, r) =>
      Grouped(d, l) && Grouped(d, r) && Binds(d, l, NeedLeft(d, op)) && Binds(d, r, NeedRight(d, op))
    case IsNotNull(x) => Grouped(d, x) && Binds(d, x, NeedLeft(d, IS))
    case Apply(_, args) => AllGrouped(d, args)
    case Choice(c, y, n) => Grouped(d, c) && Grouped(d, y) && Grouped(d, n)
    case Group(x) => Grouped(d, x)
  }

  predicate AllGrouped(d: Dialect, ts: Terms) {
    ts.Cons? ==> Grouped(d, ts.first) && AllGrouped(d, ts.rest)
  }

  // ---- Writing ----

  /** The term's tokens, and then these. */
  function Tokens(t: Term, after: seq<Token>): seq<Token>
    decreases t
  {
    match t
    case Word(w) => [Name(w)] + after
    case Infix(op, l, r) => Tokens(l, [Op(op)] + Tokens(r, after))
    case IsNotNull(x) => Tokens(x, NotNull(after))
    case Apply(name, args) => [Name(name)] + ([Open] + ArgTokens(args, after))
    case Choice(c, y, n) => [Case] + ([When] + Tokens(c, [Then] + Tokens(y, [Else] + Tokens(n, [End] + after))))
    case Group(x) => [Open] + Tokens(x, [Close] + after)
  }

  function NotNull(after: seq<Token>): seq<Token> {
    [Is] + ([Name("NOT")] + ([Name("NULL")] + after))
  }

  function ArgTokens(args: Terms, after: seq<Token>): seq<Token>
    decreases args
  {
    match args
    case NoTerms => [Close] + after
    case Cons(x, NoTerms) => Tokens(x, [Close] + after)
    case Cons(x, more) => Tokens(x, [Comma] + ArgTokens(more, after))
  }

  // ---- Reading ----

  /** What stands behind IS NOT NULL. */
  function AfterNotNull(ts: seq<Token>): (r: Option<seq<Token>>)
    ensures r.Some? ==> |r.value| < |ts|
  {
    if |ts| >= 3 && ts[0] == Is && ts[1] == Name("NOT") && ts[2] == Name("NULL") then Some(ts[3..]) else None
  }

  predicate Starts(ts: seq<Token>, t: Token) {
    ts != [] && ts[0] == t
  }

  /** A term that needs no operator. */
  function Primary(d: Dialect, ts: seq<Token>): (r: Option<(Term, seq<Token>)>)
    ensures r.Some? ==> |r.value.1| < |ts|
    decreases |ts|, 0
  {
    if ts == [] then None
    else
      var more := ts[1..];
      match ts[0]
      case Name(w) => if Starts(more, Open) then Called(d, w, more[1..]) else Some((Word(w), more))
      case Open => Grouping(d, more)
      case Case => Choosing(d, more)
      case _ => None
  }

  function Called(d: Dialect, name: string, ts: seq<Token>): (r: Option<(Term, seq<Token>)>)
    ensures r.Some? ==> |r.value.1| < |ts|
    decreases |ts|, 4
  {
    if Starts(ts, Close) then Some((Apply(name, NoTerms), ts[1..]))
    else
      match Arguments(d, ts)
      case None => None
      case Some((args, rest)) => Some((Apply(name, args), rest))
  }

  function Arguments(d: Dialect, ts: seq<Token>): (r: Option<(Terms, seq<Token>)>)
    ensures r.Some? ==> |r.value.1| < |ts|
    decreases |ts|, 3
  {
    match From(d, ts, 0)
    case None => None
    case Some((x, rest)) =>
      if Starts(rest, Close) then Some((Cons(x, NoTerms), rest[1..]))
      else if Starts(rest, Comma) then
        match Arguments(d, rest[1..])
        case None => None
        case Some((more, end)) => Some((Cons(x, more), end))
      else None
  }

  function Grouping(d: Dialect, ts: seq<Token>): (r: Option<(Term, seq<Token>)>)
    ensures r.Some? ==> |r.value.1| < |ts|
    decreases |ts|, 3
  {
    match From(d, ts, 0)
    case None => None
    case Some((x, rest)) => if Starts(rest, Close) then Some((Group(x), rest[1..])) else None
  }

  /** A keyword and an expression. */
  function Clause(d: Dialect, keyword: Token, ts: seq<Token>): (r: Option<(Term, seq<Token>)>)
    ensures r.Some? ==> |r.value.1| < |ts|
    decreases |ts|, 3
  {
    if Starts(ts, keyword) then From(d, ts[1..], 0) else None
  }

  function Choosing(d: Dialect, ts: seq<Token>): (r: Option<(Term, seq<Token>)>)
    ensures r.Some? ==> |r.value.1| < |ts|
    decreases |ts|, 4
  {
    match Clause(d, When, ts)
    case None => None
    case Some((c, rest)) =>
      match Clause(d, Then, rest)
      case None => None
      case Some((y, rest')) =>
        match Clause(d, Else, rest')
        case None => None
        case Some((n, end)) => if Starts(end, End) then Some((Choice(c, y, n), end[1..])) else None
  }

  /** An expression whose operators all have at least level k. */
  function From(d: Dialect, ts: seq<Token>, k: nat): (r: Option<(Term, seq<Token>)>)
    ensures r.Some? ==> |r.value.1| < |ts|
    decreases |ts|, 2
  {
    match Primary(d, ts)
    case None => None
    case Some((t, rest)) => Climb(d, t, rest, k)
  }

  /** Operators of at least level k, from the left. */
  function Climb(d: Dialect, left: Term, ts: seq<Token>, k: nat): (r: Option<(Term, seq<Token>)>)
    ensures r.Some? ==> |r.value.1| <= |ts|
    decreases |ts|, 1
  {
    if ts == [] then Some((left, ts))
    else
      match ts[0]
      case Op(op) =>
        if d.level(op) < k || !Binds(d, left, NeedLeft(d, op)) then Some((left, ts))
        else (
          match From(d, ts[1..], NeedRight(d, op))
          case None => None
          case Some((right, rest)) => Climb(d, Infix(op, left, right), rest, k)
        )
      case Is =>
        if d.level(IS) < k || !Binds(d, left, NeedLeft(d, IS)) then Some((left, ts))
        else (
          match AfterNotNull(ts)
          case None => None
          case Some(rest) => Climb(d, IsNotNull(left), rest, k)
        )
      case _ => Some((left, ts))
  }

  /** The tree of a whole text. */
  function ReadTokens(d: Dialect, ts: seq<Token>): Option<Term> {
    match From(d, ts, 0) case None => None case Some((t, rest)) => if rest == [] then Some(t) else None
  }

  // ---- A grouped term is read back ----

  /** The next operator does not reach into the term. */
  predicate Ends(d: Dialect, t: Term, after: seq<Token>) {
    after != [] ==>
      match after[0]
      case Open => false
      case Op(op) => Binds(d, t, d.level(op))
      case Is => Binds(d, t, d.level(IS))
      case _ => true
  }

  lemma {:induction false} FromReads(d: Dialect, t: Term, after: seq<Token>, k: nat)
    requires Grouped(d, t) && Binds(d, t, k) && Ends(d, t, after)
    ensures From(d, Tokens(t, after), k) == Climb(d, t, after, k)
    decreases t, 1
  {
    match t
    case Infix(op, l, r) =>
      var right := Tokens(r, after);
      FromReads(d, l, [Op(op)] + right, k);
      FromReads(d, r, after, NeedRight(d, op));
      ClimbInfix(d, op, l, r, right, after, k);
    case IsNotNull(x) =>
      FromReads(d, x, NotNull(after), k);
      BehindNotNull(after);
    case _ => PrimaryReads(d, t, after);
  }

  lemma BehindNotNull(after: seq<Token>)
    ensures AfterNotNull(NotNull(after)) == Some(after)
  {
    var ts := NotNull(after);
    assert ts[1] == Name("NOT") && ts[2] == Name("NULL") && ts[3..] == after;
  }

  lemma ClimbInfix(d: Dialect, op: string, l: Term, r: Term, right: seq<Token>, after: seq<Token>, k: nat)
    requires d.level(op) >= k && Binds(d, l, NeedLeft(d, op)) && Ends(d, Infix(op, l, r), after)
    requires From(d, right, NeedRight(d, op)) == Climb(d, r, after, NeedRight(d, op))
    ensures Climb(d, l, [Op(op)] + right, k) == Climb(d, Infix(op, l, r), after, k)
  {
    var ts := [Op(op)] + right;
    assert ts[1..] == right;
    assert Climb(d, r, after, NeedRight(d, op)) == Some((r, after));
  }

  lemma {:induction false} PrimaryReads(d: Dialect, t: Term, after: seq<Token>)
    requires Grouped(d, t) && Ends(d, t, after) && !t.Infix? && !t.IsNotNull?
    ensures Primary(d, Tokens(t, after)) == Some((t, after))
    decreases t, 0
  {
    var ts := Tokens(t, after);
    match t
    case Word(w) => assert ts[1..] == after;
    case Apply(name, args) =>
      var list := ArgTokens(args, after);
      assert ts[1..] == [Open] + list && ts[1..][1..] == list;
      CalledReads(d, name, args, after);
    case Choice(c, y, n) =>
      assert ts[1..] == [When] + Tokens(c, [Then] + Tokens(y, [Else] + Tokens(n, [End] + after)));
      ClauseReads(d, When, c, [Then] + Tokens(y, [Else] + Tokens(n, [End] + after)));
      ClauseReads(d, Then, y, [Else] + Tokens(n, [End] + after));
      ClauseReads(d, Else, n, [End] + after);
      assert ([End] + after)[1..] == after;
    case Group(x) =>
      assert ts[1..] == Tokens(x, [Close] + after);
      FromReads(d, x, [Close] + after, 0);
      assert ([Close] + after)[1..] == after;
  }

  lemma {:induction false} ClauseReads(d: Dialect, keyword: Token, x: Term, after: seq<Token>)
    requires Grouped(d, x) && after != [] && (after[0].Then? || after[0].Else? || after[0].End?)
    ensures Clause(d, keyword, [keyword] + Tokens(x, after)) == Some((x, after))
    decreases x, 2
  {
    assert ([keyword] + Tokens(x, after))[1..] == Tokens(x, after);
    FromReads(d, x, after, 0);
  }

  lemma {:induction false} FirstToken(t: Term, after: seq<Token>)
    ensures var ts := Tokens(t, after); ts != [] && (ts[0].Name? || ts[0] == Open || ts[0] == Case)
    decreases t
  {
    match t
    case Infix(op, l, r) => FirstToken(l, [Op(op)] + Tokens(r, after));
    case IsNotNull(x) => FirstToken(x, NotNull(after));
    case _ =>
  }

  lemma {:induction false} CalledReads(d: Dialect, name: string, args: Terms, after: seq<Token>)
    requires AllGrouped(d, args)
    ensures Called(d, name, ArgTokens(args, after)) == Some((Apply(name, args), after))
    decreases args, 2
  {
    if args.NoTerms? {
      assert ([Close] + after)[1..] == after;
    } else {
      ArgumentsRead(d, args, after);
      FirstToken(args.first, if args.rest.NoTerms? then [Close] + after else [Comma] + ArgTokens(args.rest, after));
    }
  }

  lemma {:induction false} ArgumentsRead(d: Dialect, args: Terms, after: seq<Token>)
    requires AllGrouped(d, args) && args.Cons?
    ensures Arguments(d, ArgTokens(args, after)) == Some((args, after))
    decreases args, 1
  {
    if args.rest.NoTerms? {
      FromReads(d, args.first, [Close] + after, 0);
      assert ([Close] + after)[1..] == after;
    } else {
      var more := ArgTokens(args.rest, after);
      FromReads(d, args.first, [Comma] + more, 0);
      assert ([Comma] + more)[1..] == more;
      ArgumentsRead(d, args.rest, after);
    }
  }

  // ---- What is read is grouped, and is all that was written ----

  lemma {:induction false} PrimaryExact(d: Dialect, ts: seq<Token>)
    ensures match Primary(d, ts)
      case None => true
      case Some((t, rest)) => Grouped(d, t) && ts == Tokens(t, rest) && !t.Infix? && !t.IsNotNull?
    decreases |ts|, 0
  {
    if Primary(d, ts).Some? {
      var more := ts[1..];
      assert ts == [ts[0]] + more;
      match ts[0]
      case Name(w) =>
        if Starts(more, Open) {
          assert more == [Open] + more[1..];
          CalledExact(d, w, more[1..]);
        }
      case Open => GroupingExact(d, more);
      case Case => ChoosingExact(d, more);
    }
  }

  lemma {:induction false} CalledExact(d: Dialect, name: string, ts: seq<Token>)
    ensures match Called(d, name, ts)
      case None => true
      case Some((t, rest)) => t.Apply? && t.name == name && AllGrouped(d, t.args) && ts == ArgTokens(t.args, rest)
    decreases |ts|, 4
  {
    if Starts(ts, Close) { assert ts == [Close] + ts[1..]; } else { ArgumentsExact(d, ts); }
  }

  lemma {:induction false} ArgumentsExact(d: Dialect, ts: seq<Token>)
    ensures match Arguments(d, ts)
      case None => true
      case Some((args, rest)) => args.Cons? && AllGrouped(d, args) && ts == ArgTokens(args, rest)
    decreases |ts|, 3
  {
    FromExact(d, ts, 0);
    if Arguments(d, ts).Some? {
      var rest := From(d, ts, 0).value.1;
      assert rest == [rest[0]] + rest[1..];
      if !Starts(rest, Close) { ArgumentsExact(d, rest[1..]); }
    }
  }

  lemma {:induction false} GroupingExact(d: Dialect, ts: seq<Token>)
    ensures match Grouping(d, ts)
      case None => true
      case Some((t, rest)) => t.Group? && Grouped(d, t.inner) && ts == Tokens(t.inner, [Close] + rest)
    decreases |ts|, 3
  {
    FromExact(d, ts, 0);
    if Grouping(d, ts).Some? {
      var rest := From(d, ts, 0).value.1;
      assert rest == [Close] + rest[1..];
    }
  }

  lemma {:induction false} ClauseExact(d: Dialect, keyword: Token, ts: seq<Token>)
    ensures match Clause(d, keyword, ts)
      case None => true
      case Some((t, rest)) => Grouped(d, t) && ts == [keyword] + Tokens(t, rest)
    decreases |ts|, 3
  {
    if Starts(ts, keyword) {
      FromExact(d, ts[1..], 0);
      assert ts == [keyword] + ts[1..];
    }
  }

  lemma {:induction false} ChoosingExact(d: Dialect, ts: seq<Token>)
    ensures match Choosing(d, ts)
      case None => true
      case Some((t, rest)) => t.Choice? && Grouped(d, t) && [Case] + ts == Tokens(t, rest)
    decreases |ts|, 4
  {
    if Choosing(d, ts).Some? {
      ClauseExact(d, When, ts);
      var r1 := Clause(d, When, ts).value.1;
      ClauseExact(d, Then, r1);
      var r2 := Clause(d, Then, r1).value.1;
      ClauseExact(d, Else, r2);
      var r3 := Clause(d, Else, r2).value.1;
      assert r3 == [End] + r3[1..];
    }
  }

  lemma {:induction false} FromExact(d: Dialect, ts: seq<Token>, k: nat)
    ensures match From(d, ts, k)
      case None => true
      case Some((t, rest)) => Grouped(d, t) && Binds(d, t, k) && ts == Tokens(t, rest)
    decreases |ts|, 2
  {
    PrimaryExact(d, ts);
    if Primary(d, ts).Some? {
      var (t, rest) := Primary(d, ts).value;
      ClimbExact(d, t, rest, k);
    }
  }

  lemma {:induction false} ClimbExact(d: Dialect, left: Term, ts: seq<Token>, k: nat)
    requires Grouped(d, left) && Binds(d, left, k)
    ensures match Climb(d, left, ts, k)
      case None => true
      case Some((t, rest)) => Grouped(d, t) && Binds(d, t, k) && Tokens(left, ts) == Tokens(t, rest)
    decreases |ts|, 1
  {
    if ts != [] && Climb(d, left, ts, k) != Some((left, ts)) && Climb(d, left, ts, k).Some? {
      assert ts == [ts[0]] + ts[1..];
      match ts[0]
      case Op(op) =>
        FromExact(d, ts[1..], NeedRight(d, op));
        var (right, rest) := From(d, ts[1..], NeedRight(d, op)).value;
        ClimbExact(d, Infix(op, left, right), rest, k);
      case Is =>
        var rest := AfterNotNull(ts).value;
        assert ts == NotNull(rest);
        ClimbExact(d, IsNotNull(left), rest, k);
    }
  }

  /** The reader is exact: it reads a text as a tree exactly if the tree writes the
      text and is grouped. So a grouped tree is the only one its text has, and a
      tree that is not grouped is never what its text means. */
  lemma ReaderExact(d: Dialect, ts: seq<Token>, t: Term)
    ensures ReadTokens(d, ts) == Some(t) <==> ts == Tokens(t, []) && Grouped(d, t)
  {
    FromExact(d, ts, 0);
    if ts == Tokens(t, []) && Grouped(d, t) { FromReads(d, t, [], 0); }
  }
}

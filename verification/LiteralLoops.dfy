/** For which texts the rewriting loops of internal/rewriter/rewriter.go leave string
    literals alone, told from the text before the first turn. */
module LiteralLoops {
  import opened Text
  import opened FuncArgs
  import opened CallSearch
  import opened SqlExpr
  import opened SqlText
  import opened FuncLoop
  import opened QuotedText
  import opened SqlLexer
  import opened SqlFragment

  // ---- A match inside a literal ----

  lemma {:induction false} OpeningQuote(s: string, i: nat) returns (p: nat)
    requires i <= |s| && QuoteOf(s[..i], false)
    ensures p < i && s[p] == '\'' && !QuoteOf(s[..p], false) && forall k :: p < k < i ==> s[k] != '\''
  {
    var last := i - 1;
    assert s[..i] == s[..last] + [s[last]];
    QuoteAppend(s[..last], [s[last]], false);
    assert [s[last]][1..] == "";
    if s[last] == '\'' { p := last; } else { p := OpeningQuote(s, last); }
  }

  /** The first quote from i on, or the end. */
  function ClosingQuote(s: string, i: nat): (b: nat)
    requires i <= |s|
    ensures i <= b <= |s| && (b < |s| ==> s[b] == '\'') && forall k :: i <= k < b ==> s[k] != '\''
    decreases |s| - i
  {
    if i == |s| || s[i] == '\'' then i else ClosingQuote(s, i + 1)
  }

  lemma {:induction false} SectionOpen(x: string, rest: string)
    requires Unquoted(x) && (rest != "" ==> rest[0] == '\'')
    ensures Sections(x + rest, true)[0] == x
    decreases |x|
  {
    if x == "" {
      assert x + rest == rest;
    } else {
      assert (x + rest)[1..] == x[1..] + rest;
      SectionOpen(x[1..], rest);
    }
  }

  /** The literal around a position inside one. */
  lemma SectionAround(s: string, i: nat) returns (p: nat, b: nat)
    requires i <= |s| && Inside(s, i)
    ensures p < i <= b <= |s| && s[p + 1..b] in Sections(s, false) && (b < |s| ==> s[b] == '\'')
  {
    p := OpeningQuote(s, i);
    b := ClosingQuote(s, i);
    var (a, x, rest) := (s[..p], s[p + 1..b], s[b..]);
    var open := ['\''] + (x + rest);
    assert s == a + open && open[1..] == x + rest;
    SectionsAppend(a, open, false);
    SectionOpen(x, rest);
    assert Sections(x + rest, true)[0] in Sections(s, false);
  }

  lemma {:induction false} OpensWithin(s: string, a: nat, b: nat, x: string, j: nat, i: nat)
    requires a <= i <= b <= |s| && x == s[a..b] && i == a + j && OpensAt(s, i)
    requires b < |s| ==> s[b] == '\''
    ensures OpensAt(x, j)
    decreases |s| - i
  {
    if i < b {
      assert x[j] == s[i];
      var next, further := i + 1, j + 1;
      if s[i] != '(' { OpensWithin(s, a, b, x, further, next); }
    }
  }

  lemma NameInside(s: string, i: nat, b: nat, name: string)
    requires IsName(name) && NameAt(s, i, name) && i <= b <= |s| && (b < |s| ==> s[b] == '\'')
    ensures i + |name| <= b
  {
    NameIsWord(s, i, name);
    if b < |s| { assert !IsWordChar(s[b]); }
  }

  /** A match inside a literal is a match in what stands in the literal. */
  lemma MatchInSection(s: string, i: nat, name: string) returns (x: string, j: nat)
    requires IsName(name) && At(s, i, name) && i <= |s| && Inside(s, i)
    ensures x in Sections(s, false) && At(x, j, name)
  {
    var p, b := SectionAround(s, i);
    var a := p + 1;
    x, j := s[a..b], i - a;
    NameInside(s, i, b, name);
    var after, behind := i + |name|, j + |name|;
    OpensWithin(s, a, b, x, behind, after);
    forall k | 0 <= k < |name| ensures ToUpperChar(x[j + k]) == name[k] {
      assert x[j + k] == s[i + k] && ToUpperChar(s[i + k]) == name[k];
    }
    if j > 0 { assert x[j - 1] == s[i - 1]; }
  }

  // ---- A literal with a match ----

  /** Where the m-th literal stands. */
  lemma {:induction false} SectionPlace(s: string, quoted: bool, m: nat) returns (a: nat, b: nat)
    requires m < |Sections(s, quoted)|
    ensures a <= b <= |s| && s[a..b] == Sections(s, quoted)[m]
    ensures if quoted && m == 0 then a == 0 else a > 0 && s[a - 1] == '\''
    decreases |s|
  {
    if s == "" || (s[0] == '\'' && quoted && m == 0) {
      a, b := 0, 0;
    } else {
      var (rest, quoted') := (s[1..], NextQuoted(s[0], quoted));
      var m' := if s[0] == '\'' && quoted then m - 1 else m;
      var a', b' := SectionPlace(rest, quoted', m');
      a, b := if a' == 0 && s[0] != '\'' then 0 else a' + 1, b' + 1;
      PlaceMoves(s, rest, a', b', a, b);
    }
  }

  lemma PlaceMoves(s: string, rest: string, a': nat, b': nat, a: nat, b: nat)
    requires s != "" && rest == s[1..] && a' <= b' <= |rest| && b == b' + 1
    requires a == a' + 1 || (a == 0 && a' == 0)
    ensures b <= |s| && s[a..b] == (if a == 0 then [s[0]] else []) + rest[a'..b']
    ensures a > 1 ==> s[a - 1] == rest[a' - 1]
  {
  }

  lemma {:induction false} OpensOutside(s: string, a: nat, b: nat, x: string, j: nat, i: nat)
    requires a <= b <= |s| && x == s[a..b] && i == a + j && OpensAt(x, j)
    ensures OpensAt(s, i)
    decreases |x| - j
  {
    assert x[j] == s[i];
    var next, further := i + 1, j + 1;
    if x[j] != '(' { OpensOutside(s, a, b, x, further, next); }
  }

  /** What matches in a literal matches in the text. */
  lemma SectionMatch(s: string, x: string, j: nat, name: string) returns (i: nat)
    requires IsName(name) && x in Sections(s, false) && At(x, j, name)
    ensures At(s, i, name)
  {
    var m :| 0 <= m < |Sections(s, false)| && Sections(s, false)[m] == x;
    var a, b := SectionPlace(s, false, m);
    i := a + j;
    var after, behind := i + |name|, j + |name|;
    OpensOutside(s, a, b, x, behind, after);
    forall k | 0 <= k < |name| ensures ToUpperChar(s[i + k]) == name[k] {
      assert x[j + k] == s[i + k] && ToUpperChar(x[j + k]) == name[k];
    }
    if j > 0 { assert x[j - 1] == s[i - 1]; }
  }

  // ---- Texts whose literals hold no call ----

  ghost predicate LiteralsHoldNone(sql: string, f: Rule) {
    forall x :: x in Sections(sql, false) ==> Quiet(x, NameOf(f))
  }

  lemma NoneFoundInside(sql: string, f: Rule)
    requires LiteralsHoldNone(sql, f)
    ensures !FoundInside(sql, f)
  {
    NameFacts(f);
    if FoundInside(sql, f) {
      var x, j := MatchInSection(sql, FindFrom(sql, NameOf(f), 0).value, NameOf(f));
    }
  }

  lemma NoneStays(sql: string, next: string, f: Rule)
    requires LiteralsHoldNone(sql, f) && Kept(sql, next)
    ensures LiteralsHoldNone(next, f)
  {
  }

  // ---- Turns that lose no literal ----

  /** A call without arguments that its replacement drops. */
  predicate NoSurplus(sql: string, f: Rule) {
    FirstCall(sql, f).Some? && !f.NVL? ==> |FirstCall(sql, f).value.args| <= Arity(f)
  }

  /** The literals that a text made of whole literals has. */
  predicate Has(s: string, x: string) {
    !QuoteOf(s, false) && x in Sections(s, false)
  }

  lemma HasAppend(a: string, b: string, x: string)
    requires !QuoteOf(a, false) && !QuoteOf(b, false)
    ensures !QuoteOf(a + b, false) && (Has(a + b, x) <==> Has(a, x) || Has(b, x))
  {
    QuoteAppend(a, b, false);
    SectionsAppend(a, b, false);
  }

  /** Text without quotes on both sides changes nothing. */
  lemma HasAround(t0: string, a: string, t1: string, x: string)
    requires Unquoted(t0) && Unquoted(t1) && !QuoteOf(a, false)
    ensures !QuoteOf(t0 + a + t1, false) && (Has(t0 + a + t1, x) <==> Has(a, x))
  {
    NoQuotes(t0);
    NoQuotes(t1);
    HasAppend(t0, a, x);
    HasAppend(t0 + a, t1, x);
  }

  lemma HasThree(t0: string, a: string, t1: string, b: string, t2: string, c: string, t3: string, x: string)
    requires Unquoted(t0) && Unquoted(t1) && Unquoted(t2) && Unquoted(t3)
    requires !QuoteOf(a, false) && !QuoteOf(b, false) && !QuoteOf(c, false)
    ensures Has(t0 + a + t1 + b + t2 + c + t3, x) <==> Has(a, x) || Has(b, x) || Has(c, x)
  {
    NoQuotes(t2);
    NoQuotes(t3);
    HasAround(t0, a, t1, x);
    HasAppend(t0 + a + t1, b, x);
    HasAppend(t0 + a + t1 + b, t2, x);
    HasAppend(t0 + a + t1 + b + t2, c, x);
    HasAppend(t0 + a + t1 + b + t2 + c, t3, x);
  }

  lemma {:induction false} HasListed(args: seq<string>, x: string)
    requires forall i :: 0 <= i < |args| ==> !QuoteOf(args[i], false)
    ensures !QuoteOf(Listed(args), false)
    ensures Has(Listed(args), x) <==> exists i :: 0 <= i < |args| && Has(args[i], x)
    decreases |args|
  {
    if |args| > 1 {
      var more := args[1..];
      HasListed(more, x);
      NoQuotes(", ");
      HasAppend(args[0], ", ", x);
      HasAppend(args[0] + ", ", Listed(more), x);
      assert forall i :: 0 < i < |args| ==> args[i] == more[i - 1];
      assert forall i :: 0 <= i < |more| ==> more[i] == args[i + 1];
    }
  }

  /** Every argument that a replacement does not drop is in it, with its literals. */
  lemma ReplacementHas(f: Rule, args: seq<string>, i: nat, x: string)
    requires forall j :: 0 <= j < |args| ==> !QuoteOf(args[j], false)
    requires f.NVL? || |args| <= Arity(f)
    requires i < |args| && Has(args[i], x)
    ensures Has(Replacement(f, args), x)
  {
    HasListed(args, x);
    if |args| < Arity(f) {
      HasReemitted(f, Listed(args), x);
    } else {
      match f
      case IFF => HasThree("CASE WHEN ", args[0], " THEN ", args[1], " ELSE ", args[2], " END", x);
      case NVL2 => HasThree("CASE WHEN ", args[0], " IS NOT NULL THEN ", args[1], " ELSE ", args[2], " END", x);
      case NVL => HasAround("COALESCE(", Listed(args), ")", x);
      case DIV0NULL =>
        HasThree("CASE WHEN COALESCE(", args[1], ", 0) = 0 THEN 0 ELSE ", args[0], " / ", args[1], " END", x);
      case DIV0 => HasThree("CASE WHEN ", args[1], " = 0 THEN 0 ELSE ", args[0], " / ", args[1], " END", x);
      case SQUARE => HasAround("POWER(", args[0], ", 2)", x);
    }
  }

  lemma HasReemitted(f: Rule, list: string, x: string)
    requires !QuoteOf(list, false)
    ensures Has(NameOf(f) + "(" + list + ")", x) <==> Has(list, x)
  {
    assert Unquoted(NameOf(f)) && Unquoted("(");
    assert Unquoted(NameOf(f) + "(");
    HasAround(NameOf(f) + "(", list, ")", x);
  }

  lemma {:induction false} HasJoined(ps: seq<string>, x: string)
    requires ps != [] && forall i :: 0 <= i < |ps| ==> !QuoteOf(ps[i], false)
    ensures !QuoteOf(Joined(ps), false)
    ensures Has(Joined(ps), x) <==> exists i :: 0 <= i < |ps| && Has(ps[i], x)
    decreases |ps|
  {
    if |ps| > 1 {
      var more := ps[1..];
      HasJoined(more, x);
      NoQuotes(",");
      HasAppend(ps[0], ",", x);
      HasAppend(ps[0] + ",", Joined(more), x);
      assert forall i :: 0 < i < |ps| ==> ps[i] == more[i - 1];
      assert forall i :: 0 <= i < |more| ==> more[i] == ps[i + 1];
    }
  }

  lemma {:induction false} HasTrimLeft(s: string, x: string)
    requires Has(s, x)
    ensures Has(TrimLeft(s), x)
    decreases |s|
  {
    if s != "" && IsSpace(s[0]) { HasTrimLeft(s[1..], x); }
  }

  lemma {:induction false} HasTrimRight(s: string, x: string)
    requires Has(s, x)
    ensures Has(TrimRight(s), x)
    decreases |s|
  {
    if s != "" && IsSpace(s[|s| - 1]) {
      var (init, last) := (s[..|s| - 1], s[|s| - 1..]);
      assert s == init + last && last[0] != '\'' && last[1..] == "";
      QuoteAppend(init, last, false);
      assert QuoteOf(last, QuoteOf(init, false)) == QuoteOf(init, false);
      NoQuotes(last);
      HasAppend(init, last, x);
      HasTrimRight(init, x);
    }
  }

  lemma HasTrim(s: string, x: string)
    requires Has(s, x)
    ensures Has(Trim(s), x)
  {
    HasTrimRight(s, x);
    HasTrimLeft(TrimRight(s), x);
  }

  /** The literals of a call's text are those of its arguments. */
  lemma ArgHas(sql: string, open: nat, args: seq<string>, close: nat, inner: string, x: string) returns (i: nat)
    requires open < close < |sql| && Extracted(sql, open) == Some((args, close)) && inner == sql[open + 1..close]
    requires x in Sections(inner, false)
    ensures i < |args| && Has(args[i], x)
  {
    var t := sql[open + 1..];
    var r := PiecesOf(t, 1, false);
    var ps := PiecesClosed(t, r);
    assert inner == t[..r.length];
    i := PieceHas(ps, x);
    ArgsOfHas(ps, i, x);
  }

  lemma PiecesClosed(t: string, r: Pieces) returns (ps: seq<string>)
    requires r == PiecesOf(t, 1, false) && r.Read?
    ensures ps == [r.first] + r.rest && t[..r.length] == Joined(ps)
    ensures forall j :: 0 <= j < |ps| ==> !QuoteOf(ps[j], false)
  {
    PiecesJoin(t, 1, false);
    ps := [r.first] + r.rest;
    forall j | 0 <= j < |ps| ensures !QuoteOf(ps[j], false) {
      if j > 0 { assert ps[j] == r.rest[j - 1]; }
    }
  }

  lemma PieceHas(ps: seq<string>, x: string) returns (i: nat)
    requires ps != [] && forall j :: 0 <= j < |ps| ==> !QuoteOf(ps[j], false)
    requires x in Sections(Joined(ps), false)
    ensures i < |ps| && Has(ps[i], x)
  {
    HasJoined(ps, x);
    i :| 0 <= i < |ps| && Has(ps[i], x);
  }

  /** Only an argument without literals can be dropped for being blank. */
  lemma ArgsOfHas(ps: seq<string>, i: nat, x: string)
    requires ps != [] && i < |ps| && Has(ps[i], x)
    ensures i < |ArgsOf(Trim, ps)| && Has(ArgsOf(Trim, ps)[i], x)
  {
    HasTrim(ps[i], x);
    assert TrimAll(Trim, ps)[i] == Trim(ps[i]) != "";
  }

  lemma SplicedHas(pre: string, mid: string, inner: string, piece: string, post: string, x: string)
    requires !QuoteOf(pre, false) && !QuoteOf(inner, false) && !QuoteOf(piece, false) && Unquoted(mid)
    requires x in Sections(inner, false) ==> x in Sections(piece, false)
    requires x in Sections(pre + (mid + inner + ")") + post, false)
    ensures x in Sections(pre + piece + post, false)
  {
    var call := mid + inner + ")";
    HasAround(mid, inner, ")", x);
    HasAppend(pre, call, x);
    SectionsAppend(pre + call, post, false);
    HasAppend(pre, piece, x);
    SectionsAppend(pre + piece, post, false);
  }

  /** A turn outside literals without surplus arguments loses no literal. */
  lemma SameLiterals(sql: string, f: Rule, c: Found, x: string)
    requires FirstCall(sql, f) == Some(c) && !Inside(sql, c.start) && NoSurplus(sql, f)
    ensures x in Sections(sql, false) ==> x in Sections(Turn(sql, f).value, false)
  {
    var open := CallOpens(sql, f, c);
    var (inner, piece) := (sql[open + 1..c.close], Replacement(f, c.args));
    ReplacedHas(sql, f, open, c.args, c.close, inner, piece, x);
    SpliceHas(sql, c.start, open, c.close, piece, inner, x);
  }

  lemma ReplacedHas(
      sql: string, f: Rule, open: nat, args: seq<string>, close: nat, inner: string, piece: string, x: string)
    requires open < close < |sql| && Extracted(sql, open) == Some((args, close)) && inner == sql[open + 1..close]
    requires f.NVL? || |args| <= Arity(f)
    requires piece == Replacement(f, args)
    ensures !QuoteOf(inner, false) && !QuoteOf(piece, false) && sql[close] == ')'
    ensures x in Sections(inner, false) ==> x in Sections(piece, false)
  {
    ArgsWhole(sql, open, args, close, inner);
    ReplacementWhole(f, args, Sections(inner, false));
    if x in Sections(inner, false) {
      var i := ArgHas(sql, open, args, close, inner, x);
      ReplacementHas(f, args, i, x);
    }
  }

  lemma SpliceHas(sql: string, start: nat, open: nat, close: nat, piece: string, inner: string, x: string)
    requires start < open < close < |sql| && inner == sql[open + 1..close] && sql[close] == ')'
    requires !Inside(sql, start) && !QuoteOf(inner, false) && !QuoteOf(piece, false)
    requires forall k :: start <= k <= open ==> sql[k] != '\''
    requires x in Sections(inner, false) ==> x in Sections(piece, false)
    ensures x in Sections(sql, false) ==> x in Sections(Spliced(sql, start, close, piece), false)
  {
    var pre, mid, post := SpliceParts(sql, start, open, close, piece, inner);
    if x in Sections(sql, false) { SplicedHas(pre, mid, inner, piece, post, x); }
  }

  lemma SpliceParts(sql: string, start: nat, open: nat, close: nat, piece: string, inner: string)
      returns (pre: string, mid: string, post: string)
    requires start < open < close < |sql| && inner == sql[open + 1..close] && sql[close] == ')'
    requires forall k :: start <= k <= open ==> sql[k] != '\''
    ensures pre == sql[..start] && Unquoted(mid) && sql == pre + (mid + inner + ")") + post
    ensures Spliced(sql, start, close, piece) == pre + piece + post
  {
    pre, mid, post := sql[..start], sql[start..open + 1], sql[close + 1..];
    var call := mid + inner + ")";
    assert call == sql[start..close + 1];
    assert pre + call == sql[..close + 1];
  }

  // ---- Loops ----

  /** A turn on such a text leaves such a text, and loses or changes nothing. */
  ghost predicate Spares(turn: string -> Option<string>, found: string -> bool, good: string -> bool) {
    forall sql {:trigger good(sql)} :: good(sql) ==>
      !found(sql) && (turn(sql).Some? ==> Kept(sql, turn(sql).value) && good(turn(sql).value))
  }

  lemma {:induction false} GoodStays(
      turn: string -> Option<string>, found: string -> bool, good: string -> bool, sql: string, n: nat)
    requires Spares(turn, found, good) && good(sql)
    ensures good(Turned(turn, sql, n)) && !found(Turned(turn, sql, n)) && Kept(sql, Turned(turn, sql, n))
    decreases n
  {
    if n > 0 && turn(sql).Some? {
      var less := n - 1;
      GoodStays(turn, found, good, turn(sql).value, less);
    }
  }

  lemma TurnSpares(f: Rule)
    ensures Spares(TurnOf(f), s => FoundInside(s, f), s => LiteralsHoldNone(s, f))
  {
    forall sql | LiteralsHoldNone(sql, f)
      ensures !FoundInside(sql, f)
      ensures Turn(sql, f).Some? ==> Kept(sql, Turn(sql, f).value) && LiteralsHoldNone(Turn(sql, f).value, f)
    {
      NoneFoundInside(sql, f);
      if Turn(sql, f).Some? {
        OutsideKept(sql, f, FirstCall(sql, f).value);
        NoneStays(sql, Turn(sql, f).value, f);
      }
    }
  }

  /** If no literal of a text holds a call of the function, the loop never finds one
      inside a literal, and all literals that are left are literals of the text. */
  lemma QuietLiteralsSpared(sql: string, f: Rule, n: nat)
    requires LiteralsHoldNone(sql, f)
    ensures !FoundInside(Turned(TurnOf(f), sql, n), f) && Kept(sql, Turned(TurnOf(f), sql, n))
    ensures LiteralsHoldNone(Turned(TurnOf(f), sql, n), f)
  {
    TurnSpares(f);
    GoodStays(TurnOf(f), s => FoundInside(s, f), s => LiteralsHoldNone(s, f), sql, n);
  }

  /** A turn that finds its call outside literals, with no surplus arguments. */
  predicate Careful(sql: string, f: Rule) {
    !FoundInside(sql, f) && NoSurplus(sql, f)
  }

  ghost predicate Loses(turn: string -> Option<string>, careful: string -> bool, x: string) {
    exists sql {:trigger turn(sql)} ::
      careful(sql) && turn(sql).Some? && x in Sections(sql, false) && x !in Sections(turn(sql).value, false)
  }

  lemma {:induction false} NothingLost(
      turn: string -> Option<string>, careful: string -> bool, sql: string, n: nat, x: string)
    requires !Loses(turn, careful, x) && x in Sections(sql, false)
    requires forall k: nat :: k < n ==> careful(Turned(turn, sql, k))
    ensures x in Sections(Turned(turn, sql, n), false)
    decreases n
  {
    if n > 0 && turn(sql).Some? {
      var (next, less) := (turn(sql).value, n - 1);
      assert careful(Turned(turn, sql, 0));
      forall k: nat | k < less ensures careful(Turned(turn, next, k)) {
        var later := k + 1;
        assert Turned(turn, sql, later) == Turned(turn, next, k);
      }
      NothingLost(turn, careful, next, less, x);
    }
  }

  lemma CarefulTurnsLoseNothing(f: Rule, x: string)
    ensures !Loses(TurnOf(f), s => Careful(s, f), x)
  {
    forall sql | Careful(sql, f) && Turn(sql, f).Some? && x in Sections(sql, false)
      ensures x in Sections(Turn(sql, f).value, false)
    {
      TornIffInside(sql, f);
      SameLiterals(sql, f, FirstCall(sql, f).value, x);
    }
  }

  /** After n turns the loop is over with no match left, and no turn had surplus
      arguments. */
  predicate Settles(sql: string, f: Rule, n: nat) {
    && FindFrom(Turned(TurnOf(f), sql, n), NameOf(f), 0).None?
    && forall k: nat :: k < n ==> NoSurplus(Turned(TurnOf(f), sql, k), f)
  }

  /** No turn finds its call inside a literal. */
  predicate NeverInside(sql: string, f: Rule, n: nat) {
    forall k: nat :: k < n ==> !FoundInside(Turned(TurnOf(f), sql, k), f)
  }

  lemma SettledLosesNothing(sql: string, f: Rule, n: nat, x: string)
    requires Settles(sql, f, n) && NeverInside(sql, f, n) && x in Sections(sql, false)
    ensures x in Sections(Turned(TurnOf(f), sql, n), false)
  {
    CarefulTurnsLoseNothing(f, x);
    forall k: nat | k < n ensures Careful(Turned(TurnOf(f), sql, k), f) { }
    NothingLost(TurnOf(f), s => Careful(s, f), sql, n, x);
  }

  /** A text without a match has none in its literals. */
  lemma NoMatchNoLiteral(sql: string, f: Rule)
    requires FindFrom(sql, NameOf(f), 0).None?
    ensures LiteralsHoldNone(sql, f)
  {
    NameFacts(f);
    forall x, j: nat | x in Sections(sql, false) && At(x, j, NameOf(f)) ensures false {
      var i := SectionMatch(sql, x, j, NameOf(f));
    }
  }

  /** So a loop that ends with no match left, and drops no arguments, never touches a
      literal exactly if no literal of its input holds a call of the function. */
  lemma LoopSparesLiterals(sql: string, f: Rule, n: nat)
    requires Settles(sql, f, n)
    ensures NeverInside(sql, f, n) <==> LiteralsHoldNone(sql, f)
  {
    if LiteralsHoldNone(sql, f) {
      forall k: nat | k < n ensures !FoundInside(Turned(TurnOf(f), sql, k), f) { QuietLiteralsSpared(sql, f, k); }
    }
    if NeverInside(sql, f, n) {
      NoMatchNoLiteral(Turned(TurnOf(f), sql, n), f);
      forall x | x in Sections(sql, false) ensures Quiet(x, NameOf(f)) { SettledLosesNothing(sql, f, n, x); }
    }
  }

  // ---- The chain of rules ----

  /** What the rules make of a text, each in at most so many turns. */
  function RulesTurned(sql: string, rules: seq<Rule>, turns: seq<nat>): string
    requires |turns| == |rules|
    decreases |rules|
  {
    if rules == [] then sql else RulesTurned(Turned(TurnOf(rules[0]), sql, turns[0]), rules[1..], turns[1..])
  }

  predicate RulesSettle(sql: string, rules: seq<Rule>, turns: seq<nat>)
    requires |turns| == |rules|
    decreases |rules|
  {
    rules == [] || (Settles(sql, rules[0], turns[0]) &&
                    RulesSettle(Turned(TurnOf(rules[0]), sql, turns[0]), rules[1..], turns[1..]))
  }

  predicate RulesNeverInside(sql: string, rules: seq<Rule>, turns: seq<nat>)
    requires |turns| == |rules|
    decreases |rules|
  {
    rules == [] || (NeverInside(sql, rules[0], turns[0]) &&
                    RulesNeverInside(Turned(TurnOf(rules[0]), sql, turns[0]), rules[1..], turns[1..]))
  }

  ghost predicate NoneHoldsAny(sql: string, rules: seq<Rule>) {
    forall i :: 0 <= i < |rules| ==> LiteralsHoldNone(sql, rules[i])
  }

  /** If no literal of a text holds a call of any of the rules, none of their loops
      touches a literal, however many turns they make. */
  lemma {:induction false} RulesSpare(sql: string, rules: seq<Rule>, turns: seq<nat>)
    requires |turns| == |rules| && NoneHoldsAny(sql, rules)
    ensures RulesNeverInside(sql, rules, turns) && Kept(sql, RulesTurned(sql, rules, turns))
    decreases |rules|
  {
    if rules != [] {
      var (f, n) := (rules[0], turns[0]);
      var next := Turned(TurnOf(f), sql, n);
      assert LiteralsHoldNone(sql, rules[0]);
      QuietLiteralsSpared(sql, f, n);
      forall k: nat | k < n ensures !FoundInside(Turned(TurnOf(f), sql, k), f) { QuietLiteralsSpared(sql, f, k); }
      forall i | 0 <= i < |rules[1..]| ensures LiteralsHoldNone(next, rules[1..][i]) {
        assert LiteralsHoldNone(sql, rules[i + 1]);
        NoneStays(sql, next, rules[1..][i]);
      }
      RulesSpare(next, rules[1..], turns[1..]);
    }
  }

  /** And if all loops end with no match left and drop no arguments, exactly then. */
  lemma {:induction false} RulesSpareIff(sql: string, rules: seq<Rule>, turns: seq<nat>)
    requires |turns| == |rules| && RulesSettle(sql, rules, turns)
    ensures RulesNeverInside(sql, rules, turns) <==> NoneHoldsAny(sql, rules)
    decreases |rules|
  {
    if NoneHoldsAny(sql, rules) { RulesSpare(sql, rules, turns); }
    if rules != [] && RulesNeverInside(sql, rules, turns) {
      var (f, n) := (rules[0], turns[0]);
      var next := Turned(TurnOf(f), sql, n);
      LoopSparesLiterals(sql, f, n);
      RulesSpareIff(next, rules[1..], turns[1..]);
      forall i | 0 <= i < |rules| ensures LiteralsHoldNone(sql, rules[i]) {
        if i > 0 { NoneBefore(sql, f, n, rules[1..], i - 1); }
      }
    }
  }

  /** What holds of the literals of the outcome held of those of the text. */
  lemma NoneBefore(sql: string, f: Rule, n: nat, rules: seq<Rule>, i: nat)
    requires Settles(sql, f, n) && NeverInside(sql, f, n) && i < |rules|
    requires NoneHoldsAny(Turned(TurnOf(f), sql, n), rules)
    ensures LiteralsHoldNone(sql, rules[i])
  {
    forall x | x in Sections(sql, false) ensures Quiet(x, NameOf(rules[i])) { SettledLosesNothing(sql, f, n, x); }
  }

  /** The rules in the order of the rule list. */
  const CHAIN: seq<Rule> := [IFF, NVL2, NVL, DIV0NULL, DIV0, SQUARE]

  /** The six function rules never touch a literal exactly if no literal of the
      statement holds a call of one of the six functions. */
  lemma ChainSparesLiterals(sql: string, turns: seq<nat>)
    requires |turns| == 6
    ensures (forall f :: LiteralsHoldNone(sql, f)) ==>
      RulesNeverInside(sql, CHAIN, turns) && Kept(sql, RulesTurned(sql, CHAIN, turns))
    ensures RulesSettle(sql, CHAIN, turns) && RulesNeverInside(sql, CHAIN, turns) ==>
      forall f :: LiteralsHoldNone(sql, f)
  {
    if forall f :: LiteralsHoldNone(sql, f) { RulesSpare(sql, CHAIN, turns); }
    if RulesSettle(sql, CHAIN, turns) && RulesNeverInside(sql, CHAIN, turns) {
      RulesSpareIff(sql, CHAIN, turns);
      forall f ensures LiteralsHoldNone(sql, f) {
        var i := Place(f);
        assert LiteralsHoldNone(sql, CHAIN[i]);
      }
    }
  }

  function Place(f: Rule): (i: nat)
    ensures i < |CHAIN| && CHAIN[i] == f
  {
    match f case IFF => 0 case NVL2 => 1 case NVL => 2 case DIV0NULL => 3 case DIV0 => 4 case SQUARE => 5
  }

  // ---- Surplus arguments ----

  /** A surplus argument is dropped with its literal before the call in it is found:
      so no turn finds a call inside a literal although a literal holds one. */
  lemma SurplusDropsLiteral(sql: string)
    requires sql == "SQUARE(1, 'SQUARE(2)')"
    ensures Turn(sql, SQUARE) == Some("POWER(1, 2)") && !FoundInside(sql, SQUARE) && !LiteralsHoldNone(sql, SQUARE)
    ensures Turn("POWER(1, 2)", SQUARE) == None
  {
    SurplusFacts(sql, "SQUARE", "1", "'SQUARE(2)'", "SQUARE(2)", "SQUARE(1, ", "')");
    PowerText("1");
    PowerIsNotSquare("POWER(1, 2)");
  }

  lemma PowerIsNotSquare(s: string)
    requires s == "POWER(1, 2)"
    ensures Turn(s, SQUARE) == None
  {
    assert forall k :: 0 <= k < |s| ==> s[k] in {'P', 'O', 'W', 'E', 'R', '(', '1', ',', ' ', '2', ')'};
    NotSquare(s);
  }

  lemma SurplusFacts(
      sql: string, word: string, one: string, literal: string, x: string, before: string, after: string)
    requires word == NameOf(SQUARE) && IsUnit(one) && IsLiteral(literal) && x == "SQUARE(2)"
    requires sql == word + "(" + (one + ", " + literal) + ")" && sql == before + (['\''] + (x + after))
    requires Unquoted(before) && Unquoted(x) && after != "" && after[0] == '\''
    ensures Turn(sql, SQUARE) == Some("POWER(" + one + ", 2)") && !FoundInside(sql, SQUARE)
    ensures !LiteralsHoldNone(sql, SQUARE)
  {
    SurplusTurn(word, one, literal, sql);
    HoldsLiteral(before, x, after, sql);
    SquareAtStart(x);
  }

  lemma PowerText(one: string)
    requires one == "1"
    ensures "POWER(" + one + ", 2)" == "POWER(1, 2)"
  {
  }

  lemma SurplusTurn(word: string, one: string, literal: string, sql: string)
    requires word == NameOf(SQUARE) && IsUnit(one) && IsLiteral(literal)
    requires sql == word + "(" + (one + ", " + literal) + ")"
    ensures Turn(sql, SQUARE) == Some("POWER(" + one + ", 2)") && !FoundInside(sql, SQUARE)
  {
    var args := [one, literal];
    TwoArgs(one, literal, args);
    NameFacts(SQUARE);
    StartsQuiet(word);
    UpperName(SQUARE);
    FirstTurn(SQUARE, word, args, Listed(args), sql);
    SquareOf(args);
  }

  lemma SquareOf(args: seq<string>)
    requires |args| == 2
    ensures Replacement(SQUARE, args) == "POWER(" + args[0] + ", 2)"
  {
  }

  lemma TwoArgs(one: string, literal: string, args: seq<string>)
    requires IsUnit(one) && IsLiteral(literal) && args == [one, literal]
    ensures forall i :: 0 <= i < |args| ==> IsTrimmed(args[i]) && Closed(args[i])
    ensures Listed(args) == one + ", " + literal
  {
    UnitWalk(one);
    UnitWalk(literal);
    assert args[1..] == [literal] && Listed(args[1..]) == literal;
  }

  /** A call at the start of the text is found there, outside literals. */
  lemma FirstTurn(f: Rule, word: string, args: seq<string>, inner: string, sql: string)
    requires Lead("", NameOf(f)) && ToUpper(word) == NameOf(f) && inner == Listed(args)
    requires forall i :: 0 <= i < |args| ==> IsTrimmed(args[i]) && Closed(args[i])
    requires sql == word + "(" + inner + ")"
    ensures Turn(sql, f) == Some(Replacement(f, args)) && !FoundInside(sql, f)
  {
    var piece := Replacement(f, args);
    assert sql == "" + sql + "" && "" + piece + "" == piece;
    TurnAt(f, "", word, args, inner, "", sql);
    NameFacts(f);
    CallSplits(word, inner, sql);
    FoundAfterLead("", word, "(" + inner + ")", NameOf(f), sql, 0);
    FoundAtStart(sql, f);
  }

  lemma CallSplits(word: string, inner: string, sql: string)
    requires sql == word + "(" + inner + ")"
    ensures sql == "" + (word + ("(" + inner + ")"))
  {
    assert sql == word + ("(" + inner + ")");
  }

  lemma FoundAtStart(sql: string, f: Rule)
    requires FindFrom(sql, NameOf(f), 0) == Some(0)
    ensures !FoundInside(sql, f)
  {
    assert sql[..0] == "";
  }

  lemma StartsQuiet(name: string)
    requires IsName(name)
    ensures Lead("", name)
  {
    NoWordQuiet("" + "(", name);
  }

  lemma HoldsLiteral(a: string, x: string, rest: string, sql: string)
    requires Unquoted(a) && Unquoted(x) && rest != "" && rest[0] == '\'' && sql == a + (['\''] + (x + rest))
    ensures x in Sections(sql, false)
  {
    var open := ['\''] + (x + rest);
    NoQuotes(a);
    assert open[1..] == x + rest;
    SectionsAppend(a, open, false);
    SectionOpen(x, rest);
    assert Sections(x + rest, true)[0] in Sections(sql, false);
  }

  lemma SquareAtStart(x: string)
    requires x == "SQUARE(2)"
    ensures At(x, 0, NameOf(SQUARE))
  {
    assert OpensAt(x, 6);
    forall k | 0 <= k < 6 ensures ToUpperChar(x[0 + k]) == NameOf(SQUARE)[k] { }
  }

  lemma NotSquare(s: string)
    requires forall k :: 0 <= k < |s| ==> ToUpperChar(s[k]) != 'S'
    ensures Turn(s, SQUARE) == None
  {
    var name := NameOf(SQUARE);
    forall i: nat ensures !At(s, i, name) {
      if NameAt(s, i, name) { NameHere(s, name, i); }
    }
  }
}

/** What the rewriting loop of internal/rewriter/rewriter.go does to string literals:
    it looks for calls in them as everywhere else. */
module QuotedText {
  import opened Text
  import opened FuncArgs
  import opened CallSearch
  import opened SqlExpr
  import opened SqlText
  import opened FuncLoop

  /** Whether a literal is open behind the text. */
  function QuoteOf(s: string, quoted: bool): bool {
    if s == "" then quoted else QuoteOf(s[1..], NextQuoted(s[0], quoted))
  }

  /** Position i is inside a literal. */
  predicate Inside(s: string, i: nat)
    requires i <= |s|
  {
    QuoteOf(s[..i], false)
  }

  /** What stands in the literals, in order; when quoted, the first is already open. */
  function Sections(s: string, quoted: bool): (r: seq<string>)
    ensures quoted ==> r != []
  {
    if s == "" then if quoted then [""] else []
    else if s[0] == '\'' then (if quoted then [""] else []) + Sections(s[1..], !quoted)
    else
      var r := Sections(s[1..], quoted);
      if quoted then [[s[0]] + r[0]] + r[1..] else r
  }

  lemma {:induction false} QuoteAppend(a: string, b: string, quoted: bool)
    ensures QuoteOf(a + b, quoted) == QuoteOf(b, QuoteOf(a, quoted))
  {
    if a == "" {
      assert a + b == b;
    } else {
      assert (a + b)[1..] == a[1..] + b;
      QuoteAppend(a[1..], b, NextQuoted(a[0], quoted));
    }
  }

  /** Texts that are joined outside literals keep their literals. */
  lemma {:induction false} SectionsAppend(a: string, b: string, quoted: bool)
    requires !QuoteOf(a, quoted)
    ensures Sections(a + b, quoted) == Sections(a, quoted) + Sections(b, false)
  {
    if a == "" {
      assert a + b == b;
    } else {
      assert (a + b)[1..] == a[1..] + b;
      SectionsAppend(a[1..], b, NextQuoted(a[0], quoted));
    }
  }

  lemma {:induction false} NoQuotes(s: string)
    requires forall k :: 0 <= k < |s| ==> s[k] != '\''
    ensures !QuoteOf(s, false) && Sections(s, false) == []
  {
    if s != "" { NoQuotes(s[1..]); }
  }

  // ---- Texts made of whole literals ----

  /** Closed, and with no literals but these. */
  predicate Whole(s: string, all: seq<string>) {
    !QuoteOf(s, false) && forall x :: x in Sections(s, false) ==> x in all
  }

  lemma WholeAppend(a: string, b: string, all: seq<string>)
    requires Whole(a, all) && Whole(b, all)
    ensures Whole(a + b, all)
  {
    QuoteAppend(a, b, false);
    SectionsAppend(a, b, false);
  }

  lemma WholePlain(s: string, all: seq<string>)
    requires forall k :: 0 <= k < |s| ==> s[k] != '\''
    ensures Whole(s, all)
  {
    NoQuotes(s);
  }

  predicate AllWhole(ps: seq<string>, all: seq<string>) {
    forall i :: 0 <= i < |ps| ==> Whole(ps[i], all)
  }

  lemma {:induction false} TrimLeftWhole(s: string, all: seq<string>)
    requires Whole(s, all)
    ensures Whole(TrimLeft(s), all)
    decreases |s|
  {
    if s != "" && IsSpace(s[0]) { TrimLeftWhole(s[1..], all); }
  }

  lemma {:induction false} TrimRightWhole(s: string, all: seq<string>)
    requires Whole(s, all)
    ensures Whole(TrimRight(s), all)
    decreases |s|
  {
    if s != "" && IsSpace(s[|s| - 1]) {
      var (init, last) := (s[..|s| - 1], s[|s| - 1..]);
      assert s == init + last && last[0] != '\'' && last[1..] == "";
      QuoteAppend(init, last, false);
      assert QuoteOf(last, QuoteOf(init, false)) == QuoteOf(init, false);
      SectionsAppend(init, last, false);
      TrimRightWhole(init, all);
    }
  }

  lemma TrimWhole(s: string, all: seq<string>)
    requires Whole(s, all)
    ensures Whole(Trim(s), all)
  {
    TrimRightWhole(s, all);
    TrimLeftWhole(TrimRight(s), all);
  }

  // ---- The arguments of a call ----

  /** The pieces make up the text, and each ends outside literals. */
  lemma {:induction false} PiecesJoin(t: string, depth: nat, quoted: bool)
    requires depth >= 1 && PiecesOf(t, depth, quoted).Read?
    ensures var r := PiecesOf(t, depth, quoted);
      t[..r.length] == Joined([r.first] + r.rest) && !QuoteOf(r.first, quoted) &&
      forall i :: 0 <= i < |r.rest| ==> !QuoteOf(r.rest[i], false)
    decreases |t|
  {
    if Closes(t[0], depth, quoted) {
      assert [""] + [] == [""];
    } else if Separates(t[0], depth, quoted) {
      PiecesJoin(t[1..], depth, quoted);
      var r := PiecesOf(t[1..], depth, quoted);
      CommaFirst(t, r.first, r.rest, r.length);
    } else {
      var (depth', quoted') := (NextDepth(t[0], depth, quoted), NextQuoted(t[0], quoted));
      PiecesJoin(t[1..], depth', quoted');
      var r := PiecesOf(t[1..], depth', quoted');
      LetterFirst(t, r.first, r.rest, r.length);
      assert ([t[0]] + r.first)[1..] == r.first;
    }
  }

  lemma CommaFirst(t: string, first: string, rest: seq<string>, n: nat)
    requires t != "" && t[0] == ',' && n < |t[1..]| && t[1..][..n] == Joined([first] + rest)
    ensures t[..n + 1] == Joined([""] + ([first] + rest))
  {
    var ps := [""] + ([first] + rest);
    assert ps[1..] == [first] + rest;
    assert t[..n + 1] == "," + t[1..][..n];
    assert "" + "," + Joined(ps[1..]) == "," + Joined(ps[1..]);
  }

  lemma LetterFirst(t: string, first: string, rest: seq<string>, n: nat)
    requires t != "" && n < |t[1..]| && t[1..][..n] == Joined([first] + rest)
    ensures t[..n + 1] == Joined([[t[0]] + first] + rest)
  {
    var (ps, qs) := ([first] + rest, [[t[0]] + first] + rest);
    assert ps[1..] == rest && qs[1..] == rest;
    assert t[..n + 1] == [t[0]] + t[1..][..n];
    if rest != [] { assert [t[0]] + (first + "," + Joined(rest)) == [t[0]] + first + "," + Joined(rest); }
  }

  /** Each piece is made of literals of the whole. */
  lemma {:induction false} JoinedWhole(ps: seq<string>)
    requires ps != [] && forall i :: 0 <= i < |ps| ==> !QuoteOf(ps[i], false)
    ensures !QuoteOf(Joined(ps), false) && AllWhole(ps, Sections(Joined(ps), false))
    decreases |ps|
  {
    if |ps| > 1 {
      var (more, rest) := (ps[1..], Joined(ps[1..]));
      JoinedWhole(more);
      assert ("," + rest)[1..] == rest;
      assert ps[0] + "," + rest == ps[0] + ("," + rest);
      QuoteAppend(ps[0], "," + rest, false);
      SectionsAppend(ps[0], "," + rest, false);
      forall i | 0 <= i < |ps| ensures Whole(ps[i], Sections(Joined(ps), false)) {
        if i > 0 { assert ps[i] == more[i - 1] && Whole(more[i - 1], Sections(rest, false)); }
      }
    }
  }

  lemma TrimAllWhole(ps: seq<string>, all: seq<string>)
    requires ps != [] && AllWhole(ps, all)
    ensures AllWhole(ArgsOf(Trim, ps), all)
  {
    forall i | 0 <= i < |ps| ensures Whole(Trim(ps[i]), all) { TrimWhole(ps[i], all); }
  }

  // ---- What replaces a call ----

  lemma {:induction false} ListedWhole(args: seq<string>, all: seq<string>)
    requires AllWhole(args, all)
    ensures Whole(Listed(args), all)
    decreases |args|
  {
    if |args| > 1 {
      ListedWhole(args[1..], all);
      WholePlain(", ", all);
      WholeAppend(args[0], ", ", all);
      WholeAppend(args[0] + ", ", Listed(args[1..]), all);
    }
  }

  /** Texts without quotes around three whole texts. */
  lemma FourAround(t0: string, a: string, t1: string, b: string, t2: string, c: string, t3: string, all: seq<string>)
    requires Whole(t0, all) && Whole(t1, all) && Whole(t2, all) && Whole(t3, all)
    requires Whole(a, all) && Whole(b, all) && Whole(c, all)
    ensures Whole(t0 + a + t1 + b + t2 + c + t3, all)
  {
    WholeAppend(t0, a, all);
    WholeAppend(t0 + a, t1, all);
    WholeAppend(t0 + a + t1, b, all);
    WholeAppend(t0 + a + t1 + b, t2, all);
    WholeAppend(t0 + a + t1 + b + t2, c, all);
    WholeAppend(t0 + a + t1 + b + t2 + c, t3, all);
  }

  lemma TwoAround(t0: string, a: string, t1: string, all: seq<string>)
    requires Whole(t0, all) && Whole(t1, all) && Whole(a, all)
    ensures Whole(t0 + a + t1, all)
  {
    WholeAppend(t0, a, all);
    WholeAppend(t0 + a, t1, all);
  }

  lemma ReplacementWhole(f: Rule, args: seq<string>, all: seq<string>)
    requires AllWhole(args, all)
    ensures Whole(Replacement(f, args), all)
  {
    ListedWhole(args, all);
    if |args| < Arity(f) {
      WholePlain(NameOf(f), all);
      WholePlain("(", all);
      WholePlain(")", all);
      WholeAppend(NameOf(f), "(", all);
      TwoAround(NameOf(f) + "(", Listed(args), ")", all);
    } else {
      match f
      case IFF => CaseWhole(args[0], " THEN ", args[1], " ELSE ", args[2], all);
      case NVL2 => CaseWhole(args[0], " IS NOT NULL THEN ", args[1], " ELSE ", args[2], all);
      case NVL => WholePlain("COALESCE(", all); WholePlain(")", all); TwoAround("COALESCE(", Listed(args), ")", all);
      case DIV0NULL => GuardWhole("CASE WHEN COALESCE(", args[1], ", 0) = 0 THEN 0 ELSE ", args[0], all);
      case DIV0 => GuardWhole("CASE WHEN ", args[1], " = 0 THEN 0 ELSE ", args[0], all);
      case SQUARE => WholePlain("POWER(", all); WholePlain(", 2)", all); TwoAround("POWER(", args[0], ", 2)", all);
    }
  }

  predicate Unquoted(s: string) {
    forall k :: 0 <= k < |s| ==> s[k] != '\''
  }

  lemma CaseWhole(a: string, t1: string, b: string, t2: string, c: string, all: seq<string>)
    requires Whole(a, all) && Whole(b, all) && Whole(c, all) && Unquoted(t1) && Unquoted(t2)
    ensures Whole("CASE WHEN " + a + t1 + b + t2 + c + " END", all)
  {
    WholePlain("CASE WHEN ", all);
    WholePlain(t1, all);
    WholePlain(t2, all);
    WholePlain(" END", all);
    FourAround("CASE WHEN ", a, t1, b, t2, c, " END", all);
  }

  lemma GuardWhole(t0: string, b: string, t1: string, a: string, all: seq<string>)
    requires Whole(a, all) && Whole(b, all) && Unquoted(t0) && Unquoted(t1)
    ensures Whole(t0 + b + t1 + a + " / " + b + " END", all)
  {
    WholePlain(t0, all);
    WholePlain(t1, all);
    WholePlain(" / ", all);
    WholePlain(" END", all);
    FourAround(t0, b, t1, a, " / ", b, " END", all);
  }

  // ---- A turn ----

  lemma {:induction false} FirstParen(s: string, i: nat)
    requires ParenFrom(s, i).Some?
    ensures var o := ParenFrom(s, i).value; s[o] == '(' && forall k :: i <= k < o ==> s[k] != '('
    decreases |s| - i
  {
    if s[i] != '(' { FirstParen(s, i + 1); }
  }

  /** Between a name that is found and its parenthesis there is no quote. */
  lemma NameThenParen(sql: string, name: string, start: nat, open: nat)
    requires IsName(name) && At(sql, start, name) && ParenFrom(sql, start) == Some(open)
    ensures start < open && forall k :: start <= k <= open ==> sql[k] != '\''
  {
    FirstParen(sql, start);
    NameIsWord(sql, start, name);
    var after := start + |name|;
    ParenNeeded(sql, after);
    var p :| after <= p < |sql| && sql[p] == '(' && forall m :: after <= m < p ==> IsBlank(sql[m]);
    assert open <= p;
  }

  lemma CallOpens(sql: string, f: Rule, c: Found) returns (open: nat)
    requires FirstCall(sql, f) == Some(c)
    ensures c.start < open < c.close < |sql| && Extracted(sql, open) == Some((c.args, c.close))
    ensures forall k :: c.start <= k <= open ==> sql[k] != '\''
  {
    open := ParenFrom(sql, c.start).value;
    NameFacts(f);
    NameThenParen(sql, NameOf(f), c.start, open);
  }

  lemma ArgsWhole(sql: string, open: nat, args: seq<string>, close: nat, inner: string)
    requires open < close < |sql| && Extracted(sql, open) == Some((args, close)) && inner == sql[open + 1..close]
    ensures !QuoteOf(inner, false) && AllWhole(args, Sections(inner, false)) && sql[close] == ')'
  {
    var t := sql[open + 1..];
    var r := PiecesOf(t, 1, false);
    PiecesJoin(t, 1, false);
    var ps := [r.first] + r.rest;
    assert inner == t[..r.length];
    forall i | 0 <= i < |ps| ensures !QuoteOf(ps[i], false) {
      if i > 0 { assert ps[i] == r.rest[i - 1]; }
    }
    JoinedWhole(ps);
    TrimAllWhole(ps, Sections(inner, false));
  }

  /** A literal is only partly in the text that a turn replaces. */
  predicate Torn(sql: string, c: Found)
    requires c.start <= c.close < |sql|
  {
    Inside(sql, c.start) || EndsInside(sql, c.close)
  }

  predicate EndsInside(sql: string, close: nat)
    requires close < |sql|
  {
    QuoteOf(sql[..close + 1], false)
  }

  lemma SplicedSections(pre: string, mid: string, inner: string, piece: string, post: string)
    requires !QuoteOf(pre, false) && !QuoteOf(inner, false) && Unquoted(mid) && Whole(piece, Sections(inner, false))
    ensures !QuoteOf(pre + (mid + inner + ")"), false)
    ensures forall x :: x in Sections(pre + piece + post, false) ==>
              x in Sections(pre + (mid + inner + ")") + post, false)
  {
    var call := mid + inner + ")";
    NoQuotes(mid);
    NoQuotes(")");
    QuoteAppend(mid, inner, false);
    SectionsAppend(mid, inner, false);
    QuoteAppend(mid + inner, ")", false);
    SectionsAppend(mid + inner, ")", false);
    QuoteAppend(pre, call, false);
    SectionsAppend(pre, call, false);
    SectionsAppend(pre + call, post, false);
    QuoteAppend(pre, piece, false);
    SectionsAppend(pre, piece, false);
    SectionsAppend(pre + piece, post, false);
  }

  lemma SplicedKept(sql: string, start: nat, open: nat, args: seq<string>, close: nat, piece: string, inner: string)
    requires start < open < close < |sql| && inner == sql[open + 1..close] && sql[close] == ')'
    requires !Inside(sql, start) && !QuoteOf(inner, false) && Whole(piece, Sections(inner, false))
    requires forall k :: start <= k <= open ==> sql[k] != '\''
    ensures !EndsInside(sql, close)
    ensures forall x :: x in Sections(Spliced(sql, start, close, piece), false) ==> x in Sections(sql, false)
  {
    var (pre, mid, post) := (sql[..start], sql[start..open + 1], sql[close + 1..]);
    SplicedSections(pre, mid, inner, piece, post);
    var call := mid + inner + ")";
    assert call == sql[start..close + 1];
    assert pre + call == sql[..close + 1] && sql == pre + call + post;
  }

  /** A call found outside literals is replaced with whole literals: every literal of
      the new text is one of the old text. */
  lemma OutsideKept(sql: string, f: Rule, c: Found)
    requires FirstCall(sql, f) == Some(c) && !Inside(sql, c.start)
    ensures !Torn(sql, c)
    ensures forall x :: x in Sections(Turn(sql, f).value, false) ==> x in Sections(sql, false)
  {
    var open := CallOpens(sql, f, c);
    var inner := sql[open + 1..c.close];
    ArgsWhole(sql, open, c.args, c.close, inner);
    var piece := Replacement(f, c.args);
    ReplacementWhole(f, c.args, Sections(inner, false));
    SplicedKept(sql, c.start, open, c.args, c.close, piece, inner);
  }

  lemma ReplacementStarts(f: Rule, args: seq<string>)
    requires |args| >= Arity(f)
    ensures Replacement(f, args) != "" && ToUpperChar(Replacement(f, args)[0]) != NameOf(f)[0]
  {
  }

  lemma ChangedAt(sql: string, start: nat, close: nat, piece: string)
    requires start <= close < |sql| && Inside(sql, start) && piece != "" && piece[0] != sql[start]
    ensures var next := Spliced(sql, start, close, piece);
      start < |next| && Inside(next, start) && next[start] != sql[start]
  {
    assert Spliced(sql, start, close, piece)[..start] == sql[..start];
  }

  lemma FoundStarts(sql: string, f: Rule, c: Found)
    requires FirstCall(sql, f) == Some(c)
    ensures ToUpperChar(sql[c.start]) == NameOf(f)[0]
  {
    NameFacts(f);
    NameHere(sql, NameOf(f), c.start);
  }

  lemma NameHere(sql: string, name: string, start: nat)
    requires NameAt(sql, start, name) && name != ""
    ensures start < |sql| && ToUpperChar(sql[start]) == name[0]
  {
    assert ToUpperChar(sql[start + 0]) == name[0];
  }

  /** A call found inside a literal changes the literal right there. */
  lemma InsideChanged(sql: string, f: Rule, c: Found)
    requires FirstCall(sql, f) == Some(c) && Inside(sql, c.start) && |c.args| >= Arity(f)
    ensures var next := Turn(sql, f).value;
      c.start < |next| && Inside(next, c.start) && next[c.start] != sql[c.start]
  {
    ReplacementStarts(f, c.args);
    FoundStarts(sql, f, c);
    ChangedAt(sql, c.start, c.close, Replacement(f, c.args));
  }

  /** For every text: a turn tears a literal exactly if the name that it finds stands
      inside one. */
  lemma TornIffInside(sql: string, f: Rule)
    requires FirstCall(sql, f).Some?
    ensures var c := FirstCall(sql, f).value; Torn(sql, c) <==> Inside(sql, FindFrom(sql, NameOf(f), 0).value)
  {
    var c := FirstCall(sql, f).value;
    if !Inside(sql, c.start) { OutsideKept(sql, f, c); }
  }

  // ---- The loop ----

  /** A turn would tear a literal. */
  predicate Tears(sql: string, f: Rule) {
    FirstCall(sql, f).Some? && Torn(sql, FirstCall(sql, f).value)
  }

  /** Of the literals of the text at most some are kept, each as it was. */
  predicate Kept(sql: string, next: string) {
    forall x :: x in Sections(next, false) ==> x in Sections(sql, false)
  }

  /** A turn that tears no literal keeps them. */
  ghost predicate KeepsUnlessTorn(turn: string -> Option<string>, tears: string -> bool) {
    forall sql {:trigger turn(sql)} :: turn(sql).Some? && !tears(sql) ==> Kept(sql, turn(sql).value)
  }

  lemma {:induction false} LoopKeeps(turn: string -> Option<string>, tears: string -> bool, sql: string, n: nat)
    requires KeepsUnlessTorn(turn, tears) && forall k: nat :: k < n ==> !tears(Turned(turn, sql, k))
    ensures Kept(sql, Turned(turn, sql, n))
    decreases n
  {
    if n > 0 && turn(sql).Some? {
      var (next, less) := (turn(sql).value, n - 1);
      assert !tears(Turned(turn, sql, 0));
      forall k: nat | k < less ensures !tears(Turned(turn, next, k)) {
        var later := k + 1;
        assert Turned(turn, sql, later) == Turned(turn, next, k);
      }
      LoopKeeps(turn, tears, next, less);
    }
  }

  lemma TurnKeeps(f: Rule)
    ensures KeepsUnlessTorn(TurnOf(f), sql => Tears(sql, f))
  {
    forall sql: string | TurnOf(f)(sql).Some? && !Tears(sql, f) ensures Kept(sql, TurnOf(f)(sql).value) {
      OutsideKept(sql, f, FirstCall(sql, f).value);
    }
  }

  /** In n turns the loop keeps every literal whole exactly if no turn finds its name
      inside one; and then every literal at the end is one of the beginning. */
  lemma LoopKeepsLiterals(sql: string, f: Rule, n: nat)
    ensures (forall k: nat :: k < n ==> !Tears(Turned(TurnOf(f), sql, k), f)) <==>
            forall k: nat :: k < n ==> !FoundInside(Turned(TurnOf(f), sql, k), f)
    ensures (forall k: nat :: k < n ==> !FoundInside(Turned(TurnOf(f), sql, k), f)) ==>
            Kept(sql, Turned(TurnOf(f), sql, n))
  {
    var turn := TurnOf(f);
    forall k: nat ensures Tears(Turned(turn, sql, k), f) <==> FoundInside(Turned(turn, sql, k), f) {
      var cur := Turned(turn, sql, k);
      if FirstCall(cur, f).Some? { TornIffInside(cur, f); }
    }
    if forall k: nat :: k < n ==> !Tears(Turned(turn, sql, k), f) {
      TurnKeeps(f);
      LoopKeeps(turn, text => Tears(text, f), sql, n);
    }
  }

  /** A call is found, and its name stands inside a literal. */
  predicate FoundInside(sql: string, f: Rule) {
    FirstCall(sql, f).Some? && Inside(sql, FindFrom(sql, NameOf(f), 0).value)
  }

  /** A string that happens to hold a call is changed. */
  lemma LiteralRewritten()
    ensures Turn("'NVL(1)'", NVL) == Some("'COALESCE(1)'")
  {
    AfterQuote("NVL");
    OneIsClosed("1");
    UpperFixed("NVL");
    LiteralParts();
    TurnAt(NVL, "'", "NVL", ["1"], "1", "'", "'NVL(1)'");
  }

  lemma AfterQuote(name: string)
    requires IsName(name)
    ensures Lead("'", name)
  {
    NoWordQuiet("'(", name);
    assert "'" + "(" == "'(";
  }

  lemma OneIsClosed(s: string)
    requires s == "1"
    ensures Closed(s) && IsTrimmed(s) && Listed([s]) == s
  {
    assert s[1..] == "";
  }

  lemma LiteralParts()
    ensures "'" + ("NVL" + "(" + "1" + ")") + "'" == "'NVL(1)'"
    ensures "'" + Replacement(NVL, ["1"]) + "'" == "'COALESCE(1)'"
  {
  }
}

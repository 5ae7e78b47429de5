/** extractFuncArgs of internal/rewriter/rewriter.go: the arguments of a call in a
    SQL text, and that it reads back exactly what was written. */
module FuncArgs {
  import opened Text

  /** The pieces between top-level commas and the length up to the parenthesis
      that closes the call; Broken if none does. */
  datatype Pieces = Broken | Read(first: string, rest: seq<string>, length: nat)

  function Prepend(p: string, r: Pieces): Pieces {
    match r case Broken => Broken case Read(first, rest, n) => Read(p + first, rest, |p| + n)
  }

  function Cut(r: Pieces): Pieces {
    match r case Broken => Broken case Read(first, rest, n) => Read("", [first] + rest, n + 1)
  }

  /** A doubled quote inside a string closes and reopens it. */
  function NextQuoted(c: char, quoted: bool): bool {
    if c == '\'' then !quoted else quoted
  }

  function NextDepth(c: char, depth: nat, quoted: bool): (d: nat)
    requires depth >= 1 && !(c == ')' && depth == 1 && !quoted)
    ensures d >= 1
  {
    if quoted then depth else if c == '(' then depth + 1 else if c == ')' then depth - 1 else depth
  }

  /** The parenthesis that closes the call, and a comma at its top level. */
  predicate Closes(c: char, depth: nat, quoted: bool) {
    c == ')' && depth == 1 && !quoted
  }

  predicate Separates(c: char, depth: nat, quoted: bool) {
    c == ',' && depth == 1 && !quoted
  }

  function PiecesOf(t: string, depth: nat, quoted: bool): (r: Pieces)
    requires depth >= 1
    ensures r.Read? ==> r.length < |t| && t[r.length] == ')'
  {
    if t == "" then Broken
    else if Closes(t[0], depth, quoted) then Read("", [], 0)
    else if Separates(t[0], depth, quoted) then Cut(PiecesOf(t[1..], depth, quoted))
    else Prepend([t[0]], PiecesOf(t[1..], NextDepth(t[0], depth, quoted), NextQuoted(t[0], quoted)))
  }

  function TrimAll(trim: string -> string, ps: seq<string>): (r: seq<string>)
    ensures |r| == |ps| && forall i :: 0 <= i < |ps| ==> r[i] == trim(ps[i])
  {
    seq(|ps|, i requires 0 <= i < |ps| => trim(ps[i]))
  }

  function WithoutBlank(ts: seq<string>): seq<string>
    requires ts != []
  {
    if ts[|ts| - 1] == "" then ts[..|ts| - 1] else ts
  }

  /** Pieces are trimmed, and a last one that is blank is no argument. */
  function ArgsOf(trim: string -> string, ps: seq<string>): seq<string>
    requires ps != []
  {
    WithoutBlank(TrimAll(trim, ps))
  }

  /** The arguments and the position of the closing parenthesis. */
  function ExtractedBy(trim: string -> string, sql: string, open: nat): (r: Option<(seq<string>, nat)>)
    ensures r.Some? ==> open < r.value.1 < |sql|
  {
    if open >= |sql| || sql[open] != '(' then None
    else
      match PiecesOf(sql[open + 1..], 1, false)
      case Broken => None
      case Read(first, rest, n) => Some((ArgsOf(trim, [first] + rest), open + 1 + n))
  }

  function Extracted(sql: string, open: nat): (r: Option<(seq<string>, nat)>)
    ensures r.Some? ==> open < r.value.1 < |sql|
  {
    ExtractedBy(Trim, sql, open)
  }

  // ---- The loop ----

  /** The pieces already cut off, the text since, and the pieces to come. */
  function Onto(done: seq<string>, since: string, k: nat, r: Pieces): Option<(seq<string>, nat)> {
    match r case Broken => None case Read(first, rest, n) => Some((done + [since + first] + rest, k + n))
  }

  lemma OntoPrepend(done: seq<string>, since: string, k: nat, c: char, r: Pieces)
    ensures Onto(done, since, k, Prepend([c], r)) == Onto(done, since + [c], k + 1, r)
  {
    if r.Read? { assert since + ([c] + r.first) == (since + [c]) + r.first; }
  }

  lemma OntoCut(done: seq<string>, since: string, k: nat, r: Pieces)
    ensures Onto(done, since, k, Cut(r)) == Onto(done + [since], "", k + 1, r)
  {
    if r.Read? {
      assert since + "" == since && "" + r.first == r.first;
      assert done + [since] + ([r.first] + r.rest) == (done + [since]) + [r.first] + r.rest;
    }
  }

  /** What the scan still owes: with what it has, the pieces of the whole call. */
  predicate Owes(sql: string, open: nat, i: nat, start: nat, depth: nat, quoted: bool, raw: seq<string>)
    requires open < start <= i <= |sql| && depth >= 1
  {
    Onto(raw, sql[start..i], i - open - 1, PiecesOf(sql[i..], depth, quoted)) ==
    Onto([], "", 0, PiecesOf(sql[open + 1..], 1, false))
  }

  /** One character of the scan: inside an argument, */
  lemma ScanOn(
      sql: string, open: nat, i: nat, start: nat, depth: nat, quoted: bool, raw: seq<string>,
      i': nat, depth': nat, quoted': bool)
    requires open < start <= i < |sql| && depth >= 1 && Owes(sql, open, i, start, depth, quoted, raw)
    requires !Closes(sql[i], depth, quoted) && !Separates(sql[i], depth, quoted)
    requires i' == i + 1 && depth' == NextDepth(sql[i], depth, quoted) && quoted' == NextQuoted(sql[i], quoted)
    ensures Owes(sql, open, i', start, depth', quoted', raw)
  {
    var (t, c, since) := (sql[i..], sql[i], sql[start..i]);
    assert t[0] == c && t[1..] == sql[i + 1..];
    OntoPrepend(raw, since, i - open - 1, c, PiecesOf(t[1..], depth', quoted'));
    assert since + [c] == sql[start..i + 1];
  }

  lemma ScanDoubled(sql: string, open: nat, i: nat, start: nat, depth: nat, raw: seq<string>, i': nat)
    requires open < start <= i < |sql| - 1 && depth >= 1 && Owes(sql, open, i, start, depth, true, raw)
    requires sql[i] == '\'' && sql[i + 1] == '\'' && i' == i + 2
    ensures Owes(sql, open, i', start, depth, true, raw)
  {
    ScanOn(sql, open, i, start, depth, true, raw, i + 1, depth, false);
    ScanOn(sql, open, i + 1, start, depth, false, raw, i', depth, true);
  }

  /** between arguments, */
  lemma ScanCut(sql: string, open: nat, i: nat, start: nat, depth: nat, raw: seq<string>, raw': seq<string>)
    requires open < start <= i < |sql| && depth >= 1 && Owes(sql, open, i, start, depth, false, raw)
    requires Separates(sql[i], depth, false) && raw' == raw + [sql[start..i]]
    ensures Owes(sql, open, i + 1, i + 1, depth, false, raw')
  {
    var t := sql[i..];
    assert t[0] == sql[i] && t[1..] == sql[i + 1..];
    OntoCut(raw, sql[start..i], i - open - 1, PiecesOf(t[1..], depth, false));
    assert sql[i + 1..i + 1] == "";
  }

  /** and at the end of the call. */
  lemma ScanClose(
      sql: string, open: nat, i: nat, start: nat, depth: nat, raw: seq<string>, raw': seq<string>, n: nat)
    requires n == i - open - 1
    requires open < start <= i < |sql| && depth >= 1 && Owes(sql, open, i, start, depth, false, raw)
    requires Closes(sql[i], depth, false) && raw' == raw + [sql[start..i]]
    ensures Onto([], "", 0, PiecesOf(sql[open + 1..], 1, false)) == Some((raw', n))
  {
    var (t, since) := (sql[i..], sql[start..i]);
    assert t[0] == sql[i];
    assert since + "" == since && raw + [since] + [] == raw + [since];
  }

  lemma OntoNothing(r: Pieces)
    requires r.Read?
    ensures Onto([], "", 0, r) == Some(([r.first] + r.rest, r.length))
  {
    assert "" + r.first == r.first;
    assert [] + [r.first] + r.rest == [r.first] + r.rest;
  }

  /** What the call's pieces make of the result. */
  lemma ExtractedFrom(
      trim: string -> string, sql: string, open: nat, raw: seq<string>, n: nat, ts: seq<string>, r: seq<string>,
      close: int)
    requires open < |sql| && sql[open] == '(' && raw != [] && ts == TrimAll(trim, raw) && r == WithoutBlank(ts)
    requires Onto([], "", 0, PiecesOf(sql[open + 1..], 1, false)) == Some((raw, n)) && close == open + 1 + n
    ensures ExtractedBy(trim, sql, open) == Some((r, close))
  {
    OntoNothing(PiecesOf(sql[open + 1..], 1, false));
  }

  lemma TrimMore(trim: string -> string, raw: seq<string>, p: string)
    ensures TrimAll(trim, raw + [p]) == TrimAll(trim, raw) + [trim(p)]
  {
  }

  lemma BlankDropped(args: seq<string>, arg: string)
    ensures WithoutBlank(args + [arg]) == if arg == "" then args else args + [arg]
  {
    assert (args + [arg])[..|args|] == args;
  }

  /** extractFuncArgs. */
  method ExtractFuncArgs(sql: string, open: nat) returns (r: Option<(seq<string>, nat)>)
    ensures r == Extracted(sql, open)
  {
    r := ExtractBy(Trim, sql, open);
  }

  /** The loop, for any way of trimming an argument. */
  method ExtractBy(trim: string -> string, sql: string, open: nat) returns (r: Option<(seq<string>, nat)>)
    ensures r == ExtractedBy(trim, sql, open)
  {
    if open >= |sql| || sql[open] != '(' { return None; }
    var depth: nat, start, args, inQuote := 1, open + 1, [], false;
    ghost var raw: seq<string> := [];
    var i := open + 1;
    assert sql[start..i] == "";
    while i < |sql|
      invariant open < start <= i <= |sql| && depth >= 1
      invariant args == TrimAll(trim, raw) && Owes(sql, open, i, start, depth, inQuote, raw)
    {
      var ch := sql[i];
      if !inQuote && ch == ')' && depth == 1 {
        var arg := trim(sql[start..i]);
        ghost var all, n: nat := args + [arg], i - open - 1;
        TrimMore(trim, raw, sql[start..i]);
        ScanClose(sql, open, i, start, depth, raw, raw + [sql[start..i]], n);
        BlankDropped(args, arg);
        if arg != "" { args := args + [arg]; }
        ExtractedFrom(trim, sql, open, raw + [sql[start..i]], n, all, args, i);
        return Some((args, i));
      } else if !inQuote && ch == ',' && depth == 1 {
        TrimMore(trim, raw, sql[start..i]);
        args := args + [trim(sql[start..i])];
        ScanCut(sql, open, i, start, depth, raw, raw + [sql[start..i]]);
        raw := raw + [sql[start..i]];
        i := i + 1;
        start := i;
      } else {
        i, depth, inQuote := Advance(sql, open, i, start, depth, inQuote, raw);
      }
    }
    return None;
  }

  /** One turn of the loop within an argument; a doubled quote takes two characters. */
  method Advance(sql: string, open: nat, i: nat, start: nat, depth: nat, inQuote: bool, ghost raw: seq<string>)
      returns (i': nat, depth': nat, inQuote': bool)
    requires open < start <= i < |sql| && depth >= 1 && Owes(sql, open, i, start, depth, inQuote, raw)
    requires !Closes(sql[i], depth, inQuote) && !Separates(sql[i], depth, inQuote)
    ensures i < i' <= |sql| && depth' >= 1 && Owes(sql, open, i', start, depth', inQuote', raw)
  {
    var ch := sql[i];
    i', depth', inQuote' := i + 1, depth, inQuote;
    if ch == '\'' && !inQuote {
      inQuote' := true;
    } else if ch == '\'' && inQuote {
      if i + 1 < |sql| && sql[i + 1] == '\'' {
        i' := i + 2;
        ScanDoubled(sql, open, i, start, depth, raw, i');
        return;
      }
      inQuote' := false;
    } else if inQuote {
    } else if ch == '(' {
      depth' := depth + 1;
    } else if ch == ')' {
      depth' := depth - 1;
    }
    ScanOn(sql, open, i, start, depth, inQuote, raw, i', depth', inQuote');
  }

  // ---- Reading back what was written ----

  /** Parenthesis depth and quoting after a text; None where a call at this depth
      would end or a top-level comma stands. */
  function Walk(p: string, depth: nat, quoted: bool): (r: Option<(nat, bool)>)
    requires depth >= 1
    ensures r.Some? ==> r.value.0 >= 1
  {
    if p == "" then Some((depth, quoted))
    else if Closes(p[0], depth, quoted) || Separates(p[0], depth, quoted) then None
    else Walk(p[1..], NextDepth(p[0], depth, quoted), NextQuoted(p[0], quoted))
  }

  /** Quotes are closed, parentheses balanced, and no comma is at the top level. */
  predicate Closed(p: string) {
    Walk(p, 1, false) == Some((1, false))
  }

  lemma {:induction false} WalkedPieces(p: string, t: string, depth: nat, quoted: bool)
    requires depth >= 1 && Walk(p, depth, quoted).Some?
    ensures var (d, q) := Walk(p, depth, quoted).value;
      PiecesOf(p + t, depth, quoted) == Prepend(p, PiecesOf(t, d, q))
    decreases |p|
  {
    if p == "" {
      assert p + t == t;
      PrependNothing(PiecesOf(t, depth, quoted));
    } else {
      var (d, q) := Walk(p, depth, quoted).value;
      var (depth', quoted') := (NextDepth(p[0], depth, quoted), NextQuoted(p[0], quoted));
      WalkedPieces(p[1..], t, depth', quoted');
      WalkedOne(p, t, depth, quoted, depth', quoted', PiecesOf(t, d, q));
    }
  }

  lemma PrependNothing(r: Pieces)
    ensures Prepend("", r) == r
  {
    if r.Read? { assert "" + r.first == r.first; }
  }

  lemma WalkedOne(p: string, t: string, depth: nat, quoted: bool, depth': nat, quoted': bool, r: Pieces)
    requires p != "" && depth >= 1 && !Closes(p[0], depth, quoted) && !Separates(p[0], depth, quoted)
    requires depth' == NextDepth(p[0], depth, quoted) && quoted' == NextQuoted(p[0], quoted)
    requires PiecesOf(p[1..] + t, depth', quoted') == Prepend(p[1..], r)
    ensures PiecesOf(p + t, depth, quoted) == Prepend(p, r)
  {
    assert (p + t)[0] == p[0] && (p + t)[1..] == p[1..] + t;
    if r.Read? { assert [p[0]] + (p[1..] + r.first) == p + r.first; }
  }

  /** Pieces joined by commas. */
  function Joined(ps: seq<string>): string
    requires ps != []
  {
    if |ps| == 1 then ps[0] else ps[0] + "," + Joined(ps[1..])
  }

  /** r is the result of reading exactly these pieces. */
  predicate Reads(r: Pieces, ps: seq<string>, length: nat) {
    r.Read? && [r.first] + r.rest == ps && r.length == length
  }

  lemma {:induction false} JoinedPieces(ps: seq<string>, post: string)
    requires ps != [] && forall i :: 0 <= i < |ps| ==> Closed(ps[i])
    ensures Reads(PiecesOf(Joined(ps) + ")" + post, 1, false), ps, |Joined(ps)|)
    decreases |ps|
  {
    if |ps| == 1 {
      LastPiece(ps[0], post);
    } else {
      JoinedPieces(ps[1..], post);
      MorePieces(ps[0], Joined(ps[1..]) + ")" + post, ps[1..], |Joined(ps[1..])|);
      assert ps[0] + ("," + (Joined(ps[1..]) + ")" + post)) == Joined(ps) + ")" + post;
      assert [ps[0]] + ps[1..] == ps;
    }
  }

  lemma LastPiece(p: string, post: string)
    requires Closed(p)
    ensures PiecesOf(p + ")" + post, 1, false) == Read(p, [], |p|)
  {
    WalkedPieces(p, ")" + post, 1, false);
    assert p + ")" + post == p + (")" + post);
    assert p + "" == p;
  }

  lemma MorePieces(p: string, t: string, ps: seq<string>, n: nat)
    requires Closed(p) && Reads(PiecesOf(t, 1, false), ps, n)
    ensures Reads(PiecesOf(p + ("," + t), 1, false), [p] + ps, |p| + 1 + n)
  {
    CommaPieces(t);
    WalkedPieces(p, "," + t, 1, false);
    PrependCut(p, PiecesOf(t, 1, false), ps, n);
  }

  lemma CommaPieces(t: string)
    ensures PiecesOf("," + t, 1, false) == Cut(PiecesOf(t, 1, false))
  {
    assert ("," + t)[1..] == t;
  }

  lemma PrependCut(p: string, r: Pieces, ps: seq<string>, n: nat)
    requires Reads(r, ps, n)
    ensures Reads(Prepend(p, Cut(r)), [p] + ps, |p| + 1 + n)
  {
    assert p + "" == p;
  }

  /** Written as a call inside any text, closed pieces are read back as the
      arguments, trimmed, with the parenthesis that was written. */
  lemma ArgsRoundTrip(
      trim: string -> string, pre: string, ps: seq<string>, inner: string, post: string, sql: string, args: seq<string>,
      open: nat, close: nat)
    requires ps != [] && inner == Joined(ps) && forall i :: 0 <= i < |ps| ==> Closed(ps[i])
    requires sql == pre + "(" + inner + ")" + post && args == ArgsOf(trim, ps)
    requires open == |pre| && close == open + 1 + |inner|
    ensures ExtractedBy(trim, sql, open) == Some((args, close))
  {
    JoinedAt(pre, ps, inner, post, sql, open);
    ExtractedRead(trim, sql, open, |inner|, ps, args, close);
  }

  lemma JoinedAt(pre: string, ps: seq<string>, inner: string, post: string, sql: string, open: nat)
    requires ps != [] && inner == Joined(ps) && forall i :: 0 <= i < |ps| ==> Closed(ps[i])
    requires sql == pre + "(" + inner + ")" + post && open == |pre|
    ensures open < |sql| && sql[open] == '(' && Reads(PiecesOf(sql[open + 1..], 1, false), ps, |inner|)
  {
    AfterParen(pre, inner, post, sql);
    JoinedPieces(ps, post);
  }

  lemma AfterParen(pre: string, inner: string, post: string, sql: string)
    requires sql == pre + "(" + inner + ")" + post
    ensures |pre| < |sql| && sql[|pre|] == '(' && sql[|pre| + 1..] == inner + ")" + post
  {
    assert sql == (pre + "(") + (inner + ")" + post);
  }

  lemma ExtractedRead(
      trim: string -> string, sql: string, open: nat, n: nat, ps: seq<string>, args: seq<string>, close: nat)
    requires ps != [] && open < |sql| && sql[open] == '(' && Reads(PiecesOf(sql[open + 1..], 1, false), ps, n)
    requires args == ArgsOf(trim, ps) && close == open + 1 + n
    ensures ExtractedBy(trim, sql, open) == Some((args, close))
  {
  }

  predicate IsTrimmed(s: string) {
    s != "" && !IsSpace(s[0]) && !IsSpace(s[|s| - 1])
  }

  lemma TrimmedStays(s: string)
    requires IsTrimmed(s)
    ensures Trim(s) == s && Trim(" " + s) == s
  {
    BlankTrimmed(s, " " + s);
  }

  lemma BlankTrimmed(s: string, t: string)
    requires IsTrimmed(s) && t == " " + s
    ensures Trim(t) == s
  {
    assert t[|t| - 1] == s[|s| - 1] && TrimRight(t) == t;
    assert t[0] == ' ' && t[1..] == s;
  }

  /** strings.Join(args, ", "). */
  function Listed(args: seq<string>): string {
    if args == [] then "" else if |args| == 1 then args[0] else args[0] + ", " + Listed(args[1..])
  }

  /** The pieces of a list: all but the first have a blank in front. */
  function Spaced(args: seq<string>): (ps: seq<string>)
    ensures |ps| == |args|
  {
    seq(|args|, i requires 0 <= i < |args| => if i == 0 then args[0] else " " + args[i])
  }

  lemma {:induction false} ListedIsJoined(args: seq<string>)
    requires args != []
    ensures Joined(Spaced(args)) == Listed(args)
    decreases |args|
  {
    if |args| > 1 {
      ListedIsJoined(args[1..]);
      BlankFront(args[1..]);
      assert Spaced(args)[1..] == [" " + args[1]] + Spaced(args[1..])[1..];
      assert args[0] + "," + (" " + Listed(args[1..])) == args[0] + ", " + Listed(args[1..]);
    }
  }

  lemma BlankFront(args: seq<string>)
    requires args != []
    ensures Joined([" " + args[0]] + Spaced(args)[1..]) == " " + Joined(Spaced(args))
  {
    var ps := [" " + args[0]] + Spaced(args)[1..];
    assert ps[1..] == Spaced(args)[1..];
    if |args| > 1 {
      assert " " + args[0] + "," + Joined(ps[1..]) == " " + (args[0] + "," + Joined(ps[1..]));
    }
  }

  /** Trimming leaves the arguments as they are, also with a blank in front. */
  predicate Settled(trim: string -> string, args: seq<string>) {
    forall i :: 0 <= i < |args| ==>
      Closed(args[i]) && args[i] != "" && trim(args[i]) == args[i] && trim(" " + args[i]) == args[i]
  }

  lemma ListReadBy(
      trim: string -> string, pre: string, args: seq<string>, inner: string, post: string, sql: string,
      open: nat, close: nat)
    requires Settled(trim, args) && trim("") == "" && inner == Listed(args) && sql == pre + "(" + inner + ")" + post
    requires open == |pre| && close == open + 1 + |inner|
    ensures ExtractedBy(trim, sql, open) == Some((args, close))
  {
    if args == [] {
      assert Closed("") && TrimAll(trim, [""]) == [""];
      ArgsRoundTrip(trim, pre, [""], inner, post, sql, args, open, close);
    } else {
      SpacedArgs(trim, args);
      ListedIsJoined(args);
      ArgsRoundTrip(trim, pre, Spaced(args), inner, post, sql, args, open, close);
    }
  }

  lemma SpacedArgs(trim: string -> string, args: seq<string>)
    requires args != [] && Settled(trim, args)
    ensures forall i :: 0 <= i < |args| ==> Closed(Spaced(args)[i])
    ensures ArgsOf(trim, Spaced(args)) == args
  {
    forall i | 0 <= i < |args| ensures Closed(Spaced(args)[i]) && TrimAll(trim, Spaced(args))[i] == args[i] {
      BlankWalk(args[i]);
    }
    assert TrimAll(trim, Spaced(args)) == args;
  }

  /** A list of trimmed, closed arguments, printed with ", " between them inside any
      text, is read back exactly. */
  lemma ListRoundTrip(
      pre: string, args: seq<string>, inner: string, post: string, sql: string, open: nat, close: nat)
    requires forall i :: 0 <= i < |args| ==> IsTrimmed(args[i]) && Closed(args[i])
    requires inner == Listed(args) && sql == pre + "(" + inner + ")" + post
    requires open == |pre| && close == open + 1 + |inner|
    ensures Extracted(sql, open) == Some((args, close))
  {
    forall i | 0 <= i < |args| ensures Trim(args[i]) == args[i] && Trim(" " + args[i]) == args[i] {
      TrimmedStays(args[i]);
    }
    ListReadBy(Trim, pre, args, inner, post, sql, open, close);
  }

  lemma BlankWalk(p: string)
    requires Closed(p)
    ensures Closed(" " + p)
  {
    assert (" " + p)[1..] == p;
  }
}

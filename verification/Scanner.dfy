/** The byte scanner of internal/binding/binding.go: what it skips, what it
    takes for a placeholder, and what stays the same when the text that
    follows a segment is replaced. */
module Scanner {
  import opened Text

  predicate IsIdentChar(c: char) {
    c == '_' || c == '$' || IsDigit(c) || 'a' <= c <= 'z' || 'A' <= c <= 'Z'
  }

  /** One step of the scanner. */
  datatype Segment =
    | Special(text: string)    // string, quoted identifier, dollar quote or comment
    | Cast                     // ::
    | Positional               // ?
    | Numbered(digits: string) // :N
    | Plain(c: char)

  function SegText(g: Segment): string {
    match g
    case Special(t) => t
    case Cast => "::"
    case Positional => "?"
    case Numbered(d) => ":" + d
    case Plain(c) => [c]
  }

  predicate IsHole(g: Segment) {
    g.Positional? || g.Numbered?
  }

  predicate IsString(g: Segment) {
    g.Special? && g.text != "" && g.text[0] == '\''
  }

  /** Characters consumed after an opening quote q, up to and including the
      closing one; all of s when there is none. */
  function QuotedLen(s: string, q: char): (n: nat)
    ensures n <= |s|
  {
    if s == "" then 0
    else if s[0] != q then 1 + QuotedLen(s[1..], q)
    else if |s| > 1 && s[1] == q then 2 + QuotedLen(s[2..], q)
    else 1
  }

  /** Characters up to and including the first a that b follows; all of s when
      there is none. */
  function UntilLen(s: string, a: char, b: char): (n: nat)
    ensures n <= |s|
  {
    if |s| < 2 then |s|
    else if s[0] == a && s[1] == b then 2
    else 1 + UntilLen(s[1..], a, b)
  }

  /** Characters before the first newline. */
  function LineLen(s: string): (n: nat)
    ensures n <= |s|
  {
    if s == "" || s[0] == '\n' then 0 else 1 + LineLen(s[1..])
  }

  predicate Opens(s: string, a: char, b: char) {
    |s| >= 2 && s[0] == a && s[1] == b
  }

  predicate LineComment(s: string) {
    Opens(s, '-', '-') || Opens(s, '/', '/')
  }

  /** Length of the special section that s starts with, 0 when it starts with none. */
  function SpecialLen(s: string): (n: nat)
    requires s != ""
    ensures n <= |s|
  {
    if s[0] == '\'' || s[0] == '"' then 1 + QuotedLen(s[1..], s[0])
    else if Opens(s, '$', '$') then 2 + UntilLen(s[2..], '$', '$')
    else if Opens(s, '/', '*') then 2 + UntilLen(s[2..], '*', '/')
    else if LineComment(s) then LineLen(s)
    else 0
  }

  /** Digits follow, and no identifier character directly after them. */
  predicate LooksNumbered(s: string) {
    var d := DigitRun(s);
    d > 0 && (d == |s| || !IsIdentChar(s[d]))
  }

  /** The first segment of s; afterIdent says whether the character before s
      is an identifier character. */
  function First(afterIdent: bool, s: string): (g: Segment)
    requires s != ""
  {
    var n := SpecialLen(s);
    if n > 0 then Special(s[..n])
    else if s[0] == '?' then Positional
    else if s[0] == ':' then
      if |s| > 1 && s[1] == ':' then Cast
      else if LooksNumbered(s[1..]) && !afterIdent then Numbered(s[1..1 + DigitRun(s[1..])])
      else Plain(':')
    else Plain(s[0])
  }

  lemma FirstText(afterIdent: bool, s: string)
    requires s != ""
    ensures var t := SegText(First(afterIdent, s)); t != "" && |t| <= |s| && t == s[..|t|]
  {
  }

  /** Whether the last character of a segment is an identifier character. */
  predicate EndsIdent(g: Segment) {
    var t := SegText(g);
    t != "" && IsIdentChar(t[|t| - 1])
  }

  function Lex(afterIdent: bool, s: string): (segs: seq<Segment>)
    decreases |s|
  {
    if s == "" then []
    else
      FirstText(afterIdent, s);
      var g := First(afterIdent, s);
      [g] + Lex(EndsIdent(g), s[|SegText(g)|..])
  }

  function Spell(segs: seq<Segment>): string {
    if segs == [] then "" else SegText(segs[0]) + Spell(segs[1..])
  }

  /** The scanner state after segs. */
  function EndIdent(afterIdent: bool, segs: seq<Segment>): bool
    decreases |segs|
  {
    if segs == [] then afterIdent else EndIdent(EndsIdent(segs[0]), segs[1..])
  }

  /** The scanner, standing before g and then rest, takes exactly g. */
  predicate Fits(afterIdent: bool, g: Segment, rest: string) {
    SegText(g) != "" && First(afterIdent, SegText(g) + rest) == g
  }

  /** The scanner reads Spell(segs) + tail as segs and then stands before tail. */
  predicate Reads(afterIdent: bool, segs: seq<Segment>, tail: string)
    decreases |segs|
  {
    segs == [] ||
    (Fits(afterIdent, segs[0], Spell(segs[1..]) + tail) && Reads(EndsIdent(segs[0]), segs[1..], tail))
  }

  lemma LexCons(afterIdent: bool, g: Segment, rest: string)
    requires Fits(afterIdent, g, rest)
    ensures Lex(afterIdent, SegText(g) + rest) == [g] + Lex(EndsIdent(g), rest)
  {
    var s := SegText(g) + rest;
    assert s[|SegText(g)|..] == rest;
  }

  lemma {:induction false} ReadsIsLex(afterIdent: bool, segs: seq<Segment>, tail: string)
    requires Reads(afterIdent, segs, tail)
    ensures Lex(afterIdent, Spell(segs) + tail) == segs + Lex(EndIdent(afterIdent, segs), tail)
    decreases |segs|
  {
    if segs == [] {
      assert Spell(segs) + tail == tail;
    } else {
      var g, rest := segs[0], Spell(segs[1..]) + tail;
      assert Spell(segs) + tail == SegText(g) + rest;
      LexCons(afterIdent, g, rest);
      ReadsIsLex(EndsIdent(g), segs[1..], tail);
      ConsAppend(segs, Lex(EndIdent(afterIdent, segs), tail));
    }
  }

  lemma {:induction false} LexReads(afterIdent: bool, s: string)
    ensures Reads(afterIdent, Lex(afterIdent, s), "")
    ensures Spell(Lex(afterIdent, s)) == s
    decreases |s|
  {
    if s != "" {
      FirstText(afterIdent, s);
      var g := First(afterIdent, s);
      var rest := s[|SegText(g)|..];
      LexReads(EndsIdent(g), rest);
      assert s == SegText(g) + rest;
      var segs := Lex(afterIdent, s);
      assert segs[1..] == Lex(EndsIdent(g), rest);
      assert Spell(segs[1..]) + "" == rest;
    }
  }

  lemma {:induction false} SpellAppend(a: seq<Segment>, b: seq<Segment>)
    ensures Spell(a + b) == Spell(a) + Spell(b)
  {
    if a == [] {
      assert a + b == b;
    } else {
      assert (a + b)[1..] == a[1..] + b;
      SpellAppend(a[1..], b);
    }
  }

  lemma {:induction false} EndIdentAppend(afterIdent: bool, a: seq<Segment>, b: seq<Segment>)
    ensures EndIdent(afterIdent, a + b) == EndIdent(EndIdent(afterIdent, a), b)
    decreases |a|
  {
    if a == [] {
      assert a + b == b;
    } else {
      assert (a + b)[1..] == a[1..] + b;
      EndIdentAppend(EndsIdent(a[0]), a[1..], b);
    }
  }

  lemma {:induction false} ReadsAppend(afterIdent: bool, a: seq<Segment>, b: seq<Segment>, tail: string)
    ensures Reads(afterIdent, a + b, tail) <==>
            Reads(afterIdent, a, Spell(b) + tail) && Reads(EndIdent(afterIdent, a), b, tail)
    decreases |a|
  {
    if a == [] {
      assert a + b == b;
    } else {
      var more := a[1..];
      assert (a + b)[1..] == more + b && (a + b)[0] == a[0];
      SpellAppend(more, b);
      AppendAssoc(Spell(more), Spell(b), tail);
      ReadsAppend(EndsIdent(a[0]), more, b, tail);
    }
  }

  /** Only one segmentation spells a text: equal readings have equal remainders. */
  lemma {:induction false} LexTail(afterIdent: bool, a: seq<Segment>, b: seq<Segment>)
    requires Lex(afterIdent, Spell(a + b)) == a + b
    ensures Lex(EndIdent(afterIdent, a), Spell(b)) == b
    ensures Reads(afterIdent, a + b, "")
  {
    LexReads(afterIdent, Spell(a + b));
    ReadsAppend(afterIdent, a, b, "");
    ReadsIsLex(EndIdent(afterIdent, a), b, "");
    assert Spell(b) + "" == Spell(b);
  }

  // ---- What replacing the following text leaves unchanged ----

  lemma {:induction false} QuotedClosed(a: string, q: char, rest: string, rest': string)
    requires rest != "" && QuotedLen(a + rest, q) == |a|
    ensures (rest' == "" || rest'[0] != q) ==> QuotedLen(a + rest', q) == |a|
    ensures (rest' != "" && rest'[0] == q) ==> QuotedLen(a + rest', q) != |a|
    ensures a != "" && a[|a| - 1] == q
  {
    assert a == "" ==> a + rest == rest;
    if a[0] != q {
      assert (a + rest)[1..] == a[1..] + rest;
      assert (a + rest')[1..] == a[1..] + rest';
      QuotedClosed(a[1..], q, rest, rest');
    } else if |a| > 1 && a[1] == q {
      assert (a + rest)[2..] == a[2..] + rest;
      assert (a + rest')[2..] == a[2..] + rest';
      QuotedClosed(a[2..], q, rest, rest');
    } else {
      assert |a| == 1;
    }
  }

  lemma {:induction false} UntilClosed(t: string, a: char, b: char, rest: string, rest': string)
    requires rest != "" && UntilLen(t + rest, a, b) == |t|
    ensures UntilLen(t + rest', a, b) == |t|
    ensures t != "" && t[|t| - 1] == b
  {
    assert |t| >= 2;
    if !(t[0] == a && t[1] == b) {
      assert (t + rest)[1..] == t[1..] + rest;
      assert (t + rest')[1..] == t[1..] + rest';
      UntilClosed(t[1..], a, b, rest, rest');
    }
  }

  lemma {:induction false} LineClosed(a: string, rest: string, rest': string)
    requires rest != "" && LineLen(a + rest) == |a|
    requires rest' == "" || rest'[0] == '\n'
    ensures rest[0] == '\n'
    ensures LineLen(a + rest') == |a|
  {
    if a == "" {
      assert a + rest == rest && a + rest' == rest';
    } else {
      assert (a + rest)[1..] == a[1..] + rest;
      assert (a + rest')[1..] == a[1..] + rest';
      LineClosed(a[1..], rest, rest');
    }
  }

  /** Characters that never open a special section, a cast or a placeholder. */
  predicate Quiet(c: char) {
    (IsIdentChar(c) && c != '$') || c == ' ' || c == '.' || c == '(' || c == ')' || c == '+' || c == ','
  }

  predicate LiteralStart(c: char) {
    c == '\'' || Quiet(c)
  }

  /** rest' may stand where rest stood: it is empty, starts with the same
      character, or starts with a literal where rest starts with a placeholder. */
  predicate SameStart(rest: string, rest': string) {
    (rest == "" ==> rest' == "") &&
    (rest' != "" ==>
       rest'[0] == rest[0] || ((rest[0] == '?' || rest[0] == ':') && LiteralStart(rest'[0])))
  }

  lemma SpecialStable(t: string, rest: string, rest': string)
    requires t != "" && SpecialLen(t + rest) == |t|
    requires SameStart(rest, rest')
    requires t[0] == '\'' && rest' != "" ==> rest'[0] != '\''
    ensures SpecialLen(t + rest') == |t|
  {
    var s, s' := t + rest, t + rest';
    if rest == "" {
      assert s' == s;
    } else if t[0] == '\'' || t[0] == '"' {
      assert s[1..] == t[1..] + rest && s'[1..] == t[1..] + rest';
      QuotedClosed(t[1..], t[0], rest, rest');
      assert rest' != "" && rest'[0] == t[0] ==> rest[0] == t[0];
      QuotedClosed(t[1..], t[0], rest, rest);
    } else {
      assert |t| >= 2;
      assert s[1] == t[1] == s'[1];
      if Opens(t, '$', '$') {
        assert s[2..] == t[2..] + rest && s'[2..] == t[2..] + rest';
        UntilClosed(t[2..], '$', '$', rest, rest');
      } else if Opens(t, '/', '*') {
        assert s[2..] == t[2..] + rest && s'[2..] == t[2..] + rest';
        UntilClosed(t[2..], '*', '/', rest, rest');
      } else {
        LineClosed(t, rest, "");
        LineClosed(t, rest, rest');
      }
    }
  }

  /** A segment other than a placeholder or a lone colon is read the same way
      in front of any text that may stand where its old continuation stood. */
  lemma SegmentStable(g: Segment, pi: bool, pi': bool, rest: string, rest': string)
    requires Fits(pi, g, rest) && !IsHole(g) && g != Plain(':')
    requires SameStart(rest, rest')
    requires IsString(g) && rest' != "" ==> rest'[0] != '\''
    ensures Fits(pi', g, rest')
  {
    var s, s' := SegText(g) + rest, SegText(g) + rest';
    match g
    case Special(t) =>
      SpecialStable(t, rest, rest');
      assert s'[..|t|] == t;
    case Cast =>
      assert s'[0] == ':' && s'[1] == ':';
      assert SpecialLen(s') == 0;
    case Plain(c) =>
      assert SpecialLen(s) == 0;
      assert s[0] == c == s'[0];
      if rest == "" {
        assert s == s';
      } else if rest' != "" {
        assert s[1] == rest[0] && s'[1] == rest'[0];
      }
  }

  lemma ColonStable(pi: bool, rest: string)
    requires rest != "" ==> rest[0] != ':'
    ensures Fits(pi, Plain(':'), rest) <==> (pi || !LooksNumbered(rest))
  {
    var s := ":" + rest;
    assert s[1..] == rest;
    assert SpecialLen(s) == 0;
  }

  lemma ColonPlain(pi: bool, rest: string)
    requires Fits(pi, Plain(':'), rest)
    ensures rest != "" ==> rest[0] != ':'
  {
    var s := ":" + rest;
    assert SpecialLen(s) == 0;
  }
}

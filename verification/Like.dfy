/** matchLike of internal/orchestrator/snowflake_handlers.go: LIKE through a
    generated regular expression. */
module Like {
  import opened Text

  // ---- LIKE ----

  /** The pattern matches the whole value, letters in any case: a percent sign
      stands for any text, an underscore for any one character. */
  ghost predicate IsLike(pattern: string, value: string)
    decreases |pattern|
  {
    if pattern == "" then value == ""
    else if pattern[0] == '%' then exists k: nat :: k <= |value| && IsLike(pattern[1..], value[k..])
    else value != "" && (pattern[0] == '_' || ToUpperChar(pattern[0]) == ToUpperChar(value[0])) &&
         IsLike(pattern[1..], value[1..])
  }

  // ---- Regular expressions ----

  datatype Class = Exactly(c: char) | Dot

  /** The part of the syntax that is emitted: single characters, the dot, both
      perhaps repeated, and the anchors. */
  datatype Item = One(m: Class) | Many(m: Class) | AtStart | AtEnd

  predicate IsMeta(c: char) {
    c == '.' || c == '+' || c == '*' || c == '?' || c == '(' || c == ')' || c == '[' || c == ']' || c == '{' ||
    c == '}' || c == '^' || c == '$' || c == '|' || c == '\\'
  }

  function Repeated(m: Class, text: string): (r: Option<seq<Item>>)
    decreases |text|, 1
  {
    if text != "" && text[0] == '*' then Before(Many(m), Parse(text[1..])) else Before(One(m), Parse(text))
  }

  function Before(it: Item, r: Option<seq<Item>>): Option<seq<Item>> {
    match r case None => None case Some(items) => Some([it] + items)
  }

  /** None for text outside this part of the syntax. */
  function Parse(text: string): (r: Option<seq<Item>>)
    decreases |text|, 0
  {
    if text == "" then Some([])
    else if text[0] == '\\' then
      if |text| > 1 && IsMeta(text[1]) then Repeated(Exactly(text[1]), text[2..]) else None
    else if text[0] == '.' then Repeated(Dot, text[1..])
    else if text[0] == '^' then Before(AtStart, Parse(text[1..]))
    else if text[0] == '$' then Before(AtEnd, Parse(text[1..]))
    else if IsMeta(text[0]) then None
    else Repeated(Exactly(text[0]), text[1..])
  }

  /** A leading (?s) lets the dot match a line feed as well. */
  datatype Regex = Regex(dotAll: bool, items: seq<Item>)

  function Compile(text: string): Option<Regex> {
    var dotAll := |text| >= 4 && text[0] == '(' && text[1] == '?' && text[2] == 's' && text[3] == ')';
    match Parse(if dotAll then text[4..] else text)
    case None => None
    case Some(items) => Some(Regex(dotAll, items))
  }

  predicate Accepts(m: Class, dotAll: bool, c: char) {
    match m case Exactly(d) => c == d case Dot => dotAll || c != '\n'
  }

  predicate MatchAt(items: seq<Item>, dotAll: bool, s: string, i: nat)
    requires i <= |s|
    decreases |items|, |s| - i
  {
    if items == [] then true
    else
      match items[0]
      case AtStart => i == 0 && MatchAt(items[1..], dotAll, s, i)
      case AtEnd => i == |s| && MatchAt(items[1..], dotAll, s, i)
      case One(m) => i < |s| && Accepts(m, dotAll, s[i]) && MatchAt(items[1..], dotAll, s, i + 1)
      case Many(m) =>
        MatchAt(items[1..], dotAll, s, i) || (i < |s| && Accepts(m, dotAll, s[i]) && MatchAt(items, dotAll, s, i + 1))
  }

  /** A match anywhere in the string. */
  predicate MatchString(re: Regex, s: string) {
    exists i: nat :: i <= |s| && MatchAt(re.items, re.dotAll, s, i)
  }

  // ---- The generated expression ----

  function Emit(c: char): string {
    if c == '%' then ".*" else if c == '_' then "." else if IsMeta(c) then ['\\', c] else [c]
  }

  function EmitAll(p: string): string {
    if p == "" then "" else Emit(p[0]) + EmitAll(p[1..])
  }

  function ItemOf(c: char): Item {
    if c == '%' then Many(Dot) else if c == '_' then One(Dot) else One(Exactly(c))
  }

  function ItemsOf(p: string): seq<Item> {
    if p == "" then [] else [ItemOf(p[0])] + ItemsOf(p[1..])
  }

  lemma {:induction false} EmitNext(p: string, c: char)
    ensures EmitAll(p + [c]) == EmitAll(p) + Emit(c)
  {
    if p == "" {
      assert (p + [c])[1..] == "";
    } else {
      assert (p + [c])[1..] == p[1..] + [c];
      EmitNext(p[1..], c);
    }
  }

  /** The expression for a pattern, however full of metacharacters, reads back as
      one item for each of its characters. */
  lemma {:induction false} ParseEmitted(p: string)
    ensures Parse(EmitAll(p) + "$") == Some(ItemsOf(p) + [AtEnd])
    ensures (EmitAll(p) + "$")[0] != '*'
    decreases |p|
  {
    if p == "" {
      assert ("$")[1..] == "";
      assert Parse("$") == Before(AtEnd, Parse(""));
      assert EmitAll(p) + "$" == "$";
      assert [AtEnd] + [] == [] + [AtEnd];
    } else {
      ParseEmitted(p[1..]);
      ParseOne(p[0], EmitAll(p[1..]) + "$", ItemsOf(p[1..]) + [AtEnd]);
      assert EmitAll(p) + "$" == Emit(p[0]) + (EmitAll(p[1..]) + "$");
      assert [ItemOf(p[0])] + (ItemsOf(p[1..]) + [AtEnd]) == ItemsOf(p) + [AtEnd];
    }
  }

  lemma ParseOne(c: char, t: string, items: seq<Item>)
    requires t != "" && t[0] != '*' && Parse(t) == Some(items)
    ensures Parse(Emit(c) + t) == Some([ItemOf(c)] + items) && (Emit(c) + t)[0] != '*'
  {
    var s := Emit(c) + t;
    if c == '%' {
      assert s[1..] == "*" + t && ("*" + t)[1..] == t;
      assert Parse(s) == Repeated(Dot, s[1..]);
    } else if c == '_' {
      assert s[1..] == t;
      assert Parse(s) == Repeated(Dot, s[1..]);
    } else if IsMeta(c) {
      assert s[2..] == t;
      assert Parse(s) == Repeated(Exactly(c), s[2..]);
    } else {
      assert s[1..] == t;
      assert Parse(s) == Repeated(Exactly(c), s[1..]);
    }
  }

  // ---- It matches what LIKE matches ----

  lemma {:induction false} MatchIsLike(p: string, s: string, i: nat)
    requires i <= |s|
    ensures MatchAt(ItemsOf(ToUpper(p)) + [AtEnd], true, ToUpper(s), i) <==> IsLike(p, s[i..])
    decreases |p|, |s| - i
  {
    var (q, u, next) := (ToUpper(p), ToUpper(s), i + 1);
    var items := ItemsOf(q) + [AtEnd];
    if p == "" {
      assert items == [AtEnd] && items[1..] == [];
      assert MatchAt(items, true, u, i) <==> i == |u|;
    } else {
      ItemsNext(p, items);
      if p[0] == '%' {
        MatchIsLike(p[1..], s, i);
        if i < |s| {
          MatchIsLike(p, s, next);
          PercentLike(p, s, i);
        } else {
          assert s[i..] == "" && s[i..][0..] == "";
        }
      } else if i < |s| {
        MatchIsLike(p[1..], s, next);
        assert s[i..][1..] == s[next..];
        assert u[i] == ToUpperChar(s[i]);
      }
    }
  }

  lemma ItemsNext(p: string, items: seq<Item>)
    requires p != "" && items == ItemsOf(ToUpper(p)) + [AtEnd]
    ensures items[0] == ItemOf(ToUpperChar(p[0])) && items[1..] == ItemsOf(ToUpper(p[1..])) + [AtEnd]
  {
    UpperNext(p);
    ItemsFirst(ToUpper(p), items);
  }

  lemma UpperNext(p: string)
    requires p != ""
    ensures ToUpper(p) != "" && ToUpper(p)[0] == ToUpperChar(p[0]) && ToUpper(p)[1..] == ToUpper(p[1..])
  {
    assert ToUpper(p) == [ToUpperChar(p[0])] + ToUpper(p[1..]);
  }

  lemma ItemsFirst(q: string, items: seq<Item>)
    requires q != "" && items == ItemsOf(q) + [AtEnd]
    ensures items[0] == ItemOf(q[0]) && items[1..] == ItemsOf(q[1..]) + [AtEnd]
  {
    var rest := ItemsOf(q[1..]);
    assert items == [ItemOf(q[0])] + (rest + [AtEnd]);
  }

  /** A percent sign takes nothing, or one more character. */
  lemma PercentLike(p: string, s: string, i: nat)
    requires p != "" && p[0] == '%' && i < |s|
    ensures IsLike(p, s[i..]) <==> IsLike(p[1..], s[i..]) || IsLike(p, s[i + 1..])
  {
    var (v, w) := (s[i..], s[i + 1..]);
    assert v[0..] == v;
    forall k: nat | k <= |w| ensures w[k..] == v[k + 1..] { }
    if IsLike(p, v) {
      var k: nat :| k <= |v| && IsLike(p[1..], v[k..]);
      if k > 0 { assert w[k - 1..] == v[k..]; }
    }
    if IsLike(p, w) {
      var k: nat :| k <= |w| && IsLike(p[1..], w[k..]);
      assert IsLike(p[1..], v[k + 1..]);
    }
  }

  /** matchLike decides LIKE. */
  method MatchLike(pattern: string, value: string) returns (r: bool)
    ensures r <==> IsLike(pattern, value)
  {
    var p, v := ToUpper(pattern), ToUpper(value);
    var body := "";
    for i := 0 to |p|
      invariant body == EmitAll(p[..i])
    {
      assert p[..i + 1] == p[..i] + [p[i]];
      EmitNext(p[..i], p[i]);
      if p[i] == '%' {
        body := body + ".*";
      } else if p[i] == '_' {
        body := body + ".";
      } else if IsMeta(p[i]) {
        body := body + ['\\', p[i]];
      } else {
        body := body + [p[i]];
      }
    }
    assert p[..|p|] == p;
    var re := Compile("(?s)^" + body + "$");
    CompiledIs(p, "(?s)^" + body + "$");
    if re.None? { return false; }
    r := MatchString(re.value, v);
    WholeMatch(ItemsOf(p) + [AtEnd], v);
    MatchIsLike(pattern, value, 0);
    assert value[0..] == value;
  }

  lemma CompiledIs(p: string, text: string)
    requires text == "(?s)^" + EmitAll(p) + "$"
    ensures Compile(text) == Some(Regex(true, [AtStart] + (ItemsOf(p) + [AtEnd])))
  {
    var tail := EmitAll(p) + "$";
    ParseEmitted(p);
    assert text[4..] == "^" + tail;
    assert ("^" + tail)[1..] == tail;
    assert Parse("^" + tail) == Before(AtStart, Parse(tail));
  }

  /** The start anchor leaves only a match of the whole string. */
  lemma WholeMatch(items: seq<Item>, s: string)
    ensures MatchString(Regex(true, [AtStart] + items), s) <==> MatchAt(items, true, s, 0)
  {
    assert ([AtStart] + items)[1..] == items;
    assert MatchAt([AtStart] + items, true, s, 0) <==> MatchAt(items, true, s, 0);
  }
}

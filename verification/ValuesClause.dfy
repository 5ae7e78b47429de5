/** The tuple that internal/binding/bulk.go folds, told by counting parentheses. */
module ValuesClause {
  import opened Text
  import opened Scanner
  import opened Literals
  import opened Substitution
  import opened Bulk

  predicate Is(scan: seq<Segment>, i: nat, c: char) {
    i < |scan| && scan[i] == Plain(c)
  }

  /** How many of the first k elements are the character c. */
  function Count(scan: seq<Segment>, k: nat, c: char): nat {
    |set i: nat | i < k && Is(scan, i, c)|
  }

  /** Parentheses open after the first k elements. */
  function Opened(scan: seq<Segment>, k: nat): int {
    Count(scan, k, '(') - Count(scan, k, ')')
  }

  lemma CountNext(scan: seq<Segment>, k: nat, next: nat, c: char)
    requires k < |scan| && next == k + 1
    ensures Count(scan, next, c) == Count(scan, k, c) + if scan[k] == Plain(c) then 1 else 0
  {
    var before := set i: nat | i < k && Is(scan, i, c);
    var after := set i: nat | i < next && Is(scan, i, c);
    assert after == if Is(scan, k, c) then before + {k} else before;
  }

  lemma OpenedNext(scan: seq<Segment>, k: nat, next: nat)
    requires k < |scan| && next == k + 1
    ensures Opened(scan, next) == DepthAfter(Opened(scan, k), scan[k])
  {
    CountNext(scan, k, next, '(');
    CountNext(scan, k, next, ')');
  }

  lemma OpenedFirst(scan: seq<Segment>)
    ensures Opened(scan, 0) == 0
  {
    assert (set i: nat | i < 0 && Is(scan, i, '(')) == {};
    assert (set i: nat | i < 0 && Is(scan, i, ')')) == {};
  }

  // ---- The first VALUES ----

  /** Element k of the scan begins the word VALUES, and no parenthesis is open. */
  predicate ValuesHere(s: string, scan: seq<Segment>, k: nat, i: nat)
    requires k < |scan| && i < |s|
  {
    scan[k].Plain? && KeywordAt(s, i) && Opened(scan, k) == 0
  }

  /** It begins at element k, which is at position i. */
  ghost predicate ValuesAt(s: string, scan: seq<Segment>, k: nat, i: nat) {
    k < |scan| && i < |s| && i == Offset(scan, k) && ValuesHere(s, scan, k, i)
  }

  ghost predicate NoValuesFrom(s: string, scan: seq<Segment>, from: nat, to: nat) {
    forall k: nat, i: nat :: from <= k < to ==> !ValuesAt(s, scan, k, i)
  }

  lemma NoValuesMore(s: string, scan: seq<Segment>, k: nat, next: nat, to: nat)
    requires next == k + 1 && NoValuesFrom(s, scan, next, to)
    requires forall i: nat :: !ValuesAt(s, scan, k, i)
    ensures NoValuesFrom(s, scan, k, to)
  {
  }

  lemma NotHere(s: string, scan: seq<Segment>, k: nat, i: nat)
    requires k < |scan| && i == Offset(scan, k) && i < |s| && !ValuesHere(s, scan, k, i)
    ensures forall p: nat :: !ValuesAt(s, scan, k, p)
  {
  }

  /** What the search does with one element. */
  lemma SeekOne(
      s: string, scan: seq<Segment>, rest: seq<Segment>, k: nat, i: nat, depth: int, next: nat, j: nat, depth': int)
    requires k < |scan| && rest == scan[k..] && depth == Opened(scan, k) && next == k + 1
    requires i + |Spell(rest)| == |s| && i < |s| && j == i + |SegText(rest[0])| && depth' == DepthAfter(depth, rest[0])
    ensures j + |Spell(rest[1..])| == |s|
    ensures FindValues(s, rest, i, depth) ==
              if ValuesHere(s, scan, k, i) then Some(i) else FindValues(s, rest[1..], j, depth')
  {
    SpellFirst(rest);
  }

  lemma {:induction false} FirstFrom(s: string, scan: seq<Segment>, rest: seq<Segment>, k: nat, i: nat, depth: int)
      returns (found: nat)
    requires k <= |scan| && rest == scan[k..] && i == Offset(scan, k) && depth == Opened(scan, k)
    requires i + |Spell(rest)| == |s|
    requires forall j :: 0 <= j < |scan| ==> SegText(scan[j]) != ""
    ensures k <= found <= |scan| && NoValuesFrom(s, scan, k, found)
    ensures match FindValues(s, rest, i, depth)
            case Some(at) => found < |scan| && ValuesAt(s, scan, found, at)
            case None => found == |scan|
    decreases |rest|
  {
    found := k;
    if rest != [] {
      SpellFirst(rest);
      var (next, j, depth') := (k + 1, i + |SegText(rest[0])|, DepthAfter(depth, rest[0]));
      SeekOne(s, scan, rest, k, i, depth, next, j, depth');
      if ValuesHere(s, scan, k, i) {
        assert ValuesAt(s, scan, k, i);
      } else {
        OpenedNext(scan, k, next);
        assert rest[1..] == scan[next..];
        found := FirstFrom(s, scan, rest[1..], next, j, depth');
        NotHere(s, scan, k, i);
        NoValuesMore(s, scan, k, next, found);
      }
    }
  }

  /** The search finds the first VALUES that is in no string or comment and in no open
      parenthesis. */
  lemma FirstValues(s: string) returns (k: nat)
    ensures k <= |Scan(s)| && NoValuesFrom(s, Scan(s), 0, k)
    ensures match FindValues(s, Scan(s), 0, 0)
            case Some(at) => k < |Scan(s)| && ValuesAt(s, Scan(s), k, at)
            case None => k == |Scan(s)|
  {
    var scan := Walk(s);
    forall j | 0 <= j < |scan| ensures SegText(scan[j]) != "" { assert WalksAt(s, scan, j, Offset(scan, j)); }
    OpenedFirst(scan);
    assert scan[0..] == scan;
    k := FirstFrom(s, scan, scan, 0, 0, 0);
  }

  // ---- One tuple ----

  /** The parentheses close at the end, and not before. */
  predicate ClosesLast(scan: seq<Segment>, from: nat) {
    && Opened(scan, |scan|) == 0
    && forall k: nat :: from < k < |scan| && scan[k - 1] == Plain(')') ==> Opened(scan, k) != 0
  }

  lemma {:induction false} BalancedFrom(scan: seq<Segment>, rest: seq<Segment>, k: nat, depth: int)
    requires k <= |scan| && rest == scan[k..] && depth == Opened(scan, k)
    ensures Balanced(rest, depth) <==> ClosesLast(scan, k)
    decreases |rest|
  {
    if rest != [] {
      var next := k + 1;
      OpenedNext(scan, k, next);
      assert scan[k..][1..] == scan[next..];
      BalancedFrom(scan, rest[1..], next, DepthAfter(depth, rest[0]));
      assert scan[next - 1] == rest[0];
    }
  }

  /** A tuple is accepted exactly if its parentheses close at its end and not before. */
  lemma BalancedIff(t: string)
    ensures Balanced(Scan(t), 0) <==> ClosesLast(Scan(t), 0)
  {
    var scan := Scan(t);
    OpenedFirst(scan);
    assert scan[0..] == scan;
    BalancedFrom(scan, scan, 0, 0);
  }

  // ---- The whole statement ----

  /** INSERT in any case, the first VALUES at element k and position at, and around it a
      text without placeholders and one tuple. */
  ghost predicate SplitsAt(s: string, k: nat, at: nat, prefix: string, tuple: string) {
    && |s| >= 6 && IsWord(s[..6], "INSERT")
    && ValuesAt(s, Scan(s), k, at) && NoValuesFrom(s, Scan(s), 0, k)
    && prefix == Trim(s[..at]) && tuple == Trim(s[at + 6..])
    && tuple != "" && tuple[0] == '(' && ClosesLast(Scan(tuple), 0) && !HasHole(Lex(false, prefix))
  }

  /** The first VALUES is only one. */
  lemma ValuesOnce(s: string, k: nat, at: nat, k': nat, at': nat)
    requires ValuesAt(s, Scan(s), k, at) && NoValuesFrom(s, Scan(s), 0, k)
    requires ValuesAt(s, Scan(s), k', at') && NoValuesFrom(s, Scan(s), 0, k')
    ensures k == k' && at == at'
  {
  }

  /** What the model asks of the two parts around position at. */
  predicate CutsAt(s: string, at: nat, prefix: string, tuple: string) {
    && |s| >= 6 && IsWord(s[..6], "INSERT") && at + 6 <= |s|
    && prefix == Trim(s[..at]) && tuple == Trim(s[at + 6..])
    && tuple != "" && tuple[0] == '(' && Balanced(Scan(tuple), 0) && !HasHole(Lex(false, prefix))
  }

  lemma SplitCuts(s: string, prefix: string, tuple: string)
    ensures var found := FindValues(s, Scan(s), 0, 0);
      SplitCore(s) == Some((prefix, tuple)) <==> found.Some? && CutsAt(s, found.value, prefix, tuple)
  {
    var found := FindValues(s, Scan(s), 0, 0);
    if found.Some? { CutParts(Trim(s[..found.value]), Trim(s[found.value + 6..]), prefix, tuple); }
  }

  lemma CutParts(a: string, b: string, prefix: string, tuple: string)
    ensures CutAt(a, b) == Some((prefix, tuple)) <==>
              prefix == a && tuple == b && tuple != "" && tuple[0] == '(' && Balanced(Scan(tuple), 0) &&
              !HasHole(Lex(false, prefix))
  {
  }

  lemma CutSplits(s: string, k: nat, at: nat, prefix: string, tuple: string)
    requires ValuesAt(s, Scan(s), k, at) && NoValuesFrom(s, Scan(s), 0, k)
    ensures CutsAt(s, at, prefix, tuple) <==> SplitsAt(s, k, at, prefix, tuple)
  {
    BalancedIff(tuple);
  }

  /** A statement is folded exactly if it is such an INSERT. */
  lemma SplitIff(sql: string, prefix: string, tuple: string)
    ensures Split(sql) == Some((prefix, tuple)) <==> exists k, at :: SplitsAt(Core(sql), k, at, prefix, tuple)
  {
    var s := Core(sql);
    var found := FindValues(s, Scan(s), 0, 0);
    var first := FirstValues(s);
    SplitCuts(s, prefix, tuple);
    if found.Some? { CutSplits(s, first, found.value, prefix, tuple); }
    if exists k, at :: SplitsAt(s, k, at, prefix, tuple) {
      var k, at :| SplitsAt(s, k, at, prefix, tuple);
      FoundIsFirst(s, k, at);
      CutSplits(s, k, at, prefix, tuple);
    }
  }

  lemma FoundIsFirst(s: string, k: nat, at: nat)
    requires ValuesAt(s, Scan(s), k, at) && NoValuesFrom(s, Scan(s), 0, k)
    ensures FindValues(s, Scan(s), 0, 0) == Some(at)
  {
    var first := FirstValues(s);
    if FindValues(s, Scan(s), 0, 0).Some? {
      ValuesOnce(s, k, at, first, FindValues(s, Scan(s), 0, 0).value);
    }
  }

  // ---- The statement without its semicolon ----

  /** One semicolon at the end, and any space around, is not part of the statement. */
  lemma CoreOf(before: string, text: string, space: string, after: string)
    requires AllSpace(before) && AllSpace(space) && AllSpace(after)
    requires text != "" && !IsSpace(text[0]) && !IsSpace(text[|text| - 1]) && text[|text| - 1] != ';'
    ensures Core(before + text + after) == text
    ensures Core(before + (text + space + ";") + after) == text
  {
    CoreTrimmed(before, text, after, text, "");
    Stripped(text, space, text + space + ";");
    CoreTrimmed(before, text + space + ";", after, text, space);
  }

  lemma Stripped(text: string, space: string, closed: string)
    requires text != "" && !IsSpace(text[0]) && closed == text + space + ";"
    ensures StripSemicolon(closed) == text + space && closed != ""
    ensures !IsSpace(closed[0]) && !IsSpace(closed[|closed| - 1])
  {
    assert closed[0] == text[0] && closed[..|closed| - 1] == text + space;
  }

  lemma CoreTrimmed(before: string, whole: string, after: string, text: string, space: string)
    requires AllSpace(before) && AllSpace(after) && AllSpace(space)
    requires whole != "" && !IsSpace(whole[0]) && !IsSpace(whole[|whole| - 1]) && StripSemicolon(whole) == text + space
    requires text != "" && !IsSpace(text[0]) && !IsSpace(text[|text| - 1])
    ensures Core(before + whole + after) == text
  {
    TrimOf(before, whole, after);
    TrimOf("", text, space);
    assert "" + text + space == text + space;
  }
}

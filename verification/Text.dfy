/** Small vocabulary shared by the other modules: results, options and the
    character classes that the Go sources test by hand. */
module Text {

  datatype Option<+T> = None | Some(value: T)

  datatype Result<+T> = Ok(value: T) | Err(error: string)

  predicate IsDigit(c: char) {
    '0' <= c <= '9'
  }

  /** The ASCII characters that strings.TrimSpace and strings.Fields drop. */
  predicate IsSpace(c: char) {
    c == ' ' || c == '\t' || c == '\n' || c == '\r' || c == '\U{0B}' || c == '\U{0C}'
  }

  /** What the pattern \s matches. */
  predicate IsBlank(c: char) {
    c == ' ' || c == '\t' || c == '\n' || c == '\r' || c == '\U{0C}'
  }

  function SkipBlank(s: string): (r: string)
    ensures |r| <= |s|
  {
    if s != "" && IsBlank(s[0]) then SkipBlank(s[1..]) else s
  }

  /** Number of leading digits. */
  function DigitRun(s: string): (n: nat)
    ensures n <= |s|
    ensures forall k :: 0 <= k < n ==> IsDigit(s[k])
    ensures n < |s| ==> !IsDigit(s[n])
  {
    if s == "" || !IsDigit(s[0]) then 0 else 1 + DigitRun(s[1..])
  }

  function DigitValue(c: char): nat
    requires IsDigit(c)
  {
    c as int - '0' as int
  }

  /** The number that a run of digits spells. */
  function Decimal(s: string): nat
    requires forall k :: 0 <= k < |s| ==> IsDigit(s[k])
  {
    if s == "" then 0 else 10 * Decimal(s[..|s| - 1]) + DigitValue(s[|s| - 1])
  }

  /** strconv.Itoa on a non-negative number. */
  function Itoa(n: nat): string {
    if n < 10 then [('0' as int + n) as char] else Itoa(n / 10) + Itoa(n % 10)
  }

  function AfterSign(v: string): string {
    if v != "" && (v[0] == '+' || v[0] == '-') then v[1..] else v
  }

  /** ^[+-]?\d+$ */
  predicate IsInt(v: string) {
    var u := AfterSign(v);
    u != "" && DigitRun(u) == |u|
  }

  const MAX_INT64 := 0x7fff_ffff_ffff_ffff

  /** The value ParseInt computes before its range check. */
  function IntValue(v: string): int
    requires IsInt(v)
  {
    var n: int := Decimal(AfterSign(v));
    if v[0] == '-' then -n else n
  }

  /** ParseInt's value when its range error is ignored. */
  function Clamped(n: int): int {
    if n > MAX_INT64 then MAX_INT64 else if n < -MAX_INT64 - 1 then -MAX_INT64 - 1 else n
  }

  /** strconv.Atoi, and ParseInt in base 10 with 64 bits. */
  function Atoi(s: string): Option<int> {
    if IsInt(s) && Clamped(IntValue(s)) == IntValue(s) then Some(IntValue(s)) else None
  }

  function ToUpperChar(c: char): char {
    if 'a' <= c <= 'z' then (c as int - 32) as char else c
  }

  function ToLowerChar(c: char): char {
    if 'A' <= c <= 'Z' then (c as int + 32) as char else c
  }

  function ToUpper(s: string): (r: string)
    ensures |r| == |s|
    ensures forall k :: 0 <= k < |s| ==> r[k] == ToUpperChar(s[k])
  {
    if s == "" then "" else [ToUpperChar(s[0])] + ToUpper(s[1..])
  }

  function ToLower(s: string): (r: string)
    ensures |r| == |s|
    ensures forall k :: 0 <= k < |s| ==> r[k] == ToLowerChar(s[k])
  {
    if s == "" then "" else [ToLowerChar(s[0])] + ToLower(s[1..])
  }

  lemma UpperFixed(s: string)
    requires forall k :: 0 <= k < |s| ==> !('a' <= s[k] <= 'z')
    ensures ToUpper(s) == s
  {
  }

  function TrimLeft(s: string): (r: string)
    ensures |r| <= |s| && r == s[|s| - |r|..]
    ensures forall k :: 0 <= k < |s| - |r| ==> IsSpace(s[k])
    ensures r != "" ==> !IsSpace(r[0])
  {
    if s != "" && IsSpace(s[0]) then TrimLeft(s[1..]) else s
  }

  function TrimRight(s: string): (r: string)
    ensures |r| <= |s| && r == s[..|r|]
    ensures forall k :: |r| <= k < |s| ==> IsSpace(s[k])
    ensures r != "" ==> !IsSpace(r[|r| - 1])
  {
    if s != "" && IsSpace(s[|s| - 1]) then TrimRight(s[..|s| - 1]) else s
  }

  /** strings.TrimSpace. */
  function Trim(s: string): string {
    TrimLeft(TrimRight(s))
  }

  predicate AllSpace(w: string) {
    forall i :: 0 <= i < |w| ==> IsSpace(w[i])
  }

  lemma LeftShape(s: string) returns (l: string)
    ensures s == l + TrimLeft(s) && AllSpace(l)
    ensures s != "" && !IsSpace(s[0]) ==> l == ""
  {
    var n := |s| - |TrimLeft(s)|;
    l := s[..n];
    assert s[n..] == TrimLeft(s);
  }

  lemma RightShape(s: string) returns (r: string)
    ensures s == TrimRight(s) + r && AllSpace(r)
  {
    var n := |TrimRight(s)|;
    r := s[n..];
    assert forall i :: 0 <= i < |r| ==> r[i] == s[n + i];
  }

  lemma TrimShape(s: string) returns (l: string, r: string)
    ensures s == l + Trim(s) + r && AllSpace(l) && AllSpace(r)
    ensures s != "" && !IsSpace(s[0]) ==> l == ""
  {
    r := RightShape(s);
    l := LeftShape(TrimRight(s));
    assert TrimRight(s) != "" ==> TrimRight(s)[0] == s[0];
  }

  lemma TrimEnd(s: string)
    ensures Trim(s) != "" ==> !IsSpace(Trim(s)[|Trim(s)| - 1])
  {
    var t := TrimRight(s);
    var u := TrimLeft(t);
    if u != "" { assert u[|u| - 1] == t[|t| - 1]; }
  }

  predicate AllBlank(s: string) {
    forall i :: 0 <= i < |s| ==> IsBlank(s[i])
  }

  /** A word in any case. */
  predicate IsWord(s: string, word: string) {
    ToUpper(s) == word
  }

  lemma {:induction false} TrimLeftOf(l: string, t: string)
    requires AllSpace(l) && (t != "" ==> !IsSpace(t[0]))
    ensures TrimLeft(l + t) == t
  {
    if l == "" { assert l + t == t; } else {
      assert (l + t)[1..] == l[1..] + t;
      TrimLeftOf(l[1..], t);
    }
  }

  lemma {:induction false} TrimRightOf(t: string, r: string)
    requires AllSpace(r) && t != "" && !IsSpace(t[|t| - 1])
    ensures TrimRight(t + r) == t
  {
    if r == "" { assert t + r == t; } else {
      var n := |r| - 1;
      assert (t + r)[..|t + r| - 1] == t + r[..n];
      TrimRightOf(t, r[..n]);
    }
  }

  lemma TrimOf(l: string, t: string, r: string)
    requires AllSpace(l) && AllSpace(r) && t != "" && !IsSpace(t[0]) && !IsSpace(t[|t| - 1])
    ensures Trim(l + t + r) == t
  {
    assert (l + t)[|l + t| - 1] == t[|t| - 1];
    TrimRightOf(l + t, r);
    TrimLeftOf(l, t);
  }

  lemma {:induction false} SkipBlankOf(b: string, t: string)
    requires AllBlank(b) && (t != "" ==> !IsBlank(t[0]))
    ensures SkipBlank(b + t) == t
  {
    if b == "" { assert b + t == t; } else {
      assert (b + t)[1..] == b[1..] + t;
      SkipBlankOf(b[1..], t);
    }
  }

  lemma {:induction false} BlanksBefore(s: string) returns (b: string)
    ensures s == b + SkipBlank(s) && AllBlank(b)
    ensures SkipBlank(s) != "" ==> !IsBlank(SkipBlank(s)[0])
  {
    if s != "" && IsBlank(s[0]) {
      b := BlanksBefore(s[1..]);
      b := [s[0]] + b;
    } else {
      b := "";
    }
  }

  predicate Distinct<T(==)>(s: seq<T>) {
    forall i, j :: 0 <= i < j < |s| ==> s[i] != s[j]
  }

  lemma ConsAppend<T>(a: seq<T>, b: seq<T>)
    requires a != []
    ensures [a[0]] + (a[1..] + b) == a + b
  {
  }

  lemma AppendAssoc<T>(a: seq<T>, b: seq<T>, c: seq<T>)
    ensures (a + b) + c == a + (b + c)
  {
  }
}

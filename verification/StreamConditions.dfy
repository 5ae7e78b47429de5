/** WHEN conditions of internal/task/task.go: the stream that a condition asks for. */
module StreamConditions {
  import opened Text

  function QuoteFree(s: string): (n: nat)
    ensures n <= |s|
  {
    if s == "" || s[0] == '\'' then 0 else 1 + QuoteFree(s[1..])
  }

  /** The argument list of the call, from the blanks on. */
  function NameIn(s: string): Option<string> {
    var t := SkipBlank(s);
    if t == "" || t[0] != '\'' then None
    else
      var n := QuoteFree(t[1..]);
      if n == 0 || n + 1 >= |t| then None
      else
        var u := SkipBlank(t[n + 2..]);
        if u != "" && u[0] == ')' then Some(t[1..n + 1]) else None
  }

  /** The stream named by SYSTEM$STREAM_HAS_DATA('...') at the start of s. */
  function StreamAt(s: string): Option<string> {
    var call := "SYSTEM$STREAM_HAS_DATA(";
    if |s| < |call| || ToUpper(s[..|call|]) != call then None else NameIn(s[|call|..])
  }

  /** The leftmost such call in a condition. */
  function StreamIn(condition: string): Option<string> {
    if StreamAt(condition).Some? then StreamAt(condition)
    else if condition == "" then None
    else StreamIn(condition[1..])
  }

  // ---- What a condition says ----

  /** The call with this stream's name, in any case and with any blanks inside, and
      whatever follows. */
  ghost predicate CallOf(
      s: string, word: string, call: string, b: string, name: string, b': string, rest: string) {
    && IsWord(call, word) && |call| == |word| && AllBlank(b) && AllBlank(b') && name != "" && '\'' !in name
    && s == call + (b + ("'" + (name + ("'" + (b' + (")" + rest))))))
  }

  ghost predicate StartsCall(s: string, name: string) {
    exists call, b, b', rest :: CallOf(s, "SYSTEM$STREAM_HAS_DATA(", call, b, name, b', rest)
  }

  lemma {:induction false} QuoteFreeOf(name: string, t: string)
    requires '\'' !in name && (t != "" ==> t[0] == '\'')
    ensures QuoteFree(name + t) == |name|
  {
    if name == "" { assert name + t == t; } else {
      assert (name + t)[1..] == name[1..] + t;
      QuoteFreeOf(name[1..], t);
    }
  }

  lemma {:induction false} QuoteFreeNone(s: string)
    ensures '\'' !in s[..QuoteFree(s)] && (QuoteFree(s) < |s| ==> s[QuoteFree(s)] == '\'')
  {
    if s != "" && s[0] != '\'' {
      QuoteFreeNone(s[1..]);
      assert s[..QuoteFree(s)] == [s[0]] + s[1..][..QuoteFree(s[1..])];
    }
  }

  lemma NameInOf(s: string, b: string, name: string, b': string, rest: string)
    requires AllBlank(b) && AllBlank(b') && name != "" && '\'' !in name
    requires s == b + ("'" + (name + ("'" + (b' + (")" + rest)))))
    ensures NameIn(s) == Some(name)
  {
    var v := b' + (")" + rest);
    var t := "'" + (name + ("'" + v));
    SkipBlankOf(b, t);
    assert t[1..] == name + ("'" + v);
    QuoteFreeOf(name, "'" + v);
    assert t[|name| + 2..] == v && t[1..|name| + 1] == name;
    SkipBlankOf(b', ")" + rest);
  }

  lemma NameInSplit(s: string) returns (b: string, b': string, rest: string)
    requires NameIn(s).Some?
    ensures var name := NameIn(s).value;
      && AllBlank(b) && AllBlank(b') && name != "" && '\'' !in name
      && s == b + ("'" + (name + ("'" + (b' + (")" + rest)))))
  {
    var t := SkipBlank(s);
    var n := QuoteFree(t[1..]);
    b := BlanksBefore(s);
    QuotedSplit(t, n);
    b', rest := CloseSplit(t[n + 2..]);
  }

  lemma CloseSplit(v: string) returns (b: string, rest: string)
    requires var u := SkipBlank(v); u != "" && u[0] == ')'
    ensures v == b + (")" + rest) && AllBlank(b)
  {
    b := BlanksBefore(v);
    rest := SkipBlank(v)[1..];
    assert SkipBlank(v) == ")" + rest;
  }

  lemma QuotedSplit(t: string, n: nat)
    requires t != "" && t[0] == '\'' && n == QuoteFree(t[1..]) && n + 1 < |t|
    ensures t == "'" + (t[1..n + 1] + ("'" + t[n + 2..])) && '\'' !in t[1..n + 1]
  {
    QuoteFreeNone(t[1..]);
    assert t[1..][..n] == t[1..n + 1];
  }

  /** A text starts with the call exactly if it is read so. */
  lemma StartsCallIff(s: string, name: string)
    ensures StreamAt(s) == Some(name) <==> StartsCall(s, name)
  {
    if StartsCall(s, name) {
      var call, b, b', rest :| CallOf(s, "SYSTEM$STREAM_HAS_DATA(", call, b, name, b', rest);
      AtCall(s, "SYSTEM$STREAM_HAS_DATA(", call, s[|call|..]);
      NameInOf(s[|call|..], b, name, b', rest);
    }
    if StreamAt(s) == Some(name) {
      var call := s[..|"SYSTEM$STREAM_HAS_DATA("|];
      var b, b', rest := NameInSplit(s[|call|..]);
      assert CallOf(s, "SYSTEM$STREAM_HAS_DATA(", call, b, name, b', rest);
    }
  }

  lemma AtCall(s: string, word: string, call: string, rest: string)
    requires s == call + rest && IsWord(call, word) && |call| == |word|
    ensures s[..|word|] == call && s[|word|..] == rest
  {
  }

  /** The call stands at position i. */
  ghost predicate CallAt(s: string, i: nat, name: string) {
    i <= |s| && StartsCall(s[i..], name)
  }

  ghost predicate NoCallBefore(s: string, i: nat) {
    forall j: nat, name :: j < i ==> !CallAt(s, j, name)
  }

  /** The condition asks for the stream of the leftmost call in it, if there is one. */
  lemma {:induction false} StreamInIff(s: string) returns (i: nat)
    ensures NoCallBefore(s, i)
    ensures match StreamIn(s)
            case Some(name) => CallAt(s, i, name)
            case None => i > |s|
  {
    assert s[0..] == s;
    forall name ensures StreamAt(s) == Some(name) <==> CallAt(s, 0, name) { StartsCallIff(s, name); }
    if StreamAt(s).Some? {
      i := 0;
    } else if s == "" {
      i := 1;
    } else {
      var rest := StreamInIff(s[1..]);
      i := rest + 1;
      forall j: nat, name | j < i ensures !CallAt(s, j, name) {
        if j > 0 { CallLater(s, j, j - 1, name); }
      }
      if StreamIn(s).Some? { CallLater(s, i, rest, StreamIn(s).value); }
    }
  }

  lemma CallLater(s: string, i: nat, j: nat, name: string)
    requires s != "" && i == j + 1
    ensures CallAt(s, i, name) <==> CallAt(s[1..], j, name)
  {
    if j <= |s[1..]| { assert s[1..][j..] == s[i..]; }
  }

  lemma LeftmostCall(s: string, i: nat, name: string)
    requires CallAt(s, i, name) && NoCallBefore(s, i)
    ensures StreamIn(s) == Some(name)
  {
    var first := StreamInIff(s);
    StartsCallIff(s[i..], name);
    if StreamIn(s).Some? { StartsCallIff(s[i..], StreamIn(s).value); }
  }

  lemma NoCall(s: string)
    requires forall i, name :: !CallAt(s, i, name)
    ensures StreamIn(s) == None
  {
    var first := StreamInIff(s);
  }
}

/** Where internal/rewriter/rewriter.go finds a call: the pattern \bNAME\s*\( in
    any case, and texts in which it does not occur. */
module CallSearch {
  import opened Text

  /** What the pattern \w matches. */
  predicate IsWordChar(c: char) {
    IsDigit(c) || 'a' <= c <= 'z' || 'A' <= c <= 'Z' || c == '_'
  }

  predicate IsName(name: string) {
    name != "" && forall k :: 0 <= k < |name| ==> IsWordChar(name[k])
  }

  /** Blanks, perhaps none, and then a parenthesis. */
  predicate OpensAt(s: string, j: nat)
    decreases |s| - j
  {
    j < |s| && (s[j] == '(' || (IsBlank(s[j]) && OpensAt(s, j + 1)))
  }

  predicate NameAt(s: string, i: nat, name: string) {
    i + |name| <= |s| && forall k :: 0 <= k < |name| ==> ToUpperChar(s[i + k]) == name[k]
  }

  /** The pattern matches at i. */
  predicate At(s: string, i: nat, name: string) {
    NameAt(s, i, name) && (i == 0 || !IsWordChar(s[i - 1])) && OpensAt(s, i + |name|)
  }

  /** The leftmost match from i on. */
  function FindFrom(s: string, name: string, i: nat): (r: Option<nat>)
    ensures r.Some? ==> r.value >= i && At(s, r.value, name) && forall j :: i <= j < r.value ==> !At(s, j, name)
    ensures r.None? ==> forall j :: j >= i ==> !At(s, j, name)
    decreases |s| - i
  {
    if i > |s| then None else if At(s, i, name) then Some(i) else FindFrom(s, name, i + 1)
  }

  ghost predicate Quiet(s: string, name: string) {
    forall i: nat :: !At(s, i, name)
  }

  /** A text before which a call may be put: no match starts in it, even if a
      parenthesis follows, and no word is left open. */
  ghost predicate Lead(s: string, name: string) {
    Quiet(s + "(", name) && (s == "" || !IsWordChar(s[|s| - 1]))
  }

  /** A text that ends any word or match before it. */
  predicate Joint(p: string) {
    p != "" && !IsWordChar(p[0]) && SkipBlank(p) != "" && SkipBlank(p)[0] != '('
  }

  // ---- Joining texts ----

  lemma {:induction false} OpensShift(a: string, b: string, j: nat)
    ensures OpensAt(a + b, |a| + j) <==> OpensAt(b, j)
    decreases |b| - j
  {
    if j < |b| { OpensShift(a, b, j + 1); }
  }

  lemma NameShift(a: string, b: string, i: nat, name: string)
    ensures NameAt(a + b, |a| + i, name) <==> NameAt(b, i, name)
  {
    if i + |name| <= |b| {
      forall k | 0 <= k < |name|
        ensures ToUpperChar((a + b)[|a| + i + k]) == name[k] <==> ToUpperChar(b[i + k]) == name[k]
      {
      }
    }
  }

  lemma AtShift(a: string, b: string, i: nat, name: string)
    requires At(a + b, |a| + i, name)
    ensures At(b, i, name)
  {
    OpensShift(a, b, i + |name|);
    NameShift(a, b, i, name);
    if i > 0 { assert (a + b)[|a| + i - 1] == b[i - 1]; }
  }

  lemma {:induction false} OpensBefore(a: string, b: string, j: nat)
    requires j <= |a| && OpensAt(a + b, j) && (b == "" || !IsBlank(b[0]))
    ensures OpensAt(a + "(", j)
    decreases |a| - j
  {
    if j < |a| && (a + b)[j] != '(' { OpensBefore(a, b, j + 1); }
  }

  lemma NameIsWord(s: string, i: nat, name: string)
    requires IsName(name) && NameAt(s, i, name)
    ensures i < |s| && IsWordChar(s[i]) && forall m :: i <= m < i + |name| ==> IsWordChar(s[m])
  {
    forall m | i <= m < i + |name| ensures IsWordChar(s[m]) {
      assert ToUpperChar(s[i + (m - i)]) == name[m - i];
    }
  }

  lemma NameWithin(a: string, b: string, i: nat, name: string)
    requires IsName(name) && NameAt(a + b, i, name) && i < |a|
    requires !IsWordChar(a[|a| - 1]) || b == "" || !IsWordChar(b[0])
    ensures i + |name| <= |a| && NameAt(a, i, name) && NameAt(a + "(", i, name)
  {
    var s := a + b;
    NameIsWord(s, i, name);
    assert s[|a| - 1] == a[|a| - 1] && (b != "" ==> s[|a|] == b[0]);
    forall k | 0 <= k < |name|
      ensures ToUpperChar(a[i + k]) == name[k] && ToUpperChar((a + "(")[i + k]) == name[k]
    {
      assert s[i + k] == a[i + k];
    }
  }

  /** A match before the end of a leading text would be one in it. */
  lemma LeadBlocks(a: string, b: string, i: nat, name: string)
    requires IsName(name) && Lead(a, name) && (b == "" || !IsBlank(b[0])) && i < |a|
    ensures !At(a + b, i, name)
  {
    assert !At(a + "(", i, name);
    if At(a + b, i, name) {
      NameWithin(a, b, i, name);
      OpensBefore(a, b, i + |name|);
    }
  }

  lemma QuietAfterLead(a: string, b: string, name: string)
    requires IsName(name) && Lead(a, name) && Quiet(b, name) && (b == "" || !IsBlank(b[0]))
    ensures Quiet(a + b, name)
  {
    forall i: nat ensures !At(a + b, i, name) {
      if i < |a| {
        LeadBlocks(a, b, i, name);
      } else if At(a + b, i, name) {
        AtShift(a, b, i - |a|, name);
      }
    }
  }

  lemma LeadAfterLead(a: string, b: string, name: string)
    requires IsName(name) && Lead(a, name) && Lead(b, name) && (b == "" || !IsBlank(b[0]))
    ensures Lead(a + b, name)
  {
    QuietAfterLead(a, b + "(", name);
    assert a + (b + "(") == (a + b) + "(";
    if b == "" { assert a + b == a; } else { assert (a + b)[|a + b| - 1] == b[|b| - 1]; }
  }

  lemma {:induction false} OpensInside(a: string, p: string, j: nat)
    requires j <= |a| && OpensAt(a + p, j) && Joint(p)
    ensures OpensAt(a, j)
    decreases |a| - j
  {
    if j == |a| {
      OpensShift(a, p, 0);
      JointShut(p, 0);
      assert false;
    } else if (a + p)[j] != '(' {
      OpensInside(a, p, j + 1);
    }
  }

  lemma {:induction false} JointShut(p: string, j: nat)
    requires j < |p| && SkipBlank(p[j..]) != "" && SkipBlank(p[j..])[0] != '('
    ensures !OpensAt(p, j)
    decreases |p| - j
  {
    assert p[j..][1..] == p[j + 1..];
    if IsBlank(p[j]) { JointShut(p, j + 1); }
  }

  lemma QuietThenJoint(a: string, p: string, name: string)
    requires IsName(name) && Quiet(a, name) && Quiet(p, name) && Joint(p)
    ensures Quiet(a + p, name)
  {
    forall i: nat ensures !At(a + p, i, name) {
      assert !At(a, i, name);
      if At(a + p, i, name) {
        if i < |a| {
          NameWithin(a, p, i, name);
          OpensInside(a, p, i + |name|);
        } else {
          AtShift(a, p, i - |a|, name);
        }
      }
    }
  }

  lemma {:induction false} SkipBlankGrows(p: string, q: string)
    requires SkipBlank(p) != ""
    ensures SkipBlank(p + q) == SkipBlank(p) + q
  {
    if IsBlank(p[0]) {
      assert (p + q)[1..] == p[1..] + q;
      SkipBlankGrows(p[1..], q);
    }
  }

  lemma LeadThenJoint(a: string, p: string, name: string)
    requires IsName(name) && Quiet(a, name) && Lead(p, name) && Joint(p)
    ensures Lead(a + p, name)
  {
    SkipBlankGrows(p, "(");
    assert (p + "(")[0] == p[0];
    QuietThenJoint(a, p + "(", name);
    assert a + (p + "(") == (a + p) + "(";
    assert (a + p)[|a + p| - 1] == p[|p| - 1];
  }

  // ---- Where a call is found ----

  /** After a leading text the call written there is the first. */
  lemma FoundAfterLead(pre: string, word: string, tail: string, name: string, s: string, start: nat)
    requires IsName(name) && Lead(pre, name) && ToUpper(word) == name && tail != "" && tail[0] == '('
    requires s == pre + (word + tail) && start == |pre|
    ensures FindFrom(s, name, 0) == Some(start)
  {
    var rest := word + tail;
    WordChars(word, name);
    forall i | 0 <= i < |pre| ensures !At(s, i, name) { LeadBlocks(pre, rest, i, name); }
    NameShift(pre, rest, 0, name);
    OpensShift(pre, rest, |name|);
    assert rest[|name|] == '(' && OpensAt(rest, |name|);
    assert NameAt(rest, 0, name);
    assert At(s, |pre|, name);
  }

  lemma WordChars(word: string, name: string)
    requires IsName(name) && ToUpper(word) == name
    ensures |word| == |name| && !IsBlank(word[0]) && forall k :: 0 <= k < |word| ==> IsWordChar(word[k])
  {
    forall k | 0 <= k < |word| ensures IsWordChar(word[k]) { assert ToUpper(word)[k] == ToUpperChar(word[k]); }
  }

  // ---- Texts that are quiet ----

  lemma NoWordQuiet(s: string, name: string)
    requires IsName(name) && forall k :: 0 <= k < |s| ==> !IsWordChar(s[k])
    ensures Quiet(s, name)
  {
    forall i: nat ensures !At(s, i, name) {
      if NameAt(s, i, name) { NameIsWord(s, i, name); }
    }
  }

  lemma {:induction false} ParenNeeded(s: string, j: nat)
    requires OpensAt(s, j)
    ensures exists k :: j <= k < |s| && s[k] == '(' && forall m :: j <= m < k ==> IsBlank(s[m])
    decreases |s| - j
  {
    if s[j] != '(' { ParenNeeded(s, j + 1); }
  }

  lemma NoParenQuiet(s: string, name: string)
    requires forall k :: 0 <= k < |s| ==> s[k] != '('
    ensures Quiet(s, name)
  {
    forall i: nat ensures !At(s, i, name) {
      if At(s, i, name) { ParenNeeded(s, i + |name|); }
    }
  }

  /** A text of words that ends with a blank, its last word not ending like the name. */
  lemma WordsLead(s: string, name: string)
    requires IsName(name) && |name| >= 2 && |s| >= 3 && IsBlank(s[|s| - 1]) && forall k :: 0 <= k < |s| ==> s[k] != '('
    requires IsWordChar(s[|s| - 2]) && IsWordChar(s[|s| - 3])
    requires ToUpperChar(s[|s| - 2]) != name[|name| - 1] || ToUpperChar(s[|s| - 3]) != name[|name| - 2]
    ensures Lead(s, name)
  {
    var t := s + "(";
    forall i: nat ensures !At(t, i, name) {
      var j := i + |name|;
      assert NameAt(t, i, name) ==>
        ToUpperChar(t[i + (|name| - 1)]) == name[|name| - 1] && ToUpperChar(t[i + (|name| - 2)]) == name[|name| - 2];
      assert j >= 1 && j <= |s| ==> t[j - 1] == s[j - 1];
      assert !IsBlank(t[|s| - 2]) && t[|s| - 2] != '(';
      if At(t, i, name) { BlanksBefore(t, j, |s|); }
    }
  }

  /** Between a name and the only parenthesis there are blanks. */
  lemma {:induction false} BlanksBefore(t: string, j: nat, k: nat)
    requires OpensAt(t, j) && k < |t| && forall m :: 0 <= m < |t| && m != k ==> t[m] != '('
    ensures j <= k && forall m :: j <= m < k ==> IsBlank(t[m])
    decreases |t| - j
  {
    if t[j] != '(' { BlanksBefore(t, j + 1, k); }
  }

  /** Another function's name, its parenthesis, and any operand. */
  lemma OtherNameLead(word: string, name: string)
    requires IsName(name) && IsName(word) && ToUpper(word) != name
    ensures Lead(word + "(", name) && Quiet(word + "()", name)
  {
    NameBlocks(word, "((", name);
    NameBlocks(word, "()", name);
    assert (word + "(") + "(" == word + "((";
  }

  lemma NameBlocks(word: string, tail: string, name: string)
    requires IsName(name) && IsName(word) && ToUpper(word) != name
    requires forall k :: 0 <= k < |tail| ==> !IsWordChar(tail[k])
    ensures Quiet(word + tail, name)
  {
    var s := word + tail;
    forall i: nat ensures !At(s, i, name) {
      var j := i + |name|;
      assert 0 < i <= |word| ==> s[i - 1] == word[i - 1];
      assert |word| < j <= |s| ==> s[j - 1] == tail[j - 1 - |word|];
      assert j < |word| ==> s[j] == word[j];
      if NameAt(s, i, name) {
        NameIsWord(s, i, name);
        if i == 0 && |name| == |word| { SameName(word, tail, name); }
      }
    }
  }

  lemma SameName(word: string, tail: string, name: string)
    requires NameAt(word + tail, 0, name) && |name| == |word|
    ensures ToUpper(word) == name
  {
    forall k | 0 <= k < |name| ensures ToUpper(word)[k] == name[k] {
      assert (word + tail)[0 + k] == word[k];
    }
  }
}

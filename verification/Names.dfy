/** Qualified names, database.schema.name, as the maps of the engines are keyed. */
module Names {
  import opened Text

  lemma FirstAt(a: string, c: char, b: string, s: string)
    requires c !in a && s == a + [c] + b
    ensures s[|a|] == c && forall i :: 0 <= i < |a| ==> s[i] != c
  {
    forall i | 0 <= i < |a| ensures s[i] != c { assert s[i] in a; }
  }

  /** A text is cut at its first c in one way only. */
  lemma CutOnce(a: string, b: string, a': string, b': string, c: char)
    requires c !in a && c !in a' && a + [c] + b == a' + [c] + b'
    ensures a == a' && b == b'
  {
    var s := a + [c] + b;
    FirstAt(a, c, b, s);
    FirstAt(a', c, b', s);
    assert s[..|a|] == a && s[..|a'|] == a' && s[|a| + 1..] == b && s[|a'| + 1..] == b';
  }

  /** Three names with dots between them. */
  function Dotted(a: string, b: string, c: string): string {
    a + "." + b + "." + c
  }

  /** Different names without dots give different texts. */
  lemma DottedOnce(a: string, b: string, c: string, a': string, b': string, c': string, d: string)
    requires '.' !in a && '.' !in b && '.' !in a' && '.' !in b'
    requires d == Dotted(a, b, c) == Dotted(a', b', c')
    ensures a == a' && b == b' && c == c'
  {
    var (e, e') := (b + ['.'] + c, b' + ['.'] + c');
    assert d == a + ['.'] + e && d == a' + ['.'] + e';
    CutOnce(a, e, a', e', '.');
    CutOnce(b, c, b', c', '.');
  }

  /** The key of a task or a stream. */
  function Key(database: string, schema: string, name: string): string {
    ToLower(Dotted(database, schema, name))
  }

  lemma {:induction false} LowerAppend(a: string, b: string)
    ensures ToLower(a + b) == ToLower(a) + ToLower(b)
  {
  }

  /** A key is the folded names with dots between them. */
  lemma KeyFolds(a: string, b: string, c: string)
    ensures Key(a, b, c) == Dotted(ToLower(a), ToLower(b), ToLower(c))
  {
    LowerAppend(a + "." + b + ".", c);
    LowerAppend(a + "." + b, ".");
    LowerAppend(a + ".", b);
    LowerAppend(a, ".");
  }
}

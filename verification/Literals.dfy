/** The literal printer of internal/binding/binding.go, and why every literal
    it prints is read back by the scanner on its own terms. */
module Literals {
  import opened Text
  import opened Scanner

  /** The JSON text of a bind value, as far as the binder looks at it. */
  datatype Json =
    | Null                     // null, or no text at all
    | Array(elems: seq<Json>)
    | BrokenArray              // starts with '[' but does not parse
    | Str(v: string)
    | Other                    // any JSON that is not a string

  datatype Binding = Binding(typ: string, value: Json)

  datatype Float = Unparsable | NotANumber | PosInfinity | NegInfinity | Finite(text: string)

  datatype BindType = Fixed | Real | Boolean | Date | Time | TimestampNtz | TimestampTz | Binary | Text

  /** TEXT, ANY and every unknown type name bind as strings. */
  function TypeOf(name: string): BindType {
    var typ := ToUpper(name);
    if typ == "FIXED" then Fixed
    else if typ == "REAL" then Real
    else if typ == "BOOLEAN" then Boolean
    else if typ == "DATE" then Date
    else if typ == "TIME" then Time
    else if typ == "TIMESTAMP_NTZ" then TimestampNtz
    else if typ == "TIMESTAMP_LTZ" || typ == "TIMESTAMP_TZ" then TimestampTz
    else if typ == "BINARY" then Binary
    else Text
  }

  /** strconv.ParseFloat with FormatFloat, and time.Time.Format. */
  datatype Library = Library(
    float: string -> Float,
    date: int -> string,
    time: int -> string,
    stamp: int -> string,
    stampTz: int -> string)
  {
    /** FormatFloat prints a plain decimal with at most a minus sign. */
    ghost predicate Valid() {
      forall v :: float(v).Finite? ==> IsDecimal(float(v).text)
    }
  }

  /** ([eE][+-]?\d+)?$ */
  predicate IsExponent(s: string) {
    s == "" || ((s[0] == 'e' || s[0] == 'E') && IsInt(s[1..]))
  }

  predicate IsUnsigned(u: string) {
    var r := u[DigitRun(u)..];
    if r != "" && r[0] == '.' then
      var f := DigitRun(r[1..]);
      (DigitRun(u) > 0 || f > 0) && IsExponent(r[1 + f..])
    else
      DigitRun(u) > 0 && IsExponent(r)
  }

  /** ^[+-]?(\d+(\.\d*)?|\.\d+)([eE][+-]?\d+)?$ */
  predicate IsDecimal(v: string) {
    IsUnsigned(AfterSign(v))
  }

  predicate IsHexDigit(c: char) {
    IsDigit(c) || 'a' <= c <= 'f' || 'A' <= c <= 'F'
  }

  function UpToSpace(v: string): (r: string)
    ensures |r| <= |v| && v[..|r|] == r && ' ' !in r && (|r| < |v| ==> v[|r|] == ' ')
  {
    if v == "" || v[0] == ' ' then "" else [v[0]] + UpToSpace(v[1..])
  }

  /** epochNanos: "<nanos>" or "<nanos> <tzIndex>" within the int64 range. */
  function EpochNanos(v: string): Option<int> {
    Atoi(UpToSpace(v))
  }

  function DoubleQuotes(s: string): string {
    if s == "" then "" else (if s[0] == '\'' then "''" else [s[0]]) + DoubleQuotes(s[1..])
  }

  function Quote(s: string): string {
    "'" + DoubleQuotes(s) + "'"
  }

  function ParenNegative(s: string): string {
    if s != "" && s[0] == '-' then "(" + s + ")"
    else if s != "" && s[0] == '+' then s[1..]
    else s
  }

  function Literal(b: Binding, lib: Library): Result<string> {
    match b.value
    case Null => Ok("NULL")
    case Array(_) => Err("array bindings are not supported")
    case BrokenArray => Err("array bindings are not supported")
    case Other => Err("invalid bind value")
    case Str(v) => Scalar(TypeOf(b.typ), v, lib)
  }

  function BoolValue(w: string): Option<bool> {
    if w in ["true", "1", "t", "yes", "y", "on"] then Some(true)
    else if w in ["false", "0", "f", "no", "n", "off"] then Some(false)
    else None
  }

  predicate IsTemporal(typ: BindType) {
    typ.Date? || typ.Time? || typ.TimestampNtz? || typ.TimestampTz?
  }

  function BoolText(b: bool): string {
    if b then "TRUE" else "FALSE"
  }

  /** A number of milliseconds or nanoseconds becomes a date or time of day;
      any other text is passed on. */
  function TemporalText(typ: BindType, v: string, lib: Library): string
    requires IsTemporal(typ)
  {
    match typ
    case Date => if IsInt(v) then lib.date(Clamped(IntValue(v))) else v
    case Time => if IsInt(v) then lib.time(Clamped(IntValue(v))) else v
    case TimestampNtz => (match EpochNanos(v) case Some(n) => lib.stamp(n) case None => v)
    case TimestampTz => (match EpochNanos(v) case Some(n) => lib.stampTz(n) case None => v)
  }

  function CastType(typ: BindType): string
    requires IsTemporal(typ)
  {
    match typ
    case Date => "DATE"
    case Time => "TIME"
    case TimestampNtz => "TIMESTAMP"
    case TimestampTz => "TIMESTAMPTZ"
  }

  function Scalar(typ: BindType, v: string, lib: Library): Result<string> {
    match typ
    case Fixed =>
      if IsInt(v) || IsDecimal(v) then Ok(ParenNegative(v)) else Err("cannot bind value")
    case Real =>
      (match lib.float(v)
       case Unparsable => Err("cannot bind value")
       case NotANumber => Ok(AsDouble(Quote("NaN")))
       case PosInfinity => Ok(AsDouble(Quote("Infinity")))
       case NegInfinity => Ok(AsDouble(Quote("-Infinity")))
       case Finite(text) => Ok(AsDouble(ParenNegative(text))))
    case Boolean =>
      (match BoolValue(ToLower(v))
       case Some(b) => Ok(BoolText(b))
       case None => Err("cannot bind value"))
    case Date => Ok(CastTo(TemporalText(typ, v, lib), CastType(typ)))
    case Time => Ok(CastTo(TemporalText(typ, v, lib), CastType(typ)))
    case TimestampNtz => Ok(CastTo(TemporalText(typ, v, lib), CastType(typ)))
    case TimestampTz => Ok(CastTo(TemporalText(typ, v, lib), CastType(typ)))
    case Binary =>
      if |v| % 2 == 0 && forall i :: 0 <= i < |v| ==> IsHexDigit(v[i])
      then Ok("from_hex(" + Quote(v) + ")") else Err("cannot bind value")
    case Text =>
      Ok(Quote(v))
  }

  function CastTo(text: string, typ: string): string {
    "CAST(" + Quote(text) + " AS " + typ + ")"
  }

  function AsDouble(t: string): string {
    t + "::" + "DOUBLE"
  }

  // ---- A quoted string reads back as the bound text ----

  /** The value of a SQL string literal, None when t is not exactly one. */
  function ReadString(t: string): Option<string> {
    if t != "" && t[0] == '\'' then ReadBody(t[1..]) else None
  }

  function ReadBody(s: string): Option<string> {
    if s == "" then None
    else if s[0] != '\'' then
      match ReadBody(s[1..]) { case Some(r) => Some([s[0]] + r) case None => None }
    else if s == "'" then Some("")
    else if s[1] == '\'' then
      match ReadBody(s[2..]) { case Some(r) => Some("'" + r) case None => None }
    else None
  }

  lemma {:induction false} BodyRoundTrip(s: string)
    ensures ReadBody(DoubleQuotes(s) + "'") == Some(s)
  {
    if s != "" {
      BodyRoundTrip(s[1..]);
      var rest := DoubleQuotes(s[1..]) + "'";
      var t := DoubleQuotes(s) + "'";
      if s[0] == '\'' {
        assert t == "''" + rest;
        assert t[2..] == rest;
        assert s == "'" + s[1..];
      } else {
        assert t == [s[0]] + rest;
        assert t[1..] == rest;
        assert s == [s[0]] + s[1..];
      }
    }
  }

  lemma {:induction false} BodyIsQuoted(t: string)
    requires ReadBody(t).Some?
    ensures t == DoubleQuotes(ReadBody(t).value) + "'"
  {
    if t[0] != '\'' {
      BodyIsQuoted(t[1..]);
      var r := ReadBody(t[1..]).value;
      assert ([t[0]] + r)[1..] == r;
    } else if t == "'" {
    } else {
      BodyIsQuoted(t[2..]);
      var r := ReadBody(t[2..]).value;
      assert ("'" + r)[1..] == r;
      assert t == "''" + t[2..];
    }
  }

  /** quote is the exact inverse of reading a SQL string literal. */
  lemma QuoteRoundTrip(s: string, t: string)
    ensures ReadString(t) == Some(s) <==> t == Quote(s)
  {
    BodyRoundTrip(s);
    assert Quote(s)[1..] == DoubleQuotes(s) + "'";
    if ReadString(t) == Some(s) {
      BodyIsQuoted(t[1..]);
      assert t == "'" + t[1..];
    }
  }

  // ---- Every literal is a closed piece of text ----

  /** A reading that no context before or after it disturbs, except that a
      final quote must not be doubled by the next character. */
  ghost predicate Closed(segs: seq<Segment>) {
    forall pi, tail ::
      (EndsQuote(Spell(segs)) && tail != "" ==> tail[0] != '\'') ==> Reads(pi, segs, tail)
  }

  predicate EndsQuote(t: string) {
    t != "" && t[|t| - 1] == '\''
  }

  lemma ClosedAppend(a: seq<Segment>, b: seq<Segment>)
    requires Closed(a) && Closed(b)
    requires Spell(b) != ""
    requires EndsQuote(Spell(a)) ==> Spell(b)[0] != '\''
    ensures Closed(a + b)
    ensures Spell(a + b) == Spell(a) + Spell(b)
  {
    SpellAppend(a, b);
    forall pi, tail | EndsQuote(Spell(a + b)) && tail != "" ==> tail[0] != '\''
      ensures Reads(pi, a + b, tail)
    {
      ReadsAppend(pi, a, b, tail);
    }
  }

  /** Text without quotes, colons, dollars or comment openers. */
  predicate QuietRun(t: string) {
    t == "" || ((Quiet(t[0]) || (t[0] == '-' && |t| > 1 && Quiet(t[1]))) && QuietRun(t[1..]))
  }

  function Plains(t: string): (segs: seq<Segment>)
    ensures |segs| == |t|
  {
    if t == "" then [] else [Plain(t[0])] + Plains(t[1..])
  }

  lemma {:induction false} PlainsSpell(t: string)
    ensures Spell(Plains(t)) == t
  {
    if t != "" {
      PlainsSpell(t[1..]);
      assert t == [t[0]] + t[1..];
    }
  }

  lemma {:induction false} PlainsRead(pi: bool, t: string, tail: string)
    requires QuietRun(t)
    ensures Reads(pi, Plains(t), tail)
    decreases |t|
  {
    if t != "" {
      PlainsSpell(t[1..]);
      var s := [t[0]] + (t[1..] + tail);
      assert t[0] == '-' ==> s[1] == t[1];
      assert SpecialLen(s) == 0;
      PlainsRead(EndsIdent(Plain(t[0])), t[1..], tail);
    }
  }

  lemma PlainsClosed(t: string)
    requires QuietRun(t)
    ensures Closed(Plains(t)) && Spell(Plains(t)) == t
  {
    PlainsSpell(t);
    forall pi, tail ensures Reads(pi, Plains(t), tail) {
      PlainsRead(pi, t, tail);
    }
  }

  lemma {:induction false} DoubledLen(s: string, tail: string)
    requires tail != "" ==> tail[0] != '\''
    ensures QuotedLen(DoubleQuotes(s) + "'" + tail, '\'') == |DoubleQuotes(s)| + 1
  {
    var t := DoubleQuotes(s) + "'" + tail;
    if s != "" {
      DoubledLen(s[1..], tail);
      var rest := DoubleQuotes(s[1..]) + "'" + tail;
      if s[0] == '\'' {
        assert t == "''" + rest;
        assert t[2..] == rest;
      } else {
        assert t == [s[0]] + rest;
        assert t[1..] == rest;
      }
    }
  }

  lemma QuoteClosed(s: string)
    ensures Closed([Special(Quote(s))]) && Spell([Special(Quote(s))]) == Quote(s)
  {
    var segs := [Special(Quote(s))];
    assert Spell(segs[1..]) == "";
    assert Spell(segs) == Quote(s);
    forall pi, tail | tail != "" ==> tail[0] != '\'' ensures Reads(pi, segs, tail) {
      DoubledLen(s, tail);
      var t := Quote(s) + ("" + tail);
      assert t[1..] == DoubleQuotes(s) + "'" + tail;
      assert t[..|Quote(s)|] == Quote(s);
    }
  }

  lemma CastClosed()
    ensures Closed([Cast]) && Spell([Cast]) == "::"
  {
    var segs := [Cast];
    assert Spell(segs[1..]) == "";
    forall pi, tail ensures Reads(pi, segs, tail) {
      assert SpecialLen("::" + ("" + tail)) == 0;
    }
  }

  lemma {:induction false} QuietAppend(a: string, b: string)
    requires QuietRun(a) && QuietRun(b)
    ensures QuietRun(a + b)
  {
    if a == "" {
      assert a + b == b;
    } else {
      assert (a + b)[1..] == a[1..] + b;
      QuietAppend(a[1..], b);
    }
  }

  lemma {:induction false} DigitsQuiet(s: string)
    requires DigitRun(s) == |s|
    ensures QuietRun(s)
  {
    if s != "" {
      DigitsQuiet(s[1..]);
    }
  }

  lemma {:induction false} DigitPrefixQuiet(s: string)
    ensures QuietRun(s[..DigitRun(s)])
  {
    var t := s[..DigitRun(s)];
    if t != "" {
      DigitPrefixQuiet(s[1..]);
      assert t[1..] == s[1..][..DigitRun(s[1..])];
    }
  }

  lemma ExponentQuiet(s: string)
    requires IsExponent(s)
    ensures QuietRun(s)
  {
    if s != "" {
      DigitsQuiet(AfterSign(s[1..]));
    }
  }

  /** What may follow the digits before the point. */
  predicate IsFraction(r: string) {
    IsExponent(r) || (r != "" && r[0] == '.' && IsExponent(r[1 + DigitRun(r[1..])..]))
  }

  lemma FractionQuiet(r: string)
    requires IsFraction(r)
    ensures QuietRun(r)
  {
    if IsExponent(r) {
      ExponentQuiet(r);
    } else {
      var f, x := r[1..][..DigitRun(r[1..])], r[1 + DigitRun(r[1..])..];
      DigitPrefixQuiet(r[1..]);
      ExponentQuiet(x);
      QuietAppend(f, x);
      assert r[1..] == f + x;
    }
  }

  lemma UnsignedQuiet(u: string)
    requires IsUnsigned(u)
    ensures QuietRun(u)
  {
    var a, r := u[..DigitRun(u)], u[DigitRun(u)..];
    DigitPrefixQuiet(u);
    UnsignedFraction(u);
    FractionQuiet(r);
    QuietAppend(a, r);
    assert u == a + r;
  }

  lemma UnsignedFraction(u: string)
    requires IsUnsigned(u)
    ensures IsFraction(u[DigitRun(u)..])
    ensures IsDigit(u[0]) || u[0] == '.'
  {
    assert DigitRun(u) == 0 ==> u[0..] == u;
  }

  lemma NumberQuiet(v: string)
    requires IsInt(v) || IsDecimal(v)
    ensures var t := ParenNegative(v); t != "" && QuietRun(t) && Quiet(t[0])
  {
    var u := AfterSign(v);
    if IsInt(v) { DigitsQuiet(u); } else { UnsignedQuiet(u); UnsignedFraction(u); }
    if v[0] == '-' {
      assert v == "-" + u;
      QuietAppend("(", v);
      QuietAppend("(" + v, ")");
    }
  }

  /** The scanner's own reading of t stands in any context. */
  ghost predicate Sealed(t: string) {
    t != "" && Closed(Lex(false, t)) && Spell(Lex(false, t)) == t
  }

  ghost predicate SelfContained(t: string) {
    Sealed(t) && LiteralStart(t[0])
  }

  lemma ClosedIsSealed(segs: seq<Segment>)
    requires Closed(segs) && Spell(segs) != ""
    ensures Sealed(Spell(segs)) && Lex(false, Spell(segs)) == segs
  {
    assert Reads(false, segs, "");
    ReadsIsLex(false, segs, "");
    assert Spell(segs) + "" == Spell(segs);
    assert segs + [] == segs;
  }

  lemma SealedAppend(a: string, b: string)
    requires Sealed(a) && Sealed(b)
    requires EndsQuote(a) ==> b[0] != '\''
    ensures Sealed(a + b)
  {
    ClosedAppend(Lex(false, a), Lex(false, b));
    ClosedIsSealed(Lex(false, a) + Lex(false, b));
  }

  lemma QuietSealed(t: string)
    requires t != "" && QuietRun(t)
    ensures Sealed(t)
  {
    PlainsClosed(t);
    ClosedIsSealed(Plains(t));
  }

  lemma QuoteSealed(s: string)
    ensures Sealed(Quote(s)) && Lex(false, Quote(s)) == [Special(Quote(s))]
  {
    QuoteClosed(s);
    ClosedIsSealed([Special(Quote(s))]);
  }

  lemma {:induction false} QuietEnd(t: string)
    requires QuietRun(t)
    ensures !EndsQuote(t)
  {
    if |t| > 1 { QuietEnd(t[1..]); }
  }

  /** a'text'b for quiet a and b. */
  lemma WrappedSealed(a: string, text: string, b: string)
    requires QuietRun(a) && QuietRun(b) && a != "" && b != ""
    ensures Sealed(a + Quote(text) + b)
  {
    QuietSealed(a);
    QuietSealed(b);
    QuoteSealed(text);
    QuietEnd(a);
    SealedAppend(a, Quote(text));
    SealedAppend(a + Quote(text), b);
  }

  lemma TwoQuietWords(t: string, word: string, c: string)
    requires Sealed(t) && !EndsQuote(t)
    requires QuietRun(word) && QuietRun(c) && word != "" && c != ""
    ensures Sealed(t + word + c)
  {
    QuietSealed(word);
    QuietSealed(c);
    QuietEnd(word);
    SealedAppend(t, word);
    SealedAppend(t + word, c);
  }

  /** a'text'b word c for quiet a, b, word and c. */
  lemma FramedSealed(a: string, text: string, b: string, word: string, c: string)
    requires QuietRun(a) && QuietRun(b) && QuietRun(word) && QuietRun(c)
    requires a != "" && b != "" && word != "" && c != ""
    ensures Sealed(a + Quote(text) + b + word + c)
  {
    WrappedSealed(a, text, b);
    QuietEnd(b);
    TwoQuietWords(a + Quote(text) + b, word, c);
  }

  lemma CastToSealed(text: string, typ: string)
    requires typ != "" && QuietRun(typ)
    ensures SelfContained(CastTo(text, typ))
  {
    FramedSealed("CAST(", text, " AS ", typ, ")");
  }

  lemma FromHexSealed(v: string)
    ensures SelfContained("from_hex(" + Quote(v) + ")")
  {
    WrappedSealed("from_hex(", v, ")");
  }

  lemma AsDoubleSealed(t: string)
    requires SelfContained(t)
    ensures SelfContained(AsDouble(t))
  {
    CastClosed();
    ClosedIsSealed([Cast]);
    QuietSealed("DOUBLE");
    SealedAppend(t, "::");
    SealedAppend(t + "::", "DOUBLE");
  }

  lemma NumberSealed(v: string)
    requires IsInt(v) || IsDecimal(v)
    ensures SelfContained(ParenNegative(v))
  {
    NumberQuiet(v);
    QuietSealed(ParenNegative(v));
  }

  /** Whatever is bound, under whatever type, a literal that is printed at all
      is self-contained: the scanner reads it the same in every context that
      does not double its final quote. */
  lemma LiteralSelfContained(b: Binding, lib: Library)
    requires lib.Valid() && Literal(b, lib).Ok?
    ensures SelfContained(Literal(b, lib).value)
  {
    if b.value.Null? {
      QuietSealed("NULL");
    } else {
      ScalarSelfContained(TypeOf(b.typ), b.value.v, lib);
    }
  }

  lemma ScalarSelfContained(typ: BindType, v: string, lib: Library)
    requires lib.Valid() && Scalar(typ, v, lib).Ok?
    ensures SelfContained(Scalar(typ, v, lib).value)
  {
    match typ
    case Fixed => NumberSealed(v);
    case Real => RealSelfContained(v, lib);
    case Boolean => BoolSealed(BoolValue(ToLower(v)).value);
    case Binary => FromHexSealed(v);
    case Text => QuoteSealed(v);
    case _ => CastTypeQuiet(typ); CastToSealed(TemporalText(typ, v, lib), CastType(typ));
  }

  lemma CastTypeQuiet(typ: BindType)
    requires IsTemporal(typ)
    ensures CastType(typ) != "" && QuietRun(CastType(typ))
  {
    match typ
    case Date => assert QuietRun("DATE");
    case Time => assert QuietRun("TIME");
    case TimestampNtz => assert QuietRun("TIMESTAMP");
    case TimestampTz =>
      assert QuietRun("TIMEST") && QuietRun("AMPTZ");
      QuietAppend("TIMEST", "AMPTZ");
      assert "TIMEST" + "AMPTZ" == "TIMESTAMPTZ";
  }

  lemma BoolSealed(b: bool)
    ensures SelfContained(BoolText(b))
  {
    assert QuietRun("TRUE") && QuietRun("FALSE");
    QuietSealed(BoolText(b));
  }

  lemma RealSelfContained(v: string, lib: Library)
    requires lib.Valid() && Scalar(Real, v, lib).Ok?
    ensures SelfContained(Scalar(Real, v, lib).value)
  {
    var text := match lib.float(v) {
      case Finite(t) => ParenNegative(t)
      case NotANumber => Quote("NaN")
      case PosInfinity => Quote("Infinity")
      case _ => Quote("-Infinity")
    };
    if lib.float(v).Finite? {
      NumberSealed(lib.float(v).text);
    } else {
      QuoteSealed("NaN");
      QuoteSealed("Infinity");
      QuoteSealed("-Infinity");
    }
    AsDoubleSealed(text);
  }
}

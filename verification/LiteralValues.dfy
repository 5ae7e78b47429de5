/** What the literals of internal/binding/binding.go denote: for every type and every
    bound text, the value that the printed literal is read back as. */
module LiteralValues {
  import opened Text
  import opened Literals
  import opened Numbers

  /** A SQL value, as far as a literal shows it. */
  datatype Value =
    | NullValue
    | Truth(b: bool)
    | Chars(s: string)
    | Bytes(hex: string)
    | Numeral(negative: bool, digits: string)
    | Double(v: Value)
    | Cast(text: string, typ: string)

  /** t is a literal for the value. */
  ghost predicate Denotes(t: string, v: Value)
    decreases v
  {
    match v
    case NullValue => t == "NULL"
    case Truth(b) => t == if b then "TRUE" else "FALSE"
    case Chars(s) => ReadString(t) == Some(s)
    case Bytes(hex) => exists q :: ReadString(q) == Some(hex) && t == "from_hex(" + q + ")"
    case Numeral(negative, digits) => t == if negative then "(-" + digits + ")" else digits
    case Double(x) => exists q :: Denotes(q, x) && t == q + "::" + "DOUBLE"
    case Cast(text, typ) => exists q :: ReadString(q) == Some(text) && t == "CAST(" + q + " AS " + typ + ")"
  }

  function NumeralOf(v: string): Value {
    Numeral(v != "" && v[0] == '-', AfterSign(v))
  }

  function Truths(): set<string> {
    {"true", "1", "t", "yes", "y", "on"}
  }

  function Untruths(): set<string> {
    {"false", "0", "f", "no", "n", "off"}
  }

  /** The text that a date or time is cast from: the moment that a number of
      milliseconds or nanoseconds is, and any other text as it is. */
  function Moment(number: Option<int>, show: int -> string, v: string): string {
    match number case Some(n) => show(n) case None => v
  }

  const HEX_DIGITS := "0123456789abcdefABCDEF"

  /** A whole number, at most the largest or the smallest of 64 bits. */
  function Bounded(v: string): Option<int> {
    if IsInt(v) then Some(Clamped(IntValue(v))) else None
  }

  /** The value that a text of a type is meant to be, None if it is not one. */
  function Intended(typ: BindType, v: string, lib: Library): Option<Value> {
    match typ
    case Fixed => if IsInt(v) || IsDecimal(v) then Some(NumeralOf(v)) else None
    case Real =>
      (match lib.float(v)
       case Unparsable => None
       case NotANumber => Some(Double(Chars("NaN")))
       case PosInfinity => Some(Double(Chars("Infinity")))
       case NegInfinity => Some(Double(Chars("-Infinity")))
       case Finite(text) => Some(Double(NumeralOf(text))))
    case Boolean =>
      if ToLower(v) in Truths() then Some(Truth(true))
      else if ToLower(v) in Untruths() then Some(Truth(false))
      else None
    case Date => Some(Cast(Moment(Bounded(v), lib.date, v), "DATE"))
    case Time => Some(Cast(Moment(Bounded(v), lib.time, v), "TIME"))
    case TimestampNtz => Some(Cast(Moment(Atoi(UpToSpace(v)), lib.stamp, v), "TIMESTAMP"))
    case TimestampTz => Some(Cast(Moment(Atoi(UpToSpace(v)), lib.stampTz, v), "TIMESTAMPTZ"))
    case Binary =>
      if |v| % 2 == 0 && forall i :: 0 <= i < |v| ==> v[i] in HEX_DIGITS then Some(Bytes(v)) else None
    case Text => Some(Chars(v))
  }

  lemma NumeralDenotes(v: string)
    requires IsInt(v) || IsDecimal(v)
    ensures Denotes(ParenNegative(v), NumeralOf(v))
  {
    assert v != "";
    if v[0] == '-' {
      assert "(" + v + ")" == "(-" + AfterSign(v) + ")";
    }
  }

  lemma QuoteDenotes(s: string)
    ensures Denotes(Quote(s), Chars(s)) && ReadString(Quote(s)) == Some(s)
  {
    QuoteRoundTrip(s, Quote(s));
  }

  lemma DoubleDenotes(t: string, v: Value)
    requires Denotes(t, v)
    ensures Denotes(AsDouble(t), Double(v))
  {
  }

  lemma CastDenotes(text: string, typ: string)
    ensures Denotes(CastTo(text, typ), Cast(text, typ))
  {
    QuoteDenotes(text);
  }

  lemma HexDigits(v: string)
    ensures (forall i :: 0 <= i < |v| ==> IsHexDigit(v[i])) <==> (forall i :: 0 <= i < |v| ==> v[i] in HEX_DIGITS)
  {
    forall c ensures IsHexDigit(c) <==> c in HEX_DIGITS { HexDigit(c); }
  }

  lemma HexDigit(c: char)
    ensures IsHexDigit(c) <==> c in HEX_DIGITS
  {
  }

  lemma BytesDenote(v: string)
    ensures Denotes("from_hex(" + Quote(v) + ")", Bytes(v))
  {
    QuoteDenotes(v);
  }

  lemma TextDouble(s: string)
    ensures Denotes(AsDouble(Quote(s)), Double(Chars(s)))
  {
    QuoteDenotes(s);
    DoubleDenotes(Quote(s), Chars(s));
  }

  /** The literal t, if there is one, denotes what is intended, if anything is. */
  ghost predicate Agree(r: Result<string>, v: Option<Value>) {
    (r.Ok? <==> v.Some?) && (r.Ok? ==> Denotes(r.value, v.value))
  }

  lemma RealAgrees(v: string, lib: Library)
    requires lib.Valid()
    ensures Agree(Scalar(Real, v, lib), Intended(Real, v, lib))
  {
    match lib.float(v)
    case Unparsable =>
    case NotANumber => TextDouble("NaN");
    case PosInfinity => TextDouble("Infinity");
    case NegInfinity => TextDouble("-Infinity");
    case Finite(text) => NumeralDenotes(text); DoubleDenotes(ParenNegative(text), NumeralOf(text));
  }

  lemma BooleanAgrees(v: string, lib: Library)
    ensures Agree(Scalar(Boolean, v, lib), Intended(Boolean, v, lib))
  {
    BoolWords(ToLower(v));
  }

  lemma BoolWords(w: string)
    ensures BoolValue(w) == Some(true) <==> w in Truths()
    ensures BoolValue(w) == Some(false) <==> w !in Truths() && w in Untruths()
  {
  }

  lemma TemporalAgrees(typ: BindType, v: string, lib: Library)
    requires IsTemporal(typ)
    ensures Agree(Scalar(typ, v, lib), Intended(typ, v, lib))
  {
    CastDenotes(TemporalText(typ, v, lib), CastType(typ));
  }

  lemma ScalarAgrees(typ: BindType, v: string, lib: Library)
    requires lib.Valid()
    ensures Agree(Scalar(typ, v, lib), Intended(typ, v, lib))
  {
    match typ
    case Fixed => if IsInt(v) || IsDecimal(v) { NumeralDenotes(v); }
    case Real => RealAgrees(v, lib);
    case Boolean => BooleanAgrees(v, lib);
    case Binary => HexDigits(v); BytesDenote(v);
    case Text => QuoteDenotes(v);
    case _ => TemporalAgrees(typ, v, lib);
  }

  /** The type names, in any case; every other name binds text. */
  lemma TypeNames(name: string)
    ensures TypeOf(name) == Fixed <==> ToUpper(name) == "FIXED"
    ensures TypeOf(name) == Real <==> ToUpper(name) == "REAL"
    ensures TypeOf(name) == Boolean <==> ToUpper(name) == "BOOLEAN"
    ensures TypeOf(name) == Date <==> ToUpper(name) == "DATE"
    ensures TypeOf(name) == Time <==> ToUpper(name) == "TIME"
    ensures TypeOf(name) == TimestampNtz <==> ToUpper(name) == "TIMESTAMP_NTZ"
    ensures TypeOf(name) == TimestampTz <==> ToUpper(name) in {"TIMESTAMP_LTZ", "TIMESTAMP_TZ"}
    ensures TypeOf(name) == Binary <==> ToUpper(name) == "BINARY"
  {
  }

  /** A bound text is printed exactly if it is a value of its type, and then as a literal
      for that value; null is NULL, and nothing else is printed. */
  lemma LiteralDenotes(b: Binding, lib: Library)
    requires lib.Valid()
    ensures match b.value
            case Str(v) => Agree(Literal(b, lib), Intended(TypeOf(b.typ), v, lib))
            case Null => Agree(Literal(b, lib), Some(NullValue))
            case _ => Literal(b, lib).Err?
  {
    if b.value.Str? { ScalarAgrees(TypeOf(b.typ), b.value.v, lib); }
  }

  // ---- What counts as a number ----

  predicate IsSign(s: string) {
    s == "" || s == "+" || s == "-"
  }

  ghost predicate IntText(v: string, sign: string, digits: string) {
    v == sign + digits && IsSign(sign) && digits != "" && AllDigits(digits)
  }

  /** A whole number is a sign, if any, and digits. */
  lemma IntIff(v: string)
    ensures IsInt(v) <==> exists sign, digits :: IntText(v, sign, digits)
  {
    if IsInt(v) {
      var u := AfterSign(v);
      assert IntText(v, v[..|v| - |u|], u);
    }
    if exists sign, digits :: IntText(v, sign, digits) {
      var sign, digits :| IntText(v, sign, digits);
      SignOf(v, sign, digits);
      DigitRunOf(digits, "");
      assert digits + "" == digits;
    }
  }

  lemma SignOf(v: string, sign: string, u: string)
    requires v == sign + u && IsSign(sign) && u != "" && u[0] != '+' && u[0] != '-'
    ensures AfterSign(v) == u
  {
  }

  /** Digits, a point and digits, and an exponent. */
  ghost predicate UnsignedText(u: string, whole: string, point: string, fraction: string, exponent: string) {
    && u == whole + (point + (fraction + exponent)) && AllDigits(whole) && AllDigits(fraction)
    && (point == "." || (point == "" && fraction == "")) && (whole != "" || fraction != "") && IsExponent(exponent)
  }

  lemma UnsignedOf(u: string, whole: string, point: string, fraction: string, exponent: string)
    requires UnsignedText(u, whole, point, fraction, exponent)
    ensures IsUnsigned(u) && (IsDigit(u[0]) || u[0] == '.')
  {
    var r := point + (fraction + exponent);
    DigitRunOf(whole, r);
    assert u[|whole|..] == r;
    if point == "." {
      DigitRunOf(fraction, exponent);
      assert r[1..] == fraction + exponent;
      assert r[1 + |fraction|..] == exponent;
    } else {
      assert r == exponent;
    }
  }

  lemma UnsignedSplit(u: string) returns (whole: string, point: string, fraction: string, exponent: string)
    requires IsUnsigned(u)
    ensures UnsignedText(u, whole, point, fraction, exponent)
  {
    var d := DigitRun(u);
    var r := u[d..];
    whole := u[..d];
    point, fraction, exponent := TailSplit(u, r, d);
    assert u == whole + r;
  }

  lemma TailSplit(u: string, r: string, d: nat) returns (point: string, fraction: string, exponent: string)
    requires IsUnsigned(u) && d == DigitRun(u) && r == u[d..]
    ensures r == point + (fraction + exponent) && AllDigits(fraction) && IsExponent(exponent)
    ensures (point == "." || (point == "" && fraction == "")) && (d > 0 || fraction != "")
  {
    if r != "" && r[0] == '.' {
      point := ".";
      fraction, exponent := PointSplit(r);
    } else {
      point, fraction, exponent := "", "", r;
      assert "" + ("" + r) == r;
    }
  }

  lemma PointSplit(r: string) returns (fraction: string, exponent: string)
    requires r != "" && r[0] == '.'
    ensures r == "." + (fraction + exponent) && AllDigits(fraction) && |fraction| == DigitRun(r[1..])
    ensures exponent == r[1 + DigitRun(r[1..])..]
  {
    var f := DigitRun(r[1..]);
    fraction, exponent := r[1..][..f], r[1..][f..];
  }

  ghost predicate DecimalText(
      v: string, sign: string, whole: string, point: string, fraction: string, exponent: string, u: string) {
    v == sign + u && IsSign(sign) && UnsignedText(u, whole, point, fraction, exponent)
  }

  /** A decimal is a sign, digits with at most one point among them, and an exponent. */
  lemma DecimalIff(v: string)
    ensures IsDecimal(v) <==>
              exists sign, whole, point, fraction, exponent, u ::
                DecimalText(v, sign, whole, point, fraction, exponent, u)
  {
    if IsDecimal(v) {
      var u := AfterSign(v);
      var whole, point, fraction, exponent := UnsignedSplit(u);
      assert DecimalText(v, v[..|v| - |u|], whole, point, fraction, exponent, u);
    }
    if exists sign, whole, point, fraction, exponent, u :: DecimalText(v, sign, whole, point, fraction, exponent, u) {
      var sign, whole, point, fraction, exponent, u :| DecimalText(v, sign, whole, point, fraction, exponent, u);
      UnsignedOf(u, whole, point, fraction, exponent);
      SignOf(v, sign, u);
    }
  }
}

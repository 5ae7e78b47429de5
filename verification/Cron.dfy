/** The cron schedule of internal/task/cron.go: what a field denotes, which
    minute comes next, and from which specifications a minute always comes. */
module Cron {
  import opened Text
  import opened Calendar

  /** A field's values; None is the wildcard. */
  type Values = Option<seq<int>>

  datatype Fields = Fields(minute: Values, hour: Values, dayOfMonth: Values, month: Values, dayOfWeek: Values)

  /** Instants are nanoseconds from 1 January of year 0 in UTC; zones are fixed
      whole-minute offsets. */
  const MINUTE := 60_000_000_000
  const WINDOW_DAYS := 4 * 365
  const WINDOW := WINDOW_DAYS * 1440 * MINUTE

  // ---- Field syntax ----

  function SplitOn(s: string, c: char): (parts: seq<string>)
    ensures parts != []
  {
    if s == "" then [""]
    else
      var rest := SplitOn(s[1..], c);
      if s[0] == c then [""] + rest else [[s[0]] + rest[0]] + rest[1..]
  }

  function IndexOf(s: string, c: char): (i: Option<nat>)
    ensures i.Some? ==> i.value < |s| && s[i.value] == c
  {
    if s == "" then None
    else if s[0] == c then Some(0)
    else match IndexOf(s[1..], c) case Some(i) => Some(i + 1) case None => None
  }

  /** start, start + step, ... up to end. */
  datatype Item = Item(start: int, end: int, step: int)

  predicate Selects(it: Item, v: int) {
    it.start <= v <= it.end && it.step > 0 && (v - it.start) % it.step == 0
  }

  function ParseStep(p: string): Result<(string, int)> {
    match IndexOf(p, '/')
    case None => Ok((p, 1))
    case Some(i) =>
      match Atoi(p[i + 1..])
      case Some(n) => if n > 0 then Ok((p[..i], n)) else Err("cron: invalid step")
      case None => Err("cron: invalid step")
  }

  function ParseRange(q: string, min: int, max: int): Result<(int, int)> {
    if q == "*" then Ok((min, max))
    else
      match IndexOf(q, '-')
      case Some(i) =>
        (match (Atoi(q[..i]), Atoi(q[i + 1..]))
         case (Some(a), Some(b)) => Ok((a, b))
         case _ => Err("cron: invalid range"))
      case None =>
        (match Atoi(q)
         case Some(n) => Ok((n, n))
         case None => Err("cron: invalid value"))
  }

  /** One element of the comma-separated list. */
  function ParseItem(p: string, min: int, max: int): (r: Result<Item>)
    ensures r.Ok? ==> min <= r.value.start <= r.value.end <= max && r.value.step > 0
  {
    match ParseStep(p)
    case Err(e) => Err(e)
    case Ok((q, step)) =>
      match ParseRange(q, min, max)
      case Err(e) => Err(e)
      case Ok((a, b)) =>
        if a < min || b > max || a > b then Err("cron: out-of-range") else Ok(Item(a, b, step))
  }

  predicate AllParse(parts: seq<string>, min: int, max: int) {
    forall i :: 0 <= i < |parts| ==> ParseItem(parts[i], min, max).Ok?
  }

  /** v is in the union of the sets that the list's elements denote. */
  predicate Denoted(parts: seq<string>, min: int, max: int, v: int)
    requires AllParse(parts, min, max)
  {
    exists i :: 0 <= i < |parts| && Selects(ParseItem(parts[i], min, max).value, v)
  }

  /** parseCronField: nil for "*", otherwise the distinct values of the union of
      the listed ranges and steps. */
  method ParseCronField(field: string, min: int, max: int) returns (r: Result<Values>)
    requires min <= max
    ensures var parts := SplitOn(field, ',');
      && (r.Ok? <==> field == "*" || AllParse(parts, min, max))
      && (r.Ok? ==> (r.value.None? <==> field == "*"))
      && (r.Ok? && r.value.Some? ==>
            var vs := r.value.value;
            Distinct(vs) && vs != [] && forall v :: v in vs <==> Denoted(parts, min, max, v))
  {
    if field == "*" { return Ok(None); }
    var parts := SplitOn(field, ',');
    var out, seen := [], {};
    for i := 0 to |parts|
      invariant AllParse(parts[..i], min, max)
      invariant Distinct(out) && (forall v :: v in seen <==> v in out)
      invariant forall v :: v in out <==> Denoted(parts[..i], min, max, v)
      invariant i > 0 ==> out != []
    {
      var parsed := ParseItem(parts[i], min, max);
      if parsed.Err? {
        assert !AllParse(parts, min, max);
        return Err(parsed.error);
      }
      DenotedNext(parts, i, min, max);
      out, seen := AddItem(parsed.value, out, seen);
    }
    assert parts[..|parts|] == parts;
    return Ok(Some(out));
  }

  /** The inner loop: adds the item's values that are not there yet. */
  method AddItem(it: Item, out: seq<int>, seen: set<int>) returns (out': seq<int>, seen': set<int>)
    requires it.step > 0 && it.start <= it.end
    requires Distinct(out) && forall v :: v in seen <==> v in out
    ensures Distinct(out') && out' != [] && forall v :: v in seen' <==> v in out'
    ensures forall v :: v in out' <==> v in out || Selects(it, v)
  {
    out', seen' := out, seen;
    var v := it.start;
    ghost var k := 0;
    while v <= it.end
      invariant v == it.start + k * it.step && k >= 0 && (k > 0 ==> out' != [])
      invariant Distinct(out') && (forall u :: u in seen' <==> u in out')
      invariant forall u :: u in out' <==> u in out || (u < v && Selects(it, u))
      decreases it.end - v
    {
      Between(it, k, v);
      if v !in seen' {
        seen' := seen' + {v};
        out' := out' + [v];
      }
      assert v + it.step == it.start + (k + 1) * it.step;
      v, k := v + it.step, k + 1;
    }
  }

  lemma DenotedNext(parts: seq<string>, i: nat, min: int, max: int)
    requires i < |parts| && AllParse(parts[..i], min, max) && ParseItem(parts[i], min, max).Ok?
    ensures AllParse(parts[..i + 1], min, max)
    ensures forall v :: Denoted(parts[..i + 1], min, max, v) <==>
              Denoted(parts[..i], min, max, v) || Selects(ParseItem(parts[i], min, max).value, v)
  {
    var a, b := parts[..i], parts[..i + 1];
    assert forall k :: 0 <= k < i ==> b[k] == a[k];
    assert b[i] == parts[i];
    forall v
      ensures Denoted(b, min, max, v) <==> Denoted(a, min, max, v) || Selects(ParseItem(parts[i], min, max).value, v)
    {
      if Denoted(a, min, max, v) {
        var k :| 0 <= k < |a| && Selects(ParseItem(a[k], min, max).value, v);
        assert Selects(ParseItem(b[k], min, max).value, v);
      }
      if Selects(ParseItem(parts[i], min, max).value, v) {
        assert Selects(ParseItem(b[i], min, max).value, v);
      }
    }
  }

  /** Between the k-th multiple and the next one, only the k-th is selected. */
  lemma Between(it: Item, k: int, v: int)
    requires it.step > 0 && k >= 0 && v == it.start + k * it.step
    ensures v <= it.end ==> Selects(it, v)
    ensures forall u :: v < u < v + it.step ==> !Selects(it, u)
  {
    MultipleMod(k, 0, it.step);
    forall u | v < u < v + it.step ensures !Selects(it, u) {
      MultipleMod(k, u - v, it.step);
      assert u - it.start == k * it.step + (u - v);
    }
  }

  lemma MultipleMod(k: int, r: int, n: int)
    requires 0 <= r < n
    ensures (k * n + r) % n == r
  {
    var q := (k * n + r) / n;
    var m := (k * n + r) % n;
    assert (k - q) * n == m - r;
    AtLeastOnce(k - q, n);
  }

  lemma AtLeastOnce(a: int, n: int)
    requires n > 0
    ensures a >= 1 ==> a * n >= n
    ensures a <= -1 ==> a * n <= -n
  {
  }

  // ---- Expressions ----

  function WordLen(s: string): (n: nat)
    ensures n <= |s|
    ensures s != "" && !IsSpace(s[0]) ==> n > 0
  {
    if s == "" || IsSpace(s[0]) then 0 else 1 + WordLen(s[1..])
  }

  /** strings.Fields. */
  function WordsOf(s: string): seq<string>
    decreases |s|
  {
    var t := TrimLeft(s);
    if t == "" || WordLen(t) == 0 then [] else [t[..WordLen(t)]] + WordsOf(t[WordLen(t)..])
  }

  predicate InRange(vals: Values, min: int, max: int) {
    vals.Some? ==> vals.value != [] && forall v :: v in vals.value ==> min <= v <= max
  }

  /** What every accepted expression satisfies. */
  predicate Accepted(f: Fields) {
    && InRange(f.minute, 0, 59) && InRange(f.hour, 0, 23) && InRange(f.dayOfMonth, 1, 31)
    && InRange(f.month, 1, 12) && InRange(f.dayOfWeek, 0, 6)
  }

  /** The values a field of an expression stands for. */
  predicate FieldMeans(field: string, min: int, max: int, vals: Values) {
    && (vals.None? <==> field == "*")
    && (vals.Some? ==>
          AllParse(SplitOn(field, ','), min, max) &&
          forall v :: min <= v <= max ==> (v in vals.value <==> Denoted(SplitOn(field, ','), min, max, v)))
  }

  predicate FieldSyntax(field: string, min: int, max: int) {
    field == "*" || AllParse(SplitOn(field, ','), min, max)
  }

  predicate ExprSyntax(expr: string, zones: string -> Option<int>) {
    var parts := WordsOf(expr);
    && |parts| >= 5 && (|parts| > 5 ==> zones(parts[5]).Some?)
    && FieldSyntax(parts[0], 0, 59) && FieldSyntax(parts[1], 0, 23) && FieldSyntax(parts[2], 1, 31)
    && FieldSyntax(parts[3], 1, 12) && FieldSyntax(parts[4], 0, 6)
  }

  /** The fields and the zone offset that an accepted expression stands for. */
  predicate ExprMeans(expr: string, zones: string -> Option<int>, f: Fields, off: int)
    requires ExprSyntax(expr, zones)
  {
    var parts := WordsOf(expr);
    && Accepted(f) && off == (if |parts| > 5 then zones(parts[5]).value else 0)
    && FieldMeans(parts[0], 0, 59, f.minute) && FieldMeans(parts[1], 0, 23, f.hour)
    && FieldMeans(parts[2], 1, 31, f.dayOfMonth) && FieldMeans(parts[3], 1, 12, f.month)
    && FieldMeans(parts[4], 0, 6, f.dayOfWeek)
  }

  /** parseCronExpr; zones stands for time.LoadLocation and gives offsets in minutes. */
  method ParseCronExpr(expr: string, zones: string -> Option<int>) returns (r: Result<(Fields, int)>)
    ensures r.Ok? <==> ExprSyntax(expr, zones)
    ensures r.Ok? ==> ExprMeans(expr, zones, r.value.0, r.value.1)
  {
    var parts := WordsOf(expr);
    if |parts| < 5 { return Err("cron: expected at least 5 fields"); }
    var off := 0;
    if |parts| > 5 {
      var z := zones(parts[5]);
      if z.None? { return Err("cron: unknown timezone"); }
      off := z.value;
    }
    var minute := ParseField(parts[0], 0, 59);
    if minute.Err? { return Err(minute.error); }
    var hour := ParseField(parts[1], 0, 23);
    if hour.Err? { return Err(hour.error); }
    var dom := ParseField(parts[2], 1, 31);
    if dom.Err? { return Err(dom.error); }
    var month := ParseField(parts[3], 1, 12);
    if month.Err? { return Err(month.error); }
    var dow := ParseField(parts[4], 0, 6);
    if dow.Err? { return Err(dow.error); }
    return Ok((Fields(minute.value, hour.value, dom.value, month.value, dow.value), off));
  }

  method ParseField(field: string, min: int, max: int) returns (r: Result<Values>)
    requires min <= max
    ensures r.Ok? <==> FieldSyntax(field, min, max)
    ensures r.Ok? ==> FieldMeans(field, min, max, r.value) && InRange(r.value, min, max)
  {
    r := ParseCronField(field, min, max);
    if r.Ok? && r.value.Some? {
      forall v | v in r.value.value ensures min <= v <= max {
        var parts := SplitOn(field, ',');
        assert Denoted(parts, min, max, v);
      }
    }
  }

  // ---- Matching a minute ----

  predicate Contains(vals: Values, x: int) {
    vals.None? || x in vals.value
  }

  /** Day of month and day of week are alternatives when both are constrained. */
  predicate DayMatches(f: Fields, day: int) {
    var domHit := Contains(f.dayOfMonth, DayOfMonth(day));
    var dowHit := Contains(f.dayOfWeek, Weekday(day));
    if f.dayOfMonth.Some? && f.dayOfWeek.Some? then domHit || dowHit else domHit && dowHit
  }

  /** cronMatches at a local time given in whole minutes. */
  predicate CronMatches(f: Fields, minute: int) {
    && Contains(f.minute, minute % 60)
    && Contains(f.hour, minute / 60 % 24)
    && Contains(f.month, MonthOf(minute / 1440))
    && DayMatches(f, minute / 1440)
  }

  /** The k-th minute of time is one the schedule fires at. */
  predicate Due(f: Fields, off: int, k: int) {
    CronMatches(f, k + off)
  }

  /** The least whole minute strictly after the instant, and not more than four
      times 365 days later, that is due. */
  predicate IsNext(due: int -> bool, after: int, t: int) {
    && t % MINUTE == 0 && after < t <= after + WINDOW && due(t / MINUTE)
    && forall k :: after / MINUTE < k < t / MINUTE ==> !due(k)
  }

  /** No minute of the window is due. */
  predicate NoneDue(due: int -> bool, after: int) {
    forall k :: after / MINUTE < k <= (after + WINDOW) / MINUTE ==> !due(k)
  }

  /** nextCronTime's loop, for any test of minutes. */
  method Search(due: int -> bool, after: int) returns (r: Result<int>)
    ensures match r case Ok(t) => IsNext(due, after, t) case Err(_) => NoneDue(due, after)
  {
    var t := after / MINUTE * MINUTE + MINUTE;
    var limit := after + WINDOW;
    while t <= limit
      invariant t % MINUTE == 0 && after < t
      invariant forall k :: after / MINUTE < k < t / MINUTE ==> !due(k)
      decreases limit - t
    {
      if due(t / MINUTE) { return Ok(t); }
      t := t + MINUTE;
    }
    return Err("cron: no match within four years");
  }

  function DueAt(f: Fields, off: int): int -> bool {
    k => Due(f, off, k)
  }

  method NextCronTime(expr: string, zones: string -> Option<int>, after: int)
      returns (r: Result<int>, ghost f: Fields, ghost off: int)
    ensures !ExprSyntax(expr, zones) ==> r.Err?
    ensures ExprSyntax(expr, zones) ==>
              && ExprMeans(expr, zones, f, off)
              && match r
                 case Ok(t) => IsNext(DueAt(f, off), after, t)
                 case Err(_) => NoneDue(DueAt(f, off), after)
  {
    var parsed := ParseCronExpr(expr, zones);
    if parsed.Err? {
      f, off := Fields(None, None, None, None, None), 0;
      return Err(parsed.error), f, off;
    }
    f, off := parsed.value.0, parsed.value.1;
    r := Search(DueAt(parsed.value.0, parsed.value.1), after);
  }
}

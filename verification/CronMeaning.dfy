/** What a written cron expression means, and that the search finds the next minute
    that it means. */
module CronMeaning {
  import opened Text
  import opened Calendar
  import opened Cron
  import opened CronSyntax
  import opened Schedule

  /** The five fields of an expression, each a list of elements. */
  datatype Table = Table(
    minute: seq<Element>, hour: seq<Element>, dayOfMonth: seq<Element>, month: seq<Element>, dayOfWeek: seq<Element>)
  {
    predicate Full() {
      minute != [] && hour != [] && dayOfMonth != [] && month != [] && dayOfWeek != []
    }
  }

  function Words(t: Table): (words: seq<string>)
    requires t.Full()
    ensures |words| == 5
  {
    [ShowList(t.minute), ShowList(t.hour), ShowList(t.dayOfMonth), ShowList(t.month), ShowList(t.dayOfWeek)]
  }

  // ---- Words with space between them ----

  /** Each word behind its gap. */
  function Spaced(gaps: seq<string>, words: seq<string>): string
    requires |gaps| == |words|
  {
    if words == [] then "" else gaps[0] + words[0] + Spaced(gaps[1..], words[1..])
  }

  /** Words without space, and space between any two of them. */
  predicate Apart(gaps: seq<string>, words: seq<string>) {
    && |gaps| == |words|
    && (forall i :: 0 <= i < |words| ==> words[i] != "" && Unspaced(words[i]) && AllSpace(gaps[i]))
    && (forall i :: 0 < i < |words| ==> gaps[i] != "")
  }

  lemma {:induction false} WordLenOf(w: string, t: string)
    requires Unspaced(w) && (t != "" ==> IsSpace(t[0]))
    ensures WordLen(w + t) == |w|
  {
    if w == "" { assert w + t == t; } else {
      assert (w + t)[1..] == w[1..] + t;
      WordLenOf(w[1..], t);
    }
  }

  lemma OneWord(gap: string, w: string, t: string, s: string)
    requires s == gap + w + t && AllSpace(gap) && w != "" && Unspaced(w) && (t != "" ==> IsSpace(t[0]))
    ensures WordsOf(s) == [w] + WordsOf(t)
  {
    assert s == gap + (w + t);
    TrimLeftOf(gap, w + t);
    WordLenOf(w, t);
    assert (w + t)[..|w|] == w && (w + t)[|w|..] == t;
  }

  lemma {:induction false} SpacedWords(gaps: seq<string>, words: seq<string>)
    requires Apart(gaps, words)
    ensures WordsOf(Spaced(gaps, words)) == words
    decreases |words|
  {
    if words == [] {
      assert TrimLeft("") == "";
    } else {
      var t := Spaced(gaps[1..], words[1..]);
      SpacedWords(gaps[1..], words[1..]);
      assert t != "" ==> gaps[1] != "" && t[0] == gaps[1][0];
      OneWord(gaps[0], words[0], t, Spaced(gaps, words));
    }
  }

  /** The expression is the five fields and then the words in rest, the first of which
      names the time zone. */
  ghost predicate Writes(expr: string, t: Table, rest: seq<string>) {
    t.Full() && exists gaps :: Apart(gaps, Words(t) + rest) && expr == Spaced(gaps, Words(t) + rest)
  }

  lemma WrittenWords(expr: string, t: Table, rest: seq<string>)
    requires Writes(expr, t, rest)
    ensures var parts := WordsOf(expr);
      && |parts| == 5 + |rest| && (rest != [] ==> parts[5] == rest[0])
      && parts[0] == ShowList(t.minute) && parts[1] == ShowList(t.hour) && parts[2] == ShowList(t.dayOfMonth)
      && parts[3] == ShowList(t.month) && parts[4] == ShowList(t.dayOfWeek)
  {
    var gaps :| Apart(gaps, Words(t) + rest) && expr == Spaced(gaps, Words(t) + rest);
    SpacedWords(gaps, Words(t) + rest);
    FiveFirst(Words(t), rest, WordsOf(expr));
  }

  lemma FiveFirst(five: seq<string>, rest: seq<string>, parts: seq<string>)
    requires |five| == 5 && parts == five + rest
    ensures |parts| == 5 + |rest| && (rest != [] ==> parts[5] == rest[0])
    ensures parts[0] == five[0] && parts[1] == five[1] && parts[2] == five[2] && parts[3] == five[3]
    ensures parts[4] == five[4]
  {
  }

  // ---- The minutes that a table names ----

  predicate Unrestricted(es: seq<Element>) {
    es == [Element(Star, None)]
  }

  /** Day of month and day of week: either, if both are restricted. */
  ghost predicate NamesDay(t: Table, day: int) {
    var byDate, byWeekday := Listed(t.dayOfMonth, 1, 31, DayOfMonth(day)), Listed(t.dayOfWeek, 0, 6, Weekday(day));
    if Unrestricted(t.dayOfMonth) then byWeekday
    else if Unrestricted(t.dayOfWeek) then byDate
    else byDate || byWeekday
  }

  /** The table names this minute of local time. */
  ghost predicate Names(t: Table, minute: int) {
    && Listed(t.minute, 0, 59, minute % 60)
    && Listed(t.hour, 0, 23, minute / 60 % 24)
    && Listed(t.month, 1, 12, MonthOf(minute / 1440))
    && NamesDay(t, minute / 1440)
  }

  predicate TableFits(t: Table) {
    && AllWithin(t.minute, 0, 59) && AllWithin(t.hour, 0, 23) && AllWithin(t.dayOfMonth, 1, 31)
    && AllWithin(t.month, 1, 12) && AllWithin(t.dayOfWeek, 0, 6)
  }

  /** The words behind the fields name no unknown zone. */
  predicate ZoneFits(rest: seq<string>, zones: string -> Option<int>) {
    rest != [] ==> zones(rest[0]).Some?
  }

  function ZoneOf(rest: seq<string>, zones: string -> Option<int>): int
    requires ZoneFits(rest, zones)
  {
    if rest == [] then 0 else zones(rest[0]).value
  }

  lemma FieldFits(es: seq<Element>, min: int, max: int)
    requires es != [] && 0 <= min <= max <= MAX_INT64
    ensures FieldSyntax(ShowList(es), min, max) <==> AllWithin(es, min, max)
  {
    ListParses(es, min, max);
    ShownListWord(es);
  }

  /** The values of a written field are those that its elements name. */
  lemma FieldNames(es: seq<Element>, min: int, max: int, vals: Values, x: int)
    requires es != [] && 0 <= min <= x <= max <= MAX_INT64 && AllWithin(es, min, max)
    requires FieldMeans(ShowList(es), min, max, vals)
    ensures vals.None? <==> Unrestricted(es)
    ensures Contains(vals, x) <==> Listed(es, min, max, x)
  {
    ShownListWord(es);
    if vals.None? {
      assert x == Nth(min, 1, x - min);
      assert Picks(es[0], min, max, x);
    } else {
      ShownListDenotes(es, min, max);
    }
  }

  /** A written expression is accepted exactly if every element is within its field's
      bounds and the zone, if there is one, is known. */
  lemma WrittenSyntax(expr: string, t: Table, rest: seq<string>, zones: string -> Option<int>)
    requires Writes(expr, t, rest)
    ensures ExprSyntax(expr, zones) <==> TableFits(t) && ZoneFits(rest, zones)
  {
    WrittenWords(expr, t, rest);
    FieldFits(t.minute, 0, 59);
    FieldFits(t.hour, 0, 23);
    FieldFits(t.dayOfMonth, 1, 31);
    FieldFits(t.month, 1, 12);
    FieldFits(t.dayOfWeek, 0, 6);
  }

  /** The fields stand for the table. */
  ghost predicate Stands(t: Table, f: Fields)
    requires t.Full()
  {
    && FieldMeans(ShowList(t.minute), 0, 59, f.minute) && FieldMeans(ShowList(t.hour), 0, 23, f.hour)
    && FieldMeans(ShowList(t.dayOfMonth), 1, 31, f.dayOfMonth) && FieldMeans(ShowList(t.month), 1, 12, f.month)
    && FieldMeans(ShowList(t.dayOfWeek), 0, 6, f.dayOfWeek)
  }

  lemma DayNames(t: Table, f: Fields, day: int)
    requires t.Full() && TableFits(t) && Stands(t, f)
    ensures DayMatches(f, day) <==> NamesDay(t, day)
  {
    CivilOf(day);
    FieldNames(t.dayOfMonth, 1, 31, f.dayOfMonth, DayOfMonth(day));
    FieldNames(t.dayOfWeek, 0, 6, f.dayOfWeek, Weekday(day));
  }

  lemma MinuteNames(t: Table, f: Fields, minute: int)
    requires t.Full() && TableFits(t) && Stands(t, f)
    ensures CronMatches(f, minute) <==> Names(t, minute)
  {
    FieldNames(t.minute, 0, 59, f.minute, minute % 60);
    FieldNames(t.hour, 0, 23, f.hour, minute / 60 % 24);
    CivilOf(minute / 1440);
    FieldNames(t.month, 1, 12, f.month, MonthOf(minute / 1440));
    DayNames(t, f, minute / 1440);
  }

  function MatchAt(f: Fields): int -> bool {
    minute => CronMatches(f, minute)
  }

  ghost function NamesAt(t: Table): int -> bool {
    minute => Names(t, minute)
  }

  /** A test of local minutes, as one of minutes of time. */
  ghost function InZone(local: int -> bool, off: int): int -> bool {
    k => local(k + off)
  }

  /** The minutes of time that the table names in a zone. */
  ghost function TableDue(t: Table, off: int): int -> bool {
    InZone(NamesAt(t), off)
  }

  lemma MatchNames(t: Table, f: Fields)
    requires t.Full() && TableFits(t) && Stands(t, f)
    ensures forall minute :: MatchAt(f)(minute) == NamesAt(t)(minute)
  {
    forall minute ensures MatchAt(f)(minute) == NamesAt(t)(minute) { MinuteNames(t, f, minute); }
  }

  lemma DueInZone(f: Fields, off: int)
    ensures forall k :: DueAt(f, off)(k) == InZone(MatchAt(f), off)(k)
  {
    forall k ensures DueAt(f, off)(k) == InZone(MatchAt(f), off)(k) {
      var minute := k + off;
      DueIsMatch(f, off, k, minute);
      InZoneAt(MatchAt(f), off, k, minute);
    }
  }

  lemma DueIsMatch(f: Fields, off: int, k: int, minute: int)
    requires minute == k + off
    ensures DueAt(f, off)(k) == MatchAt(f)(minute)
  {
    assert DueAt(f, off)(k) == Due(f, off, k);
  }

  lemma InZoneAt(local: int -> bool, off: int, k: int, minute: int)
    requires minute == k + off
    ensures InZone(local, off)(k) == local(minute)
  {
  }

  lemma SameInZone(a: int -> bool, b: int -> bool, off: int)
    requires forall minute :: a(minute) == b(minute)
    ensures forall k :: InZone(a, off)(k) == InZone(b, off)(k)
  {
  }

  lemma WrittenStands(expr: string, t: Table, rest: seq<string>, zones: string -> Option<int>, f: Fields, off: int)
    requires Writes(expr, t, rest) && ZoneFits(rest, zones)
    requires ExprSyntax(expr, zones) && ExprMeans(expr, zones, f, off)
    ensures Stands(t, f) && off == ZoneOf(rest, zones)
  {
    WrittenWords(expr, t, rest);
  }

  /** A written expression means the minutes that its table names. */
  lemma WrittenMeans(expr: string, t: Table, rest: seq<string>, zones: string -> Option<int>, f: Fields, off: int)
    requires Writes(expr, t, rest) && TableFits(t) && ZoneFits(rest, zones)
    requires ExprSyntax(expr, zones) && ExprMeans(expr, zones, f, off)
    ensures off == ZoneOf(rest, zones)
    ensures forall k :: DueAt(f, off)(k) == TableDue(t, off)(k)
  {
    WrittenStands(expr, t, rest, zones, f, off);
    TableMeans(t, f, off);
  }

  lemma TableMeans(t: Table, f: Fields, off: int)
    requires t.Full() && TableFits(t) && Stands(t, f)
    ensures forall k :: DueAt(f, off)(k) == TableDue(t, off)(k)
  {
    MatchNames(t, f);
    DueInZone(f, off);
    SameInZone(MatchAt(f), NamesAt(t), off);
  }

  lemma SameNext(a: int -> bool, b: int -> bool, after: int, next: int)
    requires forall k :: a(k) == b(k)
    ensures IsNext(a, after, next) <==> IsNext(b, after, next)
    ensures NoneDue(a, after) <==> NoneDue(b, after)
  {
  }

  /** So the search for a written expression finds the least later minute that the
      table names, or there is none in the window. */
  lemma WrittenNext(
      expr: string, t: Table, rest: seq<string>, zones: string -> Option<int>, f: Fields, off: int, after: int,
      r: Result<int>)
    requires Writes(expr, t, rest) && TableFits(t) && ZoneFits(rest, zones)
    requires ExprSyntax(expr, zones) && ExprMeans(expr, zones, f, off)
    requires match r case Ok(next) => IsNext(DueAt(f, off), after, next) case Err(_) => NoneDue(DueAt(f, off), after)
    ensures var due := TableDue(t, ZoneOf(rest, zones));
      match r case Ok(next) => IsNext(due, after, next) case Err(_) => NoneDue(due, after)
  {
    WrittenMeans(expr, t, rest, zones, f, off);
    SameNext(DueAt(f, off), TableDue(t, off), after, if r.Ok? then r.value else after);
  }

  /** And a task with that expression runs next at that minute. */
  lemma WrittenSchedule(
      schedule: string, expr: string, t: Table, rest: seq<string>, zones: string -> Option<int>, now: int, next: int)
    requires SaysCron(schedule, expr) && Writes(expr, t, rest) && TableFits(t) && ZoneFits(rest, zones)
    requires SaysNext(schedule, zones, now, next)
    ensures var due := TableDue(t, ZoneOf(rest, zones));
      IsNext(due, now, next) || (NoneDue(due, now) && next == now + MINUTE)
  {
    WrittenSyntax(expr, t, rest, zones);
    assert CronNext(expr, zones, now, next);
    var f, off :| ExprMeans(expr, zones, f, off) &&
      (IsNext(DueAt(f, off), now, next) || (NoneDue(DueAt(f, off), now) && next == now + MINUTE));
    WrittenMeans(expr, t, rest, zones, f, off);
    SameNext(DueAt(f, off), TableDue(t, off), now, next);
  }
}

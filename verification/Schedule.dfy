/** Schedule strings of internal/task/task.go and the next run they give. */
module Schedule {
  import opened Text
  import opened Cron
  import opened Numbers

  datatype Plan = Every(minutes: int) | OnCron(expr: string)

  /** ^\d+\s+MINUTES?$ in any case. */
  predicate IsMinutes(s: string) {
    var rest := s[DigitRun(s)..];
    var unit := SkipBlank(rest);
    DigitRun(s) > 0 && |unit| < |rest| && (ToUpper(unit) == "MINUTE" || ToUpper(unit) == "MINUTES")
  }

  /** What follows the word, in any case, and at least one blank. */
  function AfterWord(s: string, word: string): Option<string> {
    if |s| <= |word| || ToUpper(s[..|word|]) != word || !IsBlank(s[|word|]) then None
    else Some(SkipBlank(s[|word|..]))
  }

  /** ^USING\s+CRON\s+(.+)$ in any case, on a trimmed string. */
  function CronPart(s: string): Option<string> {
    match AfterWord(s, "USING")
    case None => None
    case Some(t) =>
      match AfterWord(t, "CRON")
      case None => None
      case Some(u) => if u == "" || '\n' in u then None else Some(u)
  }

  /** ParseSchedule; None is its error. */
  function ParseSchedule(schedule: string, zones: string -> Option<int>): (p: Option<Plan>)
    ensures p.Some? && p.value.Every? ==> 0 < p.value.minutes <= MAX_INT64
    ensures p.Some? && p.value.OnCron? ==> ExprSyntax(p.value.expr, zones)
  {
    var s := Trim(schedule);
    if IsMinutes(s) then
      match Atoi(s[..DigitRun(s)])
      case Some(n) => if n > 0 then Some(Every(n)) else None
      case None => None
    else
      match CronPart(s)
      case None => None
      case Some(t) =>
        var expr := Trim(t);
        if expr != "" && ExprSyntax(expr, zones) then Some(OnCron(expr)) else None
  }

  // ---- What a schedule says ----

  /** A number, blanks, and MINUTE or MINUTES in any case, with any space around. */
  ghost predicate MinutesText(
      s: string, n: nat, before: string, digits: string, blanks: string, word: string, after: string) {
    && s == before + (digits + (blanks + word)) + after && AllSpace(before) && AllSpace(after)
    && digits != "" && AllDigits(digits) && Decimal(digits) == n
    && blanks != "" && AllBlank(blanks) && (IsWord(word, "MINUTE") || IsWord(word, "MINUTES"))
  }

  ghost predicate SaysMinutes(s: string, n: nat) {
    exists before, digits, blanks, word, after :: MinutesText(s, n, before, digits, blanks, word, after)
  }

  /** USING CRON in any case and a text in one line, with any space around. */
  ghost predicate CronText(
      s: string, text: string, before: string, using: string, blanks: string, cron: string, blanks': string,
      after: string) {
    && s == before + (using + (blanks + (cron + (blanks' + text)))) + after && AllSpace(before) && AllSpace(after)
    && IsWord(using, "USING") && IsWord(cron, "CRON")
    && blanks != "" && AllBlank(blanks) && blanks' != "" && AllBlank(blanks')
    && text != "" && !IsBlank(text[0]) && !IsSpace(text[|text| - 1]) && '\n' !in text
  }

  ghost predicate SaysCron(s: string, expr: string) {
    exists text, before, using, blanks, cron, blanks', after ::
      CronText(s, text, before, using, blanks, cron, blanks', after) && expr == Trim(text)
  }

  /** A word spelled in letters, whatever their case. */
  lemma WordOf(w: string, word: string)
    requires IsWord(w, word) && word != "" && forall k :: 0 <= k < |word| ==> 'A' <= word[k] <= 'Z'
    ensures |w| == |word|
    ensures !IsSpace(w[0]) && !IsBlank(w[0]) && !IsDigit(w[0]) && !IsSpace(w[|w| - 1])
  {
    assert ToUpperChar(w[0]) == word[0] && ToUpperChar(w[|w| - 1]) == word[|w| - 1];
  }

  lemma UnitOf(w: string)
    requires IsWord(w, "MINUTE") || IsWord(w, "MINUTES")
    ensures w != "" && !IsBlank(w[0]) && !IsSpace(w[|w| - 1])
  {
    WordOf(w, if IsWord(w, "MINUTE") then "MINUTE" else "MINUTES");
  }

  lemma MinutesOf(digits: string, blanks: string, unit: string, s: string)
    requires s == digits + (blanks + unit) && digits != "" && AllDigits(digits) && blanks != "" && AllBlank(blanks)
    requires IsWord(unit, "MINUTE") || IsWord(unit, "MINUTES")
    ensures IsMinutes(s) && s[..DigitRun(s)] == digits
    ensures !IsSpace(s[0]) && !IsSpace(s[|s| - 1])
  {
    UnitOf(unit);
    DigitRunOf(digits, blanks + unit);
    assert s[|digits|..] == blanks + unit;
    SkipBlankOf(blanks, unit);
    assert IsDigit(digits[0]) && s[|s| - 1] == unit[|unit| - 1];
  }

  lemma MinutesSplit(s: string) returns (digits: string, blanks: string, unit: string)
    requires IsMinutes(s)
    ensures s == digits + (blanks + unit) && digits == s[..DigitRun(s)] && digits != "" && AllDigits(digits)
    ensures blanks != "" && AllBlank(blanks) && (IsWord(unit, "MINUTE") || IsWord(unit, "MINUTES"))
  {
    var d := DigitRun(s);
    digits := s[..d];
    unit := SkipBlank(s[d..]);
    blanks := BlanksBefore(s[d..]);
  }

  lemma AfterWordOf(w: string, b: string, t: string, word: string, s: string)
    requires s == w + (b + t) && IsWord(w, word) && |w| == |word|
    requires b != "" && AllBlank(b) && (t != "" ==> !IsBlank(t[0]))
    ensures AfterWord(s, word) == Some(t)
  {
    assert s[..|w|] == w && s[|w|..] == b + t;
    SkipBlankOf(b, t);
  }

  lemma AfterWordSplit(s: string, word: string) returns (w: string, b: string)
    requires AfterWord(s, word).Some?
    ensures var t := AfterWord(s, word).value;
      s == w + (b + t) && IsWord(w, word) && b != "" && AllBlank(b) && (t != "" ==> !IsBlank(t[0]))
  {
    w := s[..|word|];
    b := BlanksBefore(s[|word|..]);
    assert SkipBlank(s[|word|..]) != s[|word|..];
  }

  lemma CronOf(using: string, b: string, cron: string, b': string, text: string, s: string)
    requires s == using + (b + (cron + (b' + text))) && IsWord(using, "USING") && IsWord(cron, "CRON")
    requires b != "" && AllBlank(b) && b' != "" && AllBlank(b')
    requires text != "" && !IsBlank(text[0]) && !IsSpace(text[|text| - 1]) && '\n' !in text
    ensures CronPart(s) == Some(text) && !IsMinutes(s)
    ensures !IsSpace(s[0]) && !IsSpace(s[|s| - 1])
  {
    WordOf(using, "USING");
    WordOf(cron, "CRON");
    var t := cron + (b' + text);
    AfterWordOf(using, b, t, "USING", s);
    AfterWordOf(cron, b', text, "CRON", t);
    assert s[0] == using[0] && s[|s| - 1] == text[|text| - 1];
  }

  lemma CronSplit(s: string) returns (using: string, b: string, cron: string, b': string)
    requires CronPart(s).Some?
    ensures var text := CronPart(s).value;
      && s == using + (b + (cron + (b' + text))) && IsWord(using, "USING") && IsWord(cron, "CRON")
      && b != "" && AllBlank(b) && b' != "" && AllBlank(b')
      && text != "" && !IsBlank(text[0]) && text[|text| - 1] == s[|s| - 1] && '\n' !in text
  {
    using, b := AfterWordSplit(s, "USING");
    cron, b' := AfterWordSplit(AfterWord(s, "USING").value, "CRON");
  }

  lemma MinutesParse(s: string, n: nat, zones: string -> Option<int>)
    requires SaysMinutes(s, n)
    ensures ParseSchedule(s, zones) == if 0 < n <= MAX_INT64 then Some(Every(n)) else None
  {
    var before, digits, blanks, word, after :| MinutesText(s, n, before, digits, blanks, word, after);
    var core := digits + (blanks + word);
    MinutesOf(digits, blanks, word, core);
    TrimOf(before, core, after);
    AtoiDigits(digits);
  }

  lemma CronParse(s: string, expr: string, zones: string -> Option<int>)
    requires SaysCron(s, expr)
    ensures ParseSchedule(s, zones) == if expr != "" && ExprSyntax(expr, zones) then Some(OnCron(expr)) else None
  {
    var text, before, using, blanks, cron, blanks', after :|
      CronText(s, text, before, using, blanks, cron, blanks', after) && expr == Trim(text);
    var core := using + (blanks + (cron + (blanks' + text)));
    CronOf(using, blanks, cron, blanks', text, core);
    TrimOf(before, core, after);
  }

  /** What parses says so. */
  lemma ParsedSays(s: string, zones: string -> Option<int>)
    requires ParseSchedule(s, zones).Some?
    ensures match ParseSchedule(s, zones).value
            case Every(n) => SaysMinutes(s, n)
            case OnCron(expr) => SaysCron(s, expr)
  {
    if IsMinutes(Trim(s)) { ParsedMinutes(s); } else { ParsedCron(s); }
  }

  lemma ParsedMinutes(s: string)
    requires IsMinutes(Trim(s))
    ensures var digits := Trim(s)[..DigitRun(Trim(s))];
      Atoi(digits).Some? ==> Atoi(digits).value >= 0 && SaysMinutes(s, Atoi(digits).value)
  {
    var before, after := TrimShape(s);
    var digits, blanks, word := MinutesSplit(Trim(s));
    AtoiDigits(digits);
    assert MinutesText(s, Decimal(digits), before, digits, blanks, word, after);
  }

  lemma ParsedCron(s: string)
    requires CronPart(Trim(s)).Some?
    ensures SaysCron(s, Trim(CronPart(Trim(s)).value))
  {
    var before, after := TrimShape(s);
    TrimEnd(s);
    var using, blanks, cron, blanks' := CronSplit(Trim(s));
    assert CronText(s, CronPart(Trim(s)).value, before, using, blanks, cron, blanks', after);
  }

  /** Neither a number of minutes nor an expression. */
  ghost predicate SaysNothing(s: string, zones: string -> Option<int>) {
    && (forall n: nat :: SaysMinutes(s, n) ==> n == 0 || n > MAX_INT64)
    && (forall expr :: SaysCron(s, expr) ==> !ExprSyntax(expr, zones))
  }

  /** The run that a schedule says comes next: so many minutes later, the next minute of
      its expression, and one minute later for any text that says neither. */
  ghost predicate SaysNext(s: string, zones: string -> Option<int>, now: int, next: int) {
    && (forall n: nat :: SaysMinutes(s, n) && 0 < n <= MAX_MINUTES ==> next == now + n * MINUTE)
    && (forall n: nat :: SaysMinutes(s, n) && MAX_MINUTES < n <= MAX_INT64 ==> next == now + Wrap64(n * MINUTE))
    && (forall expr :: SaysCron(s, expr) && ExprSyntax(expr, zones) ==> CronNext(expr, zones, now, next))
    && (SaysNothing(s, zones) ==> next == now + MINUTE)
  }

  lemma NextIsSaid(s: string, zones: string -> Option<int>, now: int, next: int)
    requires NextRun(ParseSchedule(s, zones), zones, now, next)
    ensures SaysNext(s, zones, now, next)
  {
    forall n: nat | SaysMinutes(s, n) && 0 < n <= MAX_INT64
      ensures next == now + Wrap64(n * MINUTE) && (n <= MAX_MINUTES ==> next == now + n * MINUTE)
    {
      MinutesParse(s, n, zones);
      EveryExact(n);
    }
    forall expr | SaysCron(s, expr) && ExprSyntax(expr, zones) ensures CronNext(expr, zones, now, next) {
      CronParse(s, expr, zones);
    }
    if SaysNothing(s, zones) { NothingParses(s, zones); }
  }

  lemma NothingParses(s: string, zones: string -> Option<int>)
    requires SaysNothing(s, zones)
    ensures ParseSchedule(s, zones) == None
  {
    if ParseSchedule(s, zones).Some? { ParsedSays(s, zones); }
  }

  /** N, blanks and MINUTE say N minutes. */
  lemma PrintedMinutes(n: nat, blanks: string, word: string)
    requires blanks != "" && AllBlank(blanks) && (IsWord(word, "MINUTE") || IsWord(word, "MINUTES"))
    ensures SaysMinutes(Itoa(n) + blanks + word, n)
  {
    ItoaDigits(n);
    assert Itoa(n) + blanks + word == "" + (Itoa(n) + (blanks + word)) + "";
    assert MinutesText(Itoa(n) + blanks + word, n, "", Itoa(n), blanks, word, "");
  }

  /** USING CRON and an expression say that expression. */
  lemma PrintedCron(using: string, cron: string, expr: string)
    requires IsWord(using, "USING") && IsWord(cron, "CRON")
    requires expr != "" && Trim(expr) == expr && !IsBlank(expr[0]) && '\n' !in expr
    ensures SaysCron(using + " " + cron + " " + expr, expr)
  {
    var s := using + " " + cron + " " + expr;
    TrimEnd(expr);
    assert s == "" + (using + (" " + (cron + (" " + expr)))) + "";
    assert CronText(s, expr, "", using, " ", cron, " ", "");
  }

  /** A product of durations in 64 bits. */
  function Wrap64(x: int): (r: int)
    ensures -0x8000_0000_0000_0000 <= r <= MAX_INT64 && (x - r) % 0x1_0000_0000_0000_0000 == 0
  {
    (x + 0x8000_0000_0000_0000) % 0x1_0000_0000_0000_0000 - 0x8000_0000_0000_0000
  }

  /** The largest minute count whose duration fits in 64 bits. */
  const MAX_MINUTES := 153_722_867

  /** The duration of N minutes is N minutes exactly up to MAX_MINUTES. */
  lemma EveryExact(n: int)
    requires 0 < n <= MAX_INT64
    ensures Wrap64(n * MINUTE) == n * MINUTE <==> n <= MAX_MINUTES
  {
  }

  /** One minute more and the next run lies in the past. */
  lemma EveryWraps()
    ensures Wrap64((MAX_MINUTES + 1) * MINUTE) < 0
  {
  }

  /** The next minute that the expression means, or one minute later if none comes. */
  ghost predicate CronNext(expr: string, zones: string -> Option<int>, now: int, next: int) {
    ExprSyntax(expr, zones) &&
    exists f, off ::
      && ExprMeans(expr, zones, f, off)
      && (IsNext(DueAt(f, off), now, next) || (NoneDue(DueAt(f, off), now) && next == now + MINUTE))
  }

  /** The run that follows an instant; a schedule with no next run is tried again
      in a minute. */
  ghost predicate NextRun(plan: Option<Plan>, zones: string -> Option<int>, now: int, next: int) {
    match plan
    case None => next == now + MINUTE
    case Some(Every(n)) => next == now + Wrap64(n * MINUTE)
    case Some(OnCron(expr)) => CronNext(expr, zones, now, next)
  }

  predicate Advances(plan: Option<Plan>) {
    plan.Some? && plan.value.Every? ==> Wrap64(plan.value.minutes * MINUTE) > 0
  }

  /** The next run is later, unless the duration wrapped. */
  lemma NextRunLater(plan: Option<Plan>, zones: string -> Option<int>, now: int, next: int)
    requires NextRun(plan, zones, now, next)
    ensures next > now <==> Advances(plan)
  {
  }

  /** nextRunTime. */
  method NextRunTime(schedule: string, zones: string -> Option<int>, now: int) returns (next: int)
    ensures NextRun(ParseSchedule(schedule, zones), zones, now, next) && SaysNext(schedule, zones, now, next)
  {
    var plan := ParseSchedule(schedule, zones);
    next := NextAfter(plan, zones, now);
    NextIsSaid(schedule, zones, now, next);
  }

  method NextAfter(plan: Option<Plan>, zones: string -> Option<int>, now: int) returns (next: int)
    requires plan.Some? && plan.value.OnCron? ==> ExprSyntax(plan.value.expr, zones)
    ensures NextRun(plan, zones, now, next)
  {
    match plan
    case None => return now + MINUTE;
    case Some(Every(n)) => return now + Wrap64(n * MINUTE);
    case Some(OnCron(expr)) =>
      var found, f, off := NextCronTime(expr, zones, now);
      match found
      case Ok(t) => return t;
      case Err(_) => return now + MINUTE;
  }
}

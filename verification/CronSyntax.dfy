/** The grammar of cron expressions: what a written expression means, element by
    element, and that parsing it gives that meaning. */
module CronSyntax {
  import opened Text
  import opened Cron
  import opened Numbers

  predicate Lacks(s: string, c: char) {
    forall i :: 0 <= i < |s| ==> s[i] != c
  }

  lemma {:induction false} IndexAfter(a: string, c: char, b: string)
    requires Lacks(a, c)
    ensures IndexOf(a + [c] + b, c) == Some(|a|)
    ensures (a + [c] + b)[..|a|] == a && (a + [c] + b)[|a| + 1..] == b
  {
    if a != "" {
      assert (a + [c] + b)[1..] == a[1..] + [c] + b;
      IndexAfter(a[1..], c, b);
    }
  }

  // ---- Elements ----

  /** A value, a range, or every value. */
  datatype Part = One(n: nat) | Span(from: nat, to: nat) | Star

  datatype Element = Element(part: Part, step: Option<nat>)

  function StepOf(e: Element): nat {
    match e.step case Some(k) => k case None => 1
  }

  function Nth(from: int, step: int, j: nat): int {
    from + j * step
  }

  /** from, from + step, from + 2 * step, ... */
  ghost predicate Steps(from: int, step: int, v: int) {
    exists j: nat :: v == Nth(from, step, j)
  }

  /** The values that an element of a field with these bounds names. */
  ghost predicate Picks(e: Element, min: int, max: int, v: int) {
    match e.part
    case One(n) => v == n
    case Span(a, b) => v <= b && Steps(a, StepOf(e), v)
    case Star => v <= max && Steps(min, StepOf(e), v)
  }

  /** An element that is accepted in a field with these bounds. */
  predicate Within(e: Element, min: int, max: int) {
    && 0 < StepOf(e) <= MAX_INT64
    && match e.part
       case One(n) => min <= n <= max
       case Span(a, b) => min <= a <= b <= max
       case Star => min <= max
  }

  /** What the parser makes of an element. */
  function ItemOf(e: Element, min: int, max: int): Item {
    match e.part
    case One(n) => Item(n, n, StepOf(e))
    case Span(a, b) => Item(a, b, StepOf(e))
    case Star => Item(min, max, StepOf(e))
  }

  lemma StepsMod(from: int, step: int, v: int)
    requires step > 0
    ensures Steps(from, step, v) <==> v >= from && (v - from) % step == 0
  {
    if Steps(from, step, v) {
      var j: nat :| v == Nth(from, step, j);
      MultipleMod(j, 0, step);
      AtLeastOnce(j, step);
    }
    if v >= from && (v - from) % step == 0 {
      assert v == Nth(from, step, (v - from) / step);
    }
  }

  lemma ItemPicks(e: Element, min: int, max: int, v: int)
    requires Within(e, min, max)
    ensures Selects(ItemOf(e, min, max), v) <==> Picks(e, min, max, v)
  {
    var it := ItemOf(e, min, max);
    StepsMod(it.start, it.step, v);
  }

  // ---- Writing and parsing an element ----

  lemma ItoaLacks(n: nat)
    ensures Lacks(Itoa(n), '-') && Lacks(Itoa(n), '/') && Lacks(Itoa(n), ',') && Lacks(Itoa(n), '*')
    ensures forall i :: 0 <= i < |Itoa(n)| ==> !IsSpace(Itoa(n)[i])
  {
    ItoaDigits(n);
  }

  function ShowPart(p: Part): string {
    match p
    case One(n) => Itoa(n)
    case Span(a, b) => Itoa(a) + ['-'] + Itoa(b)
    case Star => "*"
  }

  function ShowElement(e: Element): string {
    match e.step
    case None => ShowPart(e.part)
    case Some(k) => ShowPart(e.part) + ['/'] + Itoa(k)
  }

  predicate Unspaced(s: string) {
    forall i :: 0 <= i < |s| ==> !IsSpace(s[i])
  }

  lemma ShownPart(p: Part)
    ensures ShowPart(p) != "" && Lacks(ShowPart(p), '/') && Lacks(ShowPart(p), ',') && Unspaced(ShowPart(p))
    ensures ShowPart(p) == "*" <==> p.Star?
  {
    match p
    case One(n) => ItoaLacks(n); ItoaDigits(n);
    case Span(a, b) =>
      ItoaLacks(a);
      ItoaLacks(b);
      ItoaDigits(a);
      assert ShowPart(p)[|Itoa(a)|] == '-';
    case Star =>
  }

  lemma PartParses(p: Part, min: int, max: int)
    requires 0 <= min && max <= MAX_INT64
    ensures var r := ParseRange(ShowPart(p), min, max);
      match p
      case One(n) => r == if n <= MAX_INT64 then Ok((n as int, n as int)) else Err("cron: invalid value")
      case Span(a, b) =>
        r == if a <= MAX_INT64 && b <= MAX_INT64 then Ok((a as int, b as int)) else Err("cron: invalid range")
      case Star => r == Ok((min, max))
  {
    ShownPart(p);
    match p
    case One(n) => ItoaLacks(n); AtoiItoa(n); IndexNone(Itoa(n), '-');
    case Span(a, b) =>
      ItoaLacks(a);
      AtoiItoa(a);
      AtoiItoa(b);
      IndexAfter(Itoa(a), '-', Itoa(b));
    case Star =>
  }

  lemma {:induction false} IndexNone(s: string, c: char)
    requires Lacks(s, c)
    ensures IndexOf(s, c) == None
  {
    if s != "" { IndexNone(s[1..], c); }
  }

  lemma StepParses(p: Part, step: Option<nat>, s: string)
    requires s == ShowElement(Element(p, step))
    ensures ParseStep(s) == if 0 < StepOf(Element(p, step)) <= MAX_INT64
              then Ok((ShowPart(p), StepOf(Element(p, step)) as int)) else Err("cron: invalid step")
  {
    ShownPart(p);
    match step
    case None => IndexNone(s, '/');
    case Some(k) =>
      AtoiItoa(k);
      IndexAfter(ShowPart(p), '/', Itoa(k));
  }

  /** An element is accepted exactly within the bounds, and then parsed as written. */
  lemma ElementParses(e: Element, min: int, max: int)
    requires 0 <= min && max <= MAX_INT64
    ensures ParseItem(ShowElement(e), min, max).Ok? <==> Within(e, min, max)
    ensures Within(e, min, max) ==> ParseItem(ShowElement(e), min, max) == Ok(ItemOf(e, min, max))
  {
    StepParses(e.part, e.step, ShowElement(e));
    PartParses(e.part, min, max);
  }

  lemma ShownElement(e: Element)
    ensures ShowElement(e) != "" && Lacks(ShowElement(e), ',') && Unspaced(ShowElement(e))
    ensures ShowElement(e) == "*" <==> e == Element(Star, None)
  {
    ShownPart(e.part);
    if e.step.Some? {
      ItoaLacks(e.step.value);
      assert ShowElement(e)[|ShowPart(e.part)|] == '/';
    }
  }

  // ---- Fields ----

  function ShowList(es: seq<Element>): string
    requires es != []
  {
    if |es| == 1 then ShowElement(es[0]) else ShowElement(es[0]) + [','] + ShowList(es[1..])
  }

  lemma {:induction false} SplitHead(a: string, c: char, b: string)
    requires Lacks(a, c)
    ensures SplitOn(a + [c] + b, c) == [a] + SplitOn(b, c)
  {
    var s := a + [c] + b;
    if a == "" {
      assert s[1..] == b;
    } else {
      assert s[1..] == a[1..] + [c] + b;
      SplitHead(a[1..], c, b);
      assert [a[0]] + a[1..] == a;
    }
  }

  lemma {:induction false} SplitOne(a: string, c: char)
    requires Lacks(a, c)
    ensures SplitOn(a, c) == [a]
  {
    if a != "" {
      SplitOne(a[1..], c);
      assert [a[0]] + a[1..] == a;
    }
  }

  lemma {:induction false} ShownListSplits(es: seq<Element>)
    requires es != []
    ensures var parts := SplitOn(ShowList(es), ',');
      |parts| == |es| && forall i :: 0 <= i < |es| ==> parts[i] == ShowElement(es[i])
    decreases |es|
  {
    ShownElement(es[0]);
    if |es| == 1 {
      SplitOne(ShowElement(es[0]), ',');
    } else {
      ShownListSplits(es[1..]);
      SplitHead(ShowElement(es[0]), ',', ShowList(es[1..]));
    }
  }

  lemma {:induction false} ShownListWord(es: seq<Element>)
    requires es != []
    ensures ShowList(es) != "" && Unspaced(ShowList(es))
    ensures ShowList(es) == "*" <==> es == [Element(Star, None)]
    decreases |es|
  {
    ShownElement(es[0]);
    if |es| > 1 {
      ShownListWord(es[1..]);
      ListJoined(ShowElement(es[0]), ShowList(es[1..]));
    }
  }

  lemma ListJoined(a: string, b: string)
    requires a != "" && Unspaced(a) && Unspaced(b)
    ensures Unspaced(a + [','] + b) && a + [','] + b != "*"
  {
    assert (a + [','] + b)[|a|] == ',';
  }

  predicate AllWithin(es: seq<Element>, min: int, max: int) {
    forall i :: 0 <= i < |es| ==> Within(es[i], min, max)
  }

  /** v is named by one of the elements. */
  ghost predicate Listed(es: seq<Element>, min: int, max: int, v: int) {
    exists i :: 0 <= i < |es| && Picks(es[i], min, max, v)
  }

  lemma ListParses(es: seq<Element>, min: int, max: int)
    requires es != [] && 0 <= min && max <= MAX_INT64
    ensures AllParse(SplitOn(ShowList(es), ','), min, max) <==> AllWithin(es, min, max)
  {
    ShownListSplits(es);
    var parts := SplitOn(ShowList(es), ',');
    forall i | 0 <= i < |es| ensures ParseItem(parts[i], min, max).Ok? <==> Within(es[i], min, max) {
      ElementParses(es[i], min, max);
    }
  }

  /** A written list is accepted exactly if all its elements are within the bounds, and
      then denotes exactly the values that its elements name. */
  lemma ShownListDenotes(es: seq<Element>, min: int, max: int)
    requires es != [] && 0 <= min && max <= MAX_INT64
    ensures var parts := SplitOn(ShowList(es), ',');
      && (AllParse(parts, min, max) <==> AllWithin(es, min, max))
      && (AllWithin(es, min, max) ==> forall v :: Denoted(parts, min, max, v) <==> Listed(es, min, max, v))
  {
    ListParses(es, min, max);
    if AllWithin(es, min, max) {
      forall v ensures Denoted(SplitOn(ShowList(es), ','), min, max, v) <==> Listed(es, min, max, v) {
        ListPicks(es, min, max, v);
      }
    }
  }

  lemma ListPicks(es: seq<Element>, min: int, max: int, v: int)
    requires es != [] && 0 <= min && max <= MAX_INT64 && AllWithin(es, min, max)
    requires AllParse(SplitOn(ShowList(es), ','), min, max)
    ensures Denoted(SplitOn(ShowList(es), ','), min, max, v) <==> Listed(es, min, max, v)
  {
    ShownListSplits(es);
    var parts := SplitOn(ShowList(es), ',');
    forall i | 0 <= i < |es|
      ensures Selects(ParseItem(parts[i], min, max).value, v) <==> Picks(es[i], min, max, v)
    {
      ElementParses(es[i], min, max);
      ItemPicks(es[i], min, max, v);
    }
  }
}

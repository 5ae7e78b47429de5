/** Numbers written in decimal and read again. */
module Numbers {
  import opened Text

  lemma {:induction false} DigitsAppend(a: string, b: string)
    requires DigitRun(a) == |a| && DigitRun(b) == |b|
    ensures DigitRun(a + b) == |a + b|
  {
    if a == "" { assert a + b == b; } else {
      assert (a + b)[1..] == a[1..] + b;
      DigitsAppend(a[1..], b);
    }
  }

  lemma DecimalLast(s: string, c: char)
    requires (forall k :: 0 <= k < |s| ==> IsDigit(s[k])) && IsDigit(c)
    ensures Decimal(s + [c]) == 10 * Decimal(s) + DigitValue(c)
  {
    assert (s + [c])[..|s|] == s;
  }

  lemma {:induction false} ItoaDigits(n: nat)
    ensures Itoa(n) != "" && DigitRun(Itoa(n)) == |Itoa(n)| && Decimal(Itoa(n)) == n
    decreases n
  {
    if n < 10 {
      var c := ('0' as int + n) as char;
      assert DigitRun([c]) == 1;
      DecimalLast("", c);
      assert "" + [c] == [c];
    } else {
      ItoaDigits(n / 10);
      ItoaDigits(n % 10);
      DigitsAppend(Itoa(n / 10), Itoa(n % 10));
      DecimalLast(Itoa(n / 10), Itoa(n % 10)[0]);
    }
  }

  predicate AllDigits(s: string) {
    forall i :: 0 <= i < |s| ==> IsDigit(s[i])
  }

  lemma AtoiDigits(d: string)
    requires d != "" && AllDigits(d)
    ensures Atoi(d) == if Decimal(d) <= MAX_INT64 then Some(Decimal(d)) else None
  {
    assert IsDigit(d[0]);
    assert AfterSign(d) == d;
    assert DigitRun(d) == |d|;
  }

  lemma AtoiItoa(n: nat)
    ensures Atoi(Itoa(n)) == if n <= MAX_INT64 then Some(n) else None
  {
    ItoaDigits(n);
    AtoiDigits(Itoa(n));
  }

  lemma {:induction false} DigitRunOf(d: string, t: string)
    requires AllDigits(d) && (t != "" ==> !IsDigit(t[0]))
    ensures DigitRun(d + t) == |d|
  {
    if d == "" { assert d + t == t; } else {
      assert (d + t)[1..] == d[1..] + t;
      DigitRunOf(d[1..], t);
    }
  }
}

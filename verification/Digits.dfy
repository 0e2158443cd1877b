/** Decimal text of naturals: printing, reading, padding with zeros, and splitting at a separator. */
module Digits {

  predicate IsDigit(c: char) { '0' <= c <= '9' }

  predicate AllDigits(s: string) { forall i :: 0 <= i < |s| ==> IsDigit(s[i]) }

  function DigitChar(d: nat): (c: char)
    requires d < 10
    ensures IsDigit(c) && DigitValue(c) == d
  {
    '0' + d as char
  }

  function DigitValue(c: char): nat
    requires IsDigit(c)
  {
    (c - '0') as nat
  }

  function Show(n: nat): string {
    if n < 10 then [DigitChar(n)] else Show(n / 10) + [DigitChar(n % 10)]
  }

  function Read(s: string): nat
    requires AllDigits(s)
  {
    if |s| == 0 then 0 else Read(s[..|s| - 1]) * 10 + DigitValue(s[|s| - 1])
  }

  function Zeros(k: nat): (s: string)
    ensures |s| == k && AllDigits(s) && forall i :: 0 <= i < k ==> s[i] == '0'
  {
    if k == 0 then "" else Zeros(k - 1) + "0"
  }

  function Pow10(k: nat): (p: nat)
    ensures p > 0
  {
    if k == 0 then 1 else Pow10(k - 1) * 10
  }

  lemma {:induction false} ReadZero()
    ensures Read("0") == 0
  {
    assert "0"[..0] == "";
  }

  /** What is printed is digits without a leading zero, and reads back. */
  lemma {:induction false} ReadShow(n: nat)
    ensures AllDigits(Show(n)) && |Show(n)| > 0 && Read(Show(n)) == n
    ensures Show(n)[0] == '0' ==> Show(n) == "0"
  {
    if n < 10 {
      assert Show(n)[..0] == "";
    } else {
      ReadShow(n / 10);
      var front := Show(n / 10);
      assert Show(n)[..|front|] == front;
      ReadZero();
    }
  }

  lemma {:induction false} ShowInjective(m: nat, n: nat)
    requires Show(m) == Show(n)
    ensures m == n
  {
    ReadShow(m);
    ReadShow(n);
  }

  lemma {:induction false} ReadZeros(k: nat)
    ensures Read(Zeros(k)) == 0
  {
    if k > 0 {
      ReadZeros(k - 1);
      assert Zeros(k)[..k - 1] == Zeros(k - 1);
    }
  }

  lemma {:induction false} TimesTen(a: nat, b: nat)
    ensures a * b * 10 == a * (b * 10)
  {
  }

  lemma {:induction false} ReadAppend(a: string, b: string)
    requires AllDigits(a) && AllDigits(b)
    ensures AllDigits(a + b) && Read(a + b) == Read(a) * Pow10(|b|) + Read(b)
  {
    if |b| == 0 {
      assert a + b == a;
    } else {
      var front := b[..|b| - 1];
      ReadAppend(a, front);
      assert (a + b)[..|a + b| - 1] == a + front;
      TimesTen(Read(a), Pow10(|front|));
    }
  }

  lemma {:induction false} ReadPadded(k: nat, s: string)
    requires AllDigits(s)
    ensures AllDigits(Zeros(k) + s) && Read(Zeros(k) + s) == Read(s)
  {
    ReadAppend(Zeros(k), s);
    ReadZeros(k);
  }

  lemma {:induction false} ShowLength(n: nat, k: nat)
    requires n < Pow10(k) && k > 0
    ensures |Show(n)| <= k
  {
    assert Pow10(0) == 1;
    if n >= 10 { ShowLength(n / 10, k - 1); }
  }

  // Products and Euclidean division of naturals, with the facts their callers need.

  /** The product, by repeated addition. */
  function Times(a: nat, b: nat): nat {
    if a == 0 then 0 else Times(a - 1, b) + b
  }

  lemma {:induction false} TimesIs(a: nat, b: nat)
    ensures Times(a, b) == a * b
  {
    if a > 0 { TimesIs(a - 1, b); }
  }

  lemma {:induction false} TimesShift(a: nat, b: nat)
    ensures Times(a, b * 10) == Times(a, b) * 10
  {
    TimesIs(a, b);
    TimesIs(a, b * 10);
    TimesTen(a, b);
  }

  /** Division by repeated subtraction. */
  function Quotient(a: nat, b: nat): nat
    requires b > 0
  {
    if a < b then 0 else Quotient(a - b, b) + 1
  }

  function Remainder(a: nat, b: nat): nat
    requires b > 0
  {
    if a < b then a else Remainder(a - b, b)
  }

  lemma {:induction false} Division(a: nat, b: nat)
    requires b > 0
    ensures Remainder(a, b) < b && Times(Quotient(a, b), b) + Remainder(a, b) == a
  {
    if a >= b { Division(a - b, b); }
  }

  // ------------------------------------------------------------------ splitting

  /** The text before the first occurrence of `c`, or all of it. */
  function Before(s: string, c: char): (r: string)
    ensures r <= s && c !in r && (|r| < |s| ==> s[|r|] == c)
  {
    if |s| == 0 || s[0] == c then "" else [s[0]] + Before(s[1..], c)
  }

  lemma {:induction false} BeforeIs(s: string, rest: string, c: char)
    requires c !in s && (rest != "" ==> rest[0] == c)
    ensures Before(s + rest, c) == s
  {
    if |s| > 0 {
      assert (s + rest)[1..] == s[1..] + rest;
      BeforeIs(s[1..], rest, c);
    } else {
      assert s + rest == rest;
    }
  }
}

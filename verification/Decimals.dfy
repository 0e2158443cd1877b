/** Base-unit amounts as decimal strings. */
module Decimals {
  import opened Wrappers
  import opened Digits

  /** Drops trailing zeros. */
  function Strip(s: string): (r: string)
    ensures r <= s && (|r| > 0 ==> r[|r| - 1] != '0')
  {
    if |s| > 0 && s[|s| - 1] == '0' then Strip(s[..|s| - 1]) else s
  }

  function PadStart(s: string, width: nat): string {
    if |s| < width then Zeros(width - |s|) + s else s
  }

  /** `BigInt` of a digit string; None where it throws. */
  function ToBigInt(s: string): Option<nat> {
    if AllDigits(s) then Some(Read(s)) else None
  }

  function Join(whole: string, fraction: string): string {
    if fraction != "" then whole + "." + fraction else whole
  }

  function Fraction(value: nat, decimals: nat): string {
    Strip(PadStart(Show(Remainder(value, Pow10(decimals))), decimals))
  }

  function Magnitude(value: nat, decimals: int): string {
    if decimals <= 0 then Show(value) else Join(Show(Quotient(value, Pow10(decimals))), Fraction(value, decimals))
  }

  function Scaled(negative: bool, value: nat, decimals: int): string {
    (if negative && value != 0 then "-" else "") + Magnitude(value, decimals)
  }

  function BaseUnitsToDecimalString(raw: Option<string>, decimals: int): Option<string> {
    if raw.None? then Some("0")
    else
      var integerPart := var front := Before(raw.value, '.'); if front == "" then "0" else front;
      var negative := integerPart[0] == '-';
      var value := ToBigInt(if negative then integerPart[1..] else integerPart);
      if value.None? then None else Some(Scaled(negative, value.value, decimals))
  }

  function ShowInt(n: int): string { if n < 0 then "-" + Show(-n) else Show(n) }

  function FormatDecimal7(n: int): string { ShowInt(n) + "." + "0000000" }

  /** How an integer amount is printed. */
  function Print(n: int, decimals: int): string { Scaled(n < 0, if n < 0 then -n else n, decimals) }

  /** Any integer amount is printed, and whatever follows a point in the text is not looked at. */
  lemma {:induction false} IntegersPrint(n: int, suffix: string, decimals: int)
    ensures BaseUnitsToDecimalString(Some(ShowInt(n)), decimals) == Some(Print(n, decimals))
    ensures BaseUnitsToDecimalString(Some(ShowInt(n) + "." + suffix), decimals) == Some(Print(n, decimals))
  {
    var digits := Show(if n < 0 then -n else n);
    ReadShow(if n < 0 then -n else n);
    assert '.' !in ShowInt(n);
    BeforeIs(ShowInt(n), "", '.');
    assert ShowInt(n) + "" == ShowInt(n);
    assert ShowInt(n) + "." + suffix == ShowInt(n) + ("." + suffix);
    BeforeIs(ShowInt(n), "." + suffix, '.');
    assert n < 0 ==> ShowInt(n)[1..] == digits;
  }

  /** The fixed seven-zero suffix of a stored amount does not change its text. */
  lemma {:induction false} SuffixIgnored(n: int, decimals: int)
    ensures BaseUnitsToDecimalString(Some(FormatDecimal7(n)), decimals) == BaseUnitsToDecimalString(Some(ShowInt(n)), decimals)
  {
    IntegersPrint(n, "0000000", decimals);
  }

  // ---------------------------------------------------------------- reading back

  /** The part after the first point. */
  function After(text: string): string {
    var whole := Before(text, '.');
    if |whole| < |text| then text[|whole| + 1..] else ""
  }

  /** The magnitude a decimal text denotes in base units; None where it is not a decimal of that scale. */
  function ReadMagnitude(text: string, decimals: nat): Option<nat> {
    var whole, fraction := Before(text, '.'), After(text);
    if AllDigits(whole) && AllDigits(fraction) && |fraction| <= decimals
    then Some(Times(Read(whole), Pow10(decimals)) + Times(Read(fraction), Pow10(decimals - |fraction|)))
    else None
  }

  function ReadDecimal(text: string, decimals: int): Option<int> {
    var negative := text != "" && text[0] == '-';
    var r := ReadMagnitude(if negative then text[1..] else text, if decimals < 0 then 0 else decimals);
    match r
    case None => None
    case Some(m) => var v: int := m; Some(if negative then -v else v)
  }

  lemma {:induction false} JoinSplits(whole: string, fraction: string)
    requires AllDigits(whole)
    ensures Before(Join(whole, fraction), '.') == whole && After(Join(whole, fraction)) == fraction
  {
    var rest := if fraction != "" then "." + fraction else "";
    assert Join(whole, fraction) == whole + rest;
    BeforeIs(whole, rest, '.');
  }

  lemma {:induction false} StripReads(s: string)
    requires AllDigits(s)
    ensures AllDigits(Strip(s)) && Read(s) == Times(Read(Strip(s)), Pow10(|s| - |Strip(s)|))
  {
    if |s| > 0 && s[|s| - 1] == '0' {
      var front := s[..|s| - 1];
      StripReads(front);
      TimesShift(Read(Strip(front)), Pow10(|front| - |Strip(front)|));
    } else {
      TimesIs(Read(s), 1);
    }
  }

  lemma {:induction false} FractionReads(value: nat, decimals: nat)
    requires 0 < decimals
    ensures var f := Fraction(value, decimals);
            AllDigits(f) && |f| <= decimals && Times(Read(f), Pow10(decimals - |f|)) == Remainder(value, Pow10(decimals))
  {
    Division(value, Pow10(decimals));
    PaddedReads(Remainder(value, Pow10(decimals)), decimals);
    StripReads(PadStart(Show(Remainder(value, Pow10(decimals))), decimals));
  }

  lemma {:induction false} PaddedReads(n: nat, width: nat)
    requires 0 < width && n < Pow10(width)
    ensures var padded := PadStart(Show(n), width); AllDigits(padded) && |padded| == width && Read(padded) == n
  {
    ReadShow(n);
    ShowLength(n, width);
    ReadPadded(width - |Show(n)|, Show(n));
  }

  lemma {:induction false} JoinReads(whole: nat, fraction: string, rest: nat, decimals: nat)
    requires AllDigits(fraction) && |fraction| <= decimals && Times(Read(fraction), Pow10(decimals - |fraction|)) == rest
    ensures ReadMagnitude(Join(Show(whole), fraction), decimals) == Some(Times(whole, Pow10(decimals)) + rest)
  {
    ReadShow(whole);
    JoinSplits(Show(whole), fraction);
  }

  lemma {:induction false} WholeReads(value: nat)
    ensures ReadMagnitude(Show(value), 0) == Some(value)
  {
    TimesIs(value, 1);
    JoinReads(value, "", 0, 0);
  }

  lemma {:induction false} MagnitudeReads(value: nat, decimals: nat)
    ensures ReadMagnitude(Magnitude(value, decimals), decimals) == Some(value)
  {
    if decimals == 0 {
      WholeReads(value);
    } else {
      FractionReads(value, decimals);
      Division(value, Pow10(decimals));
      PartsRead(Quotient(value, Pow10(decimals)), Fraction(value, decimals), Remainder(value, Pow10(decimals)), decimals, value);
    }
  }

  lemma {:induction false} PartsRead(whole: nat, fraction: string, rest: nat, decimals: nat, value: nat)
    requires AllDigits(fraction) && |fraction| <= decimals && Times(Read(fraction), Pow10(decimals - |fraction|)) == rest
    requires Times(whole, Pow10(decimals)) + rest == value
    ensures ReadMagnitude(Join(Show(whole), fraction), decimals) == Some(value)
  {
    JoinReads(whole, fraction, rest, decimals);
  }

  /** Reading a printed amount back recovers it exactly, for every amount and number of decimals. */
  lemma {:induction false} PrintReadsBack(n: int, decimals: int)
    ensures ReadDecimal(Print(n, decimals), decimals) == Some(n)
  {
    var value, places := if n < 0 then -n else n, if decimals < 0 then 0 else decimals;
    var plain := Magnitude(value, places);
    MagnitudeReads(value, places);
    MagnitudeStarts(value, places);
    if n < 0 { assert ("-" + plain)[1..] == plain; }
    assert "" + plain == plain;
  }

  lemma {:induction false} MagnitudeStarts(value: nat, decimals: nat)
    ensures Magnitude(value, decimals) != "" && IsDigit(Magnitude(value, decimals)[0])
  {
    var whole := if decimals == 0 then value else Quotient(value, Pow10(decimals));
    ReadShow(whole);
  }

  lemma {:induction false} PrintInjective(m: int, n: int, decimals: int)
    requires Print(m, decimals) == Print(n, decimals)
    ensures m == n
  {
    PrintReadsBack(m, decimals);
    PrintReadsBack(n, decimals);
  }

  // -------------------------------------------------------------- texts of a column

  /** An integer amount as a decimal column may give it: with a fraction, and from some size on with an exponent. */
  datatype Column = Column(n: int, fraction: string, exponent: Option<nat>)

  /** The text denotes an integer; a mantissa in front of an exponent is not zero. */
  predicate IntegerColumn(c: Column) {
    && AllDigits(c.fraction)
    && (c.exponent.None? ==> c.fraction == Zeros(|c.fraction|))
    && (c.exponent.Some? ==> c.n != 0 && c.exponent.value > 0 && |c.fraction| <= c.exponent.value)
  }

  function ColumnText(c: Column): string {
    Join(ShowInt(c.n), c.fraction) + if c.exponent.Some? then "e+" + Show(c.exponent.value) else ""
  }

  /** The digits shifted by the exponent. */
  function ShiftedValue(n: nat, fraction: string, k: nat): nat
    requires AllDigits(fraction) && |fraction| <= k
  {
    Times(n, Pow10(k)) + Times(Read(fraction), Pow10(k - |fraction|))
  }

  function ColumnValue(c: Column): int
    requires IntegerColumn(c)
  {
    if c.exponent.None? then c.n
    else
      var v: int := ShiftedValue(if c.n < 0 then -c.n else c.n, c.fraction, c.exponent.value);
      if c.n < 0 then -v else v
  }

  /** A column is printed as the amount it denotes if and only if its text has no exponent. */
  lemma {:induction false} ColumnPrintsExactly(c: Column, decimals: int)
    requires IntegerColumn(c)
    ensures BaseUnitsToDecimalString(Some(ColumnText(c)), decimals) == Some(Print(ColumnValue(c), decimals)) <==> c.exponent.None?
  {
    var text, value := ColumnText(c), ColumnValue(c);
    if c.exponent.None? {
      PlainText(ShowInt(c.n), c.fraction, text);
      IntegersPrint(c.n, c.fraction, decimals);
    } else {
      var tail := "e+" + Show(c.exponent.value);
      if c.fraction == "" {
        ExponentThrows(c.n, c.exponent.value, decimals, ShowInt(c.n), tail, text);
      } else {
        ShiftGrows(if c.n < 0 then -c.n else c.n, c.fraction, c.exponent.value);
        PointText(ShowInt(c.n), c.fraction, tail, text);
        Misprints(c.n, value, c.fraction + tail, text, decimals);
      }
    }
  }

  lemma {:induction false} PlainText(whole: string, fraction: string, text: string)
    requires text == Join(whole, fraction) + ""
    ensures text == if fraction == "" then whole else whole + "." + fraction
  {
  }

  lemma {:induction false} PointText(whole: string, fraction: string, tail: string, text: string)
    requires fraction != "" && text == Join(whole, fraction) + tail
    ensures text == whole + "." + (fraction + tail)
  {
    assert whole + "." + (fraction + tail) == (whole + "." + fraction) + tail;
  }

  lemma {:induction false} Misprints(n: int, value: int, suffix: string, text: string, decimals: int)
    requires n != value && text == ShowInt(n) + "." + suffix
    ensures BaseUnitsToDecimalString(Some(text), decimals) != Some(Print(value, decimals))
  {
    IntegersPrint(n, suffix, decimals);
    if Print(n, decimals) == Print(value, decimals) { PrintInjective(n, value, decimals); }
  }

  lemma {:induction false} ShiftGrows(n: nat, fraction: string, k: nat)
    requires AllDigits(fraction) && |fraction| <= k && n > 0 && k > 0
    ensures ShiftedValue(n, fraction, k) > n
  {
    TimesGrows(n, Pow10(k));
  }

  lemma {:induction false} TimesGrows(a: nat, b: nat)
    requires a > 0 && b > 1
    ensures Times(a, b) > a
  {
    if a > 1 { TimesGrows(a - 1, b); }
  }

  /** An exponent without a point ends in the error of `BigInt`. */
  lemma {:induction false} ExponentThrows(n: int, k: nat, decimals: int, front: string, tail: string, text: string)
    requires front == ShowInt(n) && tail == "e+" + Show(k) && text == front + tail
    ensures BaseUnitsToDecimalString(Some(text), decimals) == None
  {
    ReadShow(if n < 0 then -n else n);
    ReadShow(k);
    assert tail[0] == 'e' && '.' !in tail && '.' !in front && text[0] == front[0];
    if n < 0 { assert text[1..] == front[1..] + tail; }
    OddTextThrows(text, if n < 0 then front[1..] else front, tail, decimals);
  }

  lemma {:induction false} OddTextThrows(text: string, front: string, tail: string, decimals: int)
    requires '.' !in text && tail != "" && !IsDigit(tail[0]) && text != ""
    requires (if text[0] == '-' then text[1..] else text) == front + tail
    ensures BaseUnitsToDecimalString(Some(text), decimals) == None
  {
    BeforeIs(text, "", '.');
    assert text + "" == text;
    assert (front + tail)[|front|] == tail[0];
  }

  // -------------------------------------------------------------- canonical text

  /** A whole part without leading zeros, and no point or a fraction that does not end in a zero. */
  predicate CanonicalMagnitude(text: string) {
    var whole, fraction := Before(text, '.'), After(text);
    && AllDigits(whole) && |whole| > 0 && (whole[0] == '0' ==> whole == "0")
    && AllDigits(fraction) && text == Join(whole, fraction)
    && (fraction != "" ==> fraction[|fraction| - 1] != '0')
  }

  predicate Canonical(text: string) {
    if text != "" && text[0] == '-' then CanonicalMagnitude(text[1..]) && text != "-0" else CanonicalMagnitude(text)
  }

  lemma {:induction false} MagnitudeCanonical(value: nat, decimals: nat)
    ensures CanonicalMagnitude(Magnitude(value, decimals))
  {
    if decimals == 0 {
      ReadShow(value);
      JoinSplits(Show(value), "");
    } else {
      var whole := Quotient(value, Pow10(decimals));
      ReadShow(whole);
      FractionReads(value, decimals);
      JoinSplits(Show(whole), Fraction(value, decimals));
    }
  }

  /** Printed amounts are canonical: no trailing fraction zeros, no negative zero, no leading zeros. */
  lemma {:induction false} PrintCanonical(n: int, decimals: int)
    ensures Canonical(Print(n, decimals))
  {
    var value, places := if n < 0 then -n else n, if decimals < 0 then 0 else decimals;
    var plain := Magnitude(value, places);
    MagnitudeCanonical(value, places);
    MagnitudeStarts(value, places);
    assert "" + plain == plain;
    if n < 0 {
      assert ("-" + plain)[1..] == plain;
      if plain == "0" { ZeroIsZero(value, places); }
    }
  }

  lemma {:induction false} ZeroIsZero(value: nat, decimals: nat)
    requires Magnitude(value, decimals) == "0"
    ensures value == 0
  {
    MagnitudeReads(value, decimals);
    assert Show(0) == "0" && Join(Show(0), "") == "0";
    TimesIs(0, Pow10(decimals));
    JoinReads(0, "", 0, decimals);
  }
}

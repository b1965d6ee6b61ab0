/** Decimal text: how integers are printed and how strconv reads them back. */
module Numerals {
  import opened Wrappers

  const MAX_INT64 := 0x7fff_ffff_ffff_ffff
  const MIN_INT64 := -0x8000_0000_0000_0000

  predicate IsDigit(c: char) {
    '0' <= c <= '9'
  }

  predicate IsDigits(s: string) {
    s != "" && forall i | 0 <= i < |s| :: IsDigit(s[i])
  }

  function DigitValue(c: char): int {
    c as int - '0' as int
  }

  function DigitChar(d: int): (c: char)
    requires 0 <= d < 10
    ensures IsDigit(c) && DigitValue(c) == d
  {
    ('0' as int + d) as char
  }

  /** The number a run of digits names, read left to right. */
  function DigitsValue(s: string): int {
    if s == "" then 0 else 10 * DigitsValue(s[..|s| - 1]) + DigitValue(s[|s| - 1])
  }

  lemma {:induction false} DigitsNotNegative(s: string)
    requires s == "" || IsDigits(s)
    ensures 0 <= DigitsValue(s)
  {
    if s != "" {
      DigitsNotNegative(s[..|s| - 1]);
    }
  }

  function FormatNat(n: nat): string {
    if n < 10 then [DigitChar(n)] else FormatNat(n / 10) + [DigitChar(n % 10)]
  }

  function FormatInt(n: int): string {
    if n < 0 then "-" + FormatNat(-n) else FormatNat(n)
  }

  predicate IsSign(c: char) {
    c == '-' || c == '+'
  }

  /** strconv.ParseInt in base 10 with 64 bits: an optional sign, then digits, in range. */
  function ParseInt64(s: string): Option<int> {
    if s == "" then None
    else
      var body := if IsSign(s[0]) then s[1..] else s;
      if !IsDigits(body) then None
      else
        var v := if s[0] == '-' then -DigitsValue(body) else DigitsValue(body);
        if MIN_INT64 <= v <= MAX_INT64 then Some(v) else None
  }

  lemma {:induction false} FormatNatReads(n: nat)
    ensures IsDigits(FormatNat(n)) && DigitsValue(FormatNat(n)) == n
    ensures |FormatNat(n)| > 1 ==> FormatNat(n)[0] != '0'
  {
    if n < 10 {
      assert FormatNat(n)[..0] == "";
    } else {
      FormatNatReads(n / 10);
      var init := FormatNat(n / 10);
      assert FormatNat(n)[..|init|] == init;
      assert FormatNat(n)[0] == init[0];
      if |init| == 1 {
        assert init[..0] == "";
        assert DigitsValue(init) == DigitValue(init[0]);
      }
    }
  }

  /** Digits without a leading zero are the canonical form of their value. */
  lemma {:induction false} CanonicalDigits(s: string)
    requires IsDigits(s) && (|s| > 1 ==> s[0] != '0')
    ensures 0 <= DigitsValue(s) && FormatNat(DigitsValue(s)) == s
    ensures |s| > 1 ==> 10 <= DigitsValue(s)
  {
    var init, d := s[..|s| - 1], DigitValue(s[|s| - 1]);
    assert s == init + [s[|s| - 1]];
    assert DigitChar(d) == s[|s| - 1];
    if |s| == 1 {
      assert init == "";
    } else {
      CanonicalDigits(init);
      if |init| == 1 {
        assert init[..0] == "";
        assert DigitsValue(init) == DigitValue(init[0]) && init[0] == s[0];
      }
      var v := DigitsValue(init);
      assert (10 * v + d) / 10 == v && (10 * v + d) % 10 == d;
    }
  }

  lemma FormatNatHasNoSign(n: nat)
    ensures FormatNat(n) != "" && !IsSign(FormatNat(n)[0])
  {
    FormatNatReads(n);
    assert IsDigit(FormatNat(n)[0]);
  }

  /** Printing then reading an int64 gives it back. */
  lemma FormatIntReads(n: int)
    requires MIN_INT64 <= n <= MAX_INT64
    ensures ParseInt64(FormatInt(n)) == Some(n)
  {
    hide FormatNat, DigitsValue, IsDigits;
    if n < 0 {
      FormatNatReads(-n);
      assert FormatInt(n)[1..] == FormatNat(-n);
    } else {
      FormatNatReads(n);
      FormatNatHasNoSign(n);
    }
  }

  /** Distinct integers print differently. */
  lemma FormatIntInjective(a: int, b: int)
    requires FormatInt(a) == FormatInt(b)
    ensures a == b
  {
    if a < 0 {
      FormatNatReads(-a);
      assert FormatInt(a)[1..] == FormatNat(-a);
    } else {
      FormatNatReads(a);
      FormatNatHasNoSign(a);
    }
    if b < 0 {
      FormatNatReads(-b);
      assert FormatInt(b)[1..] == FormatNat(-b);
    } else {
      FormatNatReads(b);
      FormatNatHasNoSign(b);
    }
  }

  /** Digits read as their value, unless it does not fit. */
  lemma DigitsRead(s: string)
    requires IsDigits(s)
    ensures 0 <= DigitsValue(s)
    ensures ParseInt64(s) == if DigitsValue(s) <= MAX_INT64 then Some(DigitsValue(s)) else None
  {
    DigitsNotNegative(s);
    assert IsDigit(s[0]);
  }

  /** A printed integer is a run of digits exactly when it is not negative. */
  lemma FormatIntIsDigits(n: int)
    ensures IsDigits(FormatInt(n)) <==> 0 <= n
    ensures 0 <= n ==> DigitsValue(FormatInt(n)) == n
    ensures FormatInt(n) != ""
  {
    if 0 <= n {
      FormatNatReads(n);
    } else {
      assert !IsDigit(FormatInt(n)[0]);
    }
  }

  // ---- Place value ----

  function Power10(k: nat): nat {
    if k == 0 then 1 else 10 * Power10(k - 1)
  }

  /** Each digit times the power of ten of its place. */
  function Places(s: string): int {
    if s == "" then 0 else (s[0] as int - '0' as int) * Power10(|s| - 1) + Places(s[1..])
  }

  lemma {:induction false} PlacesGrow(s: string, c: char)
    ensures Places(s + [c]) == 10 * Places(s) + (c as int - '0' as int)
  {
    if s == "" {
      assert ([c])[1..] == "";
    } else {
      assert (s + [c])[1..] == s[1..] + [c];
      PlacesGrow(s[1..], c);
      var d := s[0] as int - '0' as int;
      assert d * Power10(|s|) == 10 * (d * Power10(|s| - 1));
    }
  }

  /** What digits are worth is what their places add up to. */
  lemma {:induction false} DigitsArePlaces(s: string)
    ensures DigitsValue(s) == Places(s)
  {
    if s != "" {
      var init := s[..|s| - 1];
      DigitsArePlaces(init);
      PlacesGrow(init, s[|s| - 1]);
      assert s == init + [s[|s| - 1]];
    }
  }

  predicate AllDigits(text: string) {
    text != "" && forall i | 0 <= i < |text| :: '0' <= text[i] <= '9'
  }

  /** Decimal digits of n, without leading zeros. */
  predicate SaysNatural(text: string, n: int) {
    && AllDigits(text)
    && (|text| > 1 ==> text[0] != '0')
    && Places(text) == n
  }

  /** The decimal of n, with a minus sign exactly when it is negative. */
  predicate SaysDecimal(text: string, n: int) {
    if n < 0 then text != "" && text[0] == '-' && SaysNatural(text[1..], -n) else SaysNatural(text, n)
  }

  lemma {:induction false} FormatNatSays(n: nat, text: string)
    ensures SaysNatural(text, n) <==> text == FormatNat(n)
  {
    hide FormatNat, DigitsValue, Places;
    FormatNatReads(n);
    DigitsArePlaces(FormatNat(n));
    if SaysNatural(text, n) {
      DigitsArePlaces(text);
      DigitsAreShown(text);
      CanonicalDigits(text);
    }
  }

  /** FormatInt prints the decimal of its argument, the only text there is for it. */
  lemma {:induction false} FormatIntSays(n: int, text: string)
    ensures SaysDecimal(text, n) <==> text == FormatInt(n)
  {
    hide FormatNat, SaysNatural;
    if n < 0 {
      FormatNatSays(-n, FormatInt(n)[1..]);
      assert FormatInt(n)[1..] == FormatNat(-n);
      if text != "" {
        FormatNatSays(-n, text[1..]);
        assert text[0] == '-' ==> text == "-" + text[1..];
      }
    } else {
      FormatNatSays(n, text);
    }
  }

  /** A sign, if any, then digits, leading zeros and all: the text of an int64. */
  predicate Spells(text: string, n: int) {
    && text != "" && -0x8000_0000_0000_0000 <= n <= 0x7FFF_FFFF_FFFF_FFFF
    && var signed := text[0] == '-' || text[0] == '+';
       var body := if signed then text[1..] else text;
    && AllDigits(body)
    && Places(body) == if text[0] == '-' then -n else n
  }

  lemma {:induction false} ParseInt64Means(text: string, n: int)
    ensures ParseInt64(text) == Some(n) <==> Spells(text, n)
  {
    hide DigitsValue, Places, IsDigits, AllDigits;
    if text != "" {
      var body := if text[0] == '-' || text[0] == '+' then text[1..] else text;
      DigitsArePlaces(body);
      DigitsAreShown(body);
      assert IsSign(text[0]) <==> text[0] == '-' || text[0] == '+';
    }
  }

  lemma DigitsAreShown(s: string)
    ensures IsDigits(s) <==> AllDigits(s)
  {
    assert forall i | 0 <= i < |s| :: IsDigit(s[i]) <==> '0' <= s[i] <= '9';
  }
}

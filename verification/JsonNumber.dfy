/** When an integer token is read as the number it spells. */
module JsonNumber {
  import opened JsonValue
  import opened JsonScan

  predicate AllDigits(text: string, i: nat)
  {
    forall j :: i <= j < |text| ==> IsDigit(text[j])
  }

  /** The number that the digits from `i` on spell after `acc`, without any bound. */
  function Spelled(text: string, i: nat, acc: nat): nat
    requires i <= |text| && AllDigits(text, i)
    decreases |text| - i
  {
    if i == |text| then acc else Spelled(text, i + 1, acc * 10 + DigitAt(text, i))
  }

  lemma {:induction false} SpelledGrows(text: string, i: nat, acc: nat)
    requires i <= |text| && AllDigits(text, i)
    ensures Spelled(text, i, acc) >= acc
    ensures i < |text| ==> Spelled(text, i, acc) >= acc * 10
    decreases |text| - i
  {
    if i < |text| { SpelledGrows(text, i + 1, acc * 10 + DigitAt(text, i)); }
  }

  function Signed(negative: bool, n: nat): int { if negative then -(n as int) else n }

  /** Where the digits of a token start. */
  function From(negative: bool): nat { if negative then 1 else 0 }

  /** What the loop makes of a number that it lets through past the range: it is cut to 64 bits, and,
      after a sign, read as signed and negated. */
  function Wrapped(negative: bool, n: nat): Number
  {
    Integer(if negative then Negated(n % TWO_64) else n % TWO_64)
  }

  function DigitAt(text: string, i: nat): nat
    requires i < |text| && IsDigit(text[i])
  {
    text[i] as int - '0' as int
  }

  lemma LoopTurn(text: string, i: nat, value: nat, negative: bool)
    requires i < |text| && IsDigit(text[i])
    ensures var max, digit := MaxMagnitude(negative), DigitAt(text, i);
      DigitLoop(text, i, value, negative) ==
        if value >= max / 10 && (i + 1 != |text| || digit > max % 10) then Double
        else DigitLoop(text, i + 1, (value * 10 + digit) % TWO_64, negative)
  {
  }

  /** Below the threshold the loop takes a digit exactly; at it, only a last digit that still fits. */
  lemma LoopStep(text: string, i: nat, value: nat, negative: bool)
    requires i < |text| && IsDigit(text[i])
    requires var max := MaxMagnitude(negative);
      value < max / 10 || (value == max / 10 && i + 1 == |text| && DigitAt(text, i) <= max % 10)
    ensures value * 10 + DigitAt(text, i) <= MaxMagnitude(negative)
    ensures DigitLoop(text, i, value, negative) == DigitLoop(text, i + 1, value * 10 + DigitAt(text, i), negative)
  {
    hide DigitLoop;
    LoopTurn(text, i, value, negative);
    var more := value * 10 + DigitAt(text, i);
    assert more <= MaxMagnitude(negative) < TWO_64;
    assert more % TWO_64 == more;
  }

  lemma LastDigitOverflows(text: string, i: nat, value: nat, negative: bool)
    requires i + 1 == |text| && IsDigit(text[i]) && MaxMagnitude(negative) / 10 < value <= MaxMagnitude(negative)
    requires DigitAt(text, i) <= MaxMagnitude(negative) % 10
    ensures value * 10 + DigitAt(text, i) > MaxMagnitude(negative)
    ensures DigitLoop(text, i, value, negative) == Wrapped(negative, value * 10 + DigitAt(text, i))
  {
  }

  lemma {:induction false} DigitLoopExact(text: string, i: nat, value: nat, negative: bool)
    requires i <= |text| && AllDigits(text, i) && value <= MaxMagnitude(negative)
    ensures DigitLoop(text, i, value, negative) == Integer(Signed(negative, Spelled(text, i, value)))
      <==> Spelled(text, i, value) <= MaxMagnitude(negative)
    decreases |text| - i
  {
    if i < |text| {
      assert IsDigit(text[i]);
      var digit, max := DigitAt(text, i), MaxMagnitude(negative);
      SpelledGrows(text, i + 1, value * 10 + digit);
      if value < max / 10 || (value == max / 10 && i + 1 == |text| && digit <= max % 10) {
        LoopStep(text, i, value, negative);
        DigitLoopExact(text, i + 1, value * 10 + digit, negative);
      } else if i + 1 == |text| && digit <= max % 10 {
        LastDigitOverflows(text, i, value, negative);
      }
    }
  }

  /** A token of digits with an optional sign is read as the number it spells if and only if that
      number fits: up to 2^64 - 1 without a sign, down to -2^63 with one. */
  lemma IntegerTokenExact(text: string, negative: bool)
    requires negative ==> text != [] && text[0] == '-'
    requires AllDigits(text, if negative then 1 else 0)
    ensures var n := Spelled(text, if negative then 1 else 0, 0);
      DecodeNumber(text) == Integer(Signed(negative, n)) <==> n <= MaxMagnitude(negative)
  {
    DigitLoopExact(text, if negative then 1 else 0, 0, negative);
  }

  /** The loop runs through the digits of `s` as long as all but the last of them stay below the threshold. */
  lemma {:induction false} LoopRuns(s: string, c: char, i: nat, value: nat, negative: bool)
    requires i <= |s| && AllDigits(s + [c], i)
    requires i < |s| ==> AllDigits(s[..|s| - 1], i) && Spelled(s[..|s| - 1], i, value) < MaxMagnitude(negative) / 10
    ensures AllDigits(s, i)
    ensures DigitLoop(s + [c], i, value, negative) == DigitLoop(s + [c], |s|, Spelled(s, i, value), negative)
    decreases |s| - i
  {
    var text := s + [c];
    forall j | i <= j < |s| ensures IsDigit(s[j]) { assert s[j] == text[j]; }
    if i < |s| {
      var init := s[..|s| - 1];
      SpelledGrows(init, i, value);
      assert IsDigit(s[i]) && text[i] == s[i];
      LoopStep(text, i, value, negative);
      if i < |init| { assert init[i] == s[i]; }
      LoopRuns(s, c, i + 1, value * 10 + DigitAt(s, i), negative);
    }
  }

  lemma {:induction false} LoopGivesUp(s: string, c: char, i: nat, value: nat, negative: bool)
    requires i < |s| && AllDigits(s + [c], i) && AllDigits(s[..|s| - 1], i)
    requires Spelled(s[..|s| - 1], i, value) >= MaxMagnitude(negative) / 10
    ensures DigitLoop(s + [c], i, value, negative) == Double
    decreases |s| - i
  {
    var text := s + [c];
    assert IsDigit(text[i]) && text[i] == s[i];
    if value < MaxMagnitude(negative) / 10 {
      assert i < |s| - 1 && s[..|s| - 1][i] == s[i];
      LoopStep(text, i, value, negative);
      LoopGivesUp(s, c, i + 1, value * 10 + DigitAt(s, i), negative);
    }
  }

  lemma LastDigit(text: string, i: nat, value: nat, total: nat, negative: bool)
    requires i + 1 == |text| && IsDigit(text[i]) && total == value * 10 + DigitAt(text, i) > MaxMagnitude(negative)
    ensures DigitLoop(text, i, value, negative)
      == if DigitAt(text, i) <= MaxMagnitude(negative) % 10 then Wrapped(negative, total) else Double
  {
  }

  lemma DigitsDecode(text: string, negative: bool)
    requires |text| > From(negative) && AllDigits(text, From(negative)) && (negative ==> text[0] == '-')
    ensures DecodeNumber(text) == DigitLoop(text, From(negative), 0, negative)
  {
    assert IsDigit(text[From(negative)]);
  }

  lemma DigitsSplit(s: string, c: char, from: nat)
    requires from <= |s| && AllDigits(s + [c], from)
    ensures IsDigit(c) && AllDigits(s, from) && (|s| > from ==> AllDigits(s[..|s| - 1], from))
    ensures Spelled(s + [c], from, 0) == Spelled(s, from, 0) * 10 + DigitAt(s + [c], |s|)
    ensures (s + [c])[|s|] == c
  {
    var text := s + [c];
    forall j | from <= j < |s| ensures IsDigit(s[j]) { assert s[j] == text[j]; }
    assert text[|s|] == c;
    SpelledAppend(s, c, from, 0);
  }

  /** What becomes of a number past the range, with a sign or without: it goes to the floating point
      scanner, unless all but its last two digits stay below the threshold and the last one is no more
      than that of the limit (5, or 8 after a sign); then it wraps. */
  lemma PastTheRange(s: string, c: char, negative: bool)
    requires |s| > From(negative) && AllDigits(s + [c], From(negative)) && (negative ==> s[0] == '-')
    requires Spelled(s + [c], From(negative), 0) > MaxMagnitude(negative)
    ensures AllDigits(s[..|s| - 1], From(negative))
    ensures DecodeNumber(s + [c]) ==
      if Spelled(s[..|s| - 1], From(negative), 0) < MaxMagnitude(negative) / 10 && c <= (if negative then '8' else '5')
      then Wrapped(negative, Spelled(s + [c], From(negative), 0)) else Double
  {
    hide DecodeNumber;
    hide DigitLoop;
    hide Spelled;
    hide Wrapped;
    hide Negated;
    var text, from := s + [c], From(negative);
    DigitsSplit(s, c, from);
    DigitsDecode(text, negative);
    if Spelled(s[..|s| - 1], from, 0) < MaxMagnitude(negative) / 10 {
      LoopRuns(s, c, from, 0, negative);
      LastDigit(text, |s|, Spelled(s, from, 0), Spelled(text, from, 0), negative);
    } else {
      LoopGivesUp(s, c, from, 0, negative);
    }
  }

  /** So a number just past the range can be read as a small one: 18446744073709551620 reads as 4. */
  lemma OverflowSlipsThrough()
    ensures DecodeNumber(Decimal(18446744073709551620)) == Integer(4)
  {
    var n := 1844674407370955162;
    var s := Decimal(n);
    DecimalSpells(n);
    DecimalSpells(n / 10);
    DecimalSpells(10 * n);
    assert s == Decimal(n / 10) + [Digit(n % 10)] && Decimal(10 * n) == s + ['0'];
    assert s[..|s| - 1] == Decimal(n / 10);
    PastTheRange(s, '0', false);
  }

  /** And one just past the range below can change its sign: -9223372036854775811 reads as 9223372036854775805. */
  lemma SignSlipsThrough()
    ensures DecodeNumber("-" + Decimal(9223372036854775811)) == Integer(9223372036854775805)
  {
    hide DigitLoop;
    hide DecodeNumber;
    hide Spelled;
    hide AllDigits;
    var n := 922337203685477581;
    var s := "-" + Decimal(n);
    DecimalSpells(n / 10);
    DecimalSpells(10 * n + 1);
    SpelledShift(Decimal(n / 10), 0, 0);
    SpelledShift(Decimal(10 * n + 1), 0, 0);
    assert Decimal(n) == Decimal(n / 10) + [Digit(n % 10)] && Decimal(10 * n + 1) == Decimal(n) + ['1'];
    assert s[..|s| - 1] == "-" + Decimal(n / 10);
    assert "-" + Decimal(10 * n + 1) == s + ['1'];
    PastTheRange(s, '1', true);
  }

  lemma {:induction false} SpelledAppend(s: string, c: char, i: nat, acc: nat)
    requires i <= |s| && AllDigits(s, i) && IsDigit(c)
    ensures Spelled(s + [c], i, acc) == Spelled(s, i, acc) * 10 + (c as int - '0' as int)
    decreases |s| - i
  {
    if i < |s| { SpelledAppend(s, c, i + 1, acc * 10 + (s[i] as int - '0' as int)); }
  }

  /** The decimal text of a number spells it. */
  lemma {:induction false} DecimalSpells(n: nat)
    ensures |Decimal(n)| > 0 && AllDigits(Decimal(n), 0) && Spelled(Decimal(n), 0, 0) == n
  {
    if n >= 10 {
      DecimalSpells(n / 10);
      SpelledAppend(Decimal(n / 10), Digit(n % 10), 0, 0);
    } else {
      assert Spelled(Decimal(n), 1, n) == n;
    }
  }

  lemma {:induction false} SpelledShift(s: string, i: nat, acc: nat)
    requires i <= |s| && AllDigits(s, i)
    ensures AllDigits("-" + s, i + 1) && Spelled("-" + s, i + 1, acc) == Spelled(s, i, acc)
    decreases |s| - i
  {
    if i < |s| { SpelledShift(s, i + 1, acc * 10 + (s[i] as int - '0' as int)); }
  }

  predicate Negative(text: string) { text != "" && text[0] == '-' }

  /** An integer as section 6 of RFC 8259 spells it, in the 64-bit range: zero may carry a sign, and no
      other number starts with a zero. */
  predicate IntegerSpelling(text: string)
  {
    var from := From(Negative(text));
    && |text| > from && AllDigits(text, from) && (text[from] == '0' ==> |text| == from + 1)
    && Spelled(text, from, 0) <= MaxMagnitude(Negative(text))
  }

  /** The same, outside the range. */
  predicate LargeSpelling(text: string)
  {
    var from := From(Negative(text));
    && |text| > from && AllDigits(text, from) && (text[from] == '0' ==> |text| == from + 1)
    && Spelled(text, from, 0) > MaxMagnitude(Negative(text))
  }

  function IntegerOf(text: string): int
    requires IntegerSpelling(text)
  {
    Signed(Negative(text), Spelled(text, From(Negative(text)), 0))
  }

  /** Every spelling of an integer decodes to it, without overflow and without the floating point scanner. */
  lemma SpellingDecodes(text: string)
    requires IntegerSpelling(text)
    ensures DecodeNumber(text) == Integer(IntegerOf(text))
    ensures text != "" && (IsDigit(text[0]) || text[0] == '-') && (text[0] == '-' <==> Negative(text))
    ensures MIN_INT64 <= IntegerOf(text) < TWO_64 && (Negative(text) ==> IntegerOf(text) <= 0)
    ensures forall i :: 0 <= i < |text| ==> IsNumberChar(text[i])
  {
    IntegerTokenExact(text, Negative(text));
  }

  lemma {:induction false} DecimalStarts(n: nat)
    ensures Decimal(n) != "" && (Decimal(n)[0] == '0' <==> n == 0) && (n == 0 ==> |Decimal(n)| == 1)
  {
    if n >= 10 { DecimalStarts(n / 10); }
  }

  /** The decimal text of every 64-bit number, signed or unsigned, is a spelling of it. */
  lemma IntTextSpells(n: int)
    requires MIN_INT64 <= n < TWO_64
    ensures IntegerSpelling(IntText(n)) && IntegerOf(IntText(n)) == n && (Negative(IntText(n)) <==> n < 0)
  {
    hide Spelled;
    DecimalStarts(if n < 0 then -n else n);
    DecimalSpells(if n < 0 then -n else n);
    if n < 0 { SpelledShift(Decimal(-n), 0, 0); }
  }

  /** Integer round trip: the text of every 64-bit number, signed or unsigned, reads back as that
      number, without overflow and without the floating point scanner. */
  lemma IntTextDecodes(n: int)
    requires MIN_INT64 <= n < TWO_64
    ensures DecodeNumber(IntText(n)) == Integer(n)
  {
    IntTextSpells(n);
    SpellingDecodes(IntText(n));
  }

  // ---- Fractions and exponents ----------------------------------------------

  predicate Digits(s: string) { s != "" && forall i :: 0 <= i < |s| ==> '0' <= s[i] <= '9' }

  predicate Fraction(s: string) { s != "" && s[0] == '.' && Digits(s[1..]) }

  predicate Exponent(s: string)
  {
    s != "" && (s[0] == 'e' || s[0] == 'E') &&
    if |s| > 1 && (s[1] == '+' || s[1] == '-') then Digits(s[2..]) else Digits(s[1..])
  }

  /** A number as section 6 of RFC 8259 spells it that has a fraction, from `i` on, or an exponent, from `j` on. */
  predicate RealAt(text: string, i: nat, j: nat)
    requires i <= j <= |text|
  {
    var from := From(Negative(text));
    && from < i < |text| && Digits(text[from..i]) && (text[from] == '0' ==> i == from + 1)
    && (i == j || Fraction(text[i..j])) && (j == |text| || Exponent(text[j..]))
  }

  predicate RealSpelling(text: string)
  {
    exists i, j :: 0 <= i <= j <= |text| && RealAt(text, i, j)
  }

  /** Every spelling of a real number is one token, left to the floating point scanner. */
  lemma RealIsDouble(text: string)
    requires RealSpelling(text)
    ensures text != "" && (IsDigit(text[0]) || text[0] == '-') && DecodeNumber(text) == Double
    ensures forall k :: 0 <= k < |text| ==> IsNumberChar(text[k])
  {
    hide *;
    var i, j := RealParts(text);
    WholeChars(text, i, j);
    FractionChars(text, i, j);
    ExponentChars(text, j);
    PointMeansDouble(text, i);
  }

  lemma RealParts(text: string) returns (i: nat, j: nat)
    requires RealSpelling(text)
    ensures i <= j <= |text| && RealAt(text, i, j) && i < |text|
    ensures (i == j || Fraction(text[i..j])) && (j == |text| || Exponent(text[j..]))
  {
    i, j :| 0 <= i <= j <= |text| && RealAt(text, i, j);
  }

  lemma WholeChars(text: string, i: nat, j: nat)
    requires i <= j <= |text| && RealAt(text, i, j)
    ensures text != "" && (IsDigit(text[0]) || text[0] == '-')
    ensures forall k :: 0 <= k < i ==> IsNumberChar(text[k])
  {
    hide Fraction;
    hide Exponent;
    var from := From(Negative(text));
    forall k | from <= k < i ensures IsDigit(text[k]) { assert text[k] == text[from..i][k - from]; }
  }

  lemma PointMeansDouble(text: string, i: nat)
    requires i < |text| && (text[i] == '.' || text[i] == 'e' || text[i] == 'E')
    ensures DecodeNumber(text) == Double
  {
    assert text[i] in ".eE+";
  }

  lemma FractionChars(text: string, i: nat, j: nat)
    requires i <= j <= |text| && (i == j || Fraction(text[i..j]))
    ensures i < j ==> text[i] == '.'
    ensures forall k :: i <= k < j ==> IsNumberChar(text[k])
  {
    if i < j {
      var s := text[i..j];
      assert text[i] == s[0];
      forall k | i < k < j ensures IsDigit(text[k]) { assert text[k] == s[1..][k - i - 1]; }
    }
  }

  lemma ExponentChars(text: string, j: nat)
    requires j <= |text| && (j == |text| || Exponent(text[j..]))
    ensures j < |text| ==> text[j] == 'e' || text[j] == 'E'
    ensures forall k :: j <= k < |text| ==> IsNumberChar(text[k])
  {
    if j < |text| {
      var s := text[j..];
      var skip := if |s| > 1 && (s[1] == '+' || s[1] == '-') then 2 else 1;
      assert text[j] == s[0];
      forall k | j < k < |text| ensures IsNumberChar(text[k]) {
        assert text[k] == s[k - j];
        if k - j >= skip { assert s[k - j] == s[skip..][k - j - skip]; }
      }
    }
  }
}

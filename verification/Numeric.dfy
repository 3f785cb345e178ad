/** Little-endian number representations: 16 base-256 digits of a mantissa, decimal digits of a text. */
module Positional {
  import opened Octets

  type Digit = x: int | 0 <= x < 10

  // 2^128
  const MODULUS := 340282366920938463463374607431768211456

  function Value(bytes: seq<Byte>): nat {
    if bytes == [] then 0 else bytes[0] + 256 * Value(bytes[1..])
  }

  function Bound(n: nat): nat {
    if n == 0 then 1 else 256 * Bound(n - 1)
  }

  lemma BoundOf16()
    ensures Bound(16) == MODULUS
  {
    assert Bound(4) == 0x1_0000_0000;
    assert Bound(8) == 0x1_0000_0000_0000_0000;
    assert Bound(12) == 0x1_0000_0000_0000_0000_0000_0000;
  }

  lemma ValueBound(bytes: seq<Byte>)
    ensures Value(bytes) < Bound(|bytes|)
  {
  }

  // A value has one representation of a given length.
  lemma {:induction false} ValueInjective(a: seq<Byte>, b: seq<Byte>)
    requires |a| == |b| && Value(a) == Value(b)
    ensures a == b
  {
    if a != [] {
      assert a[0] == b[0] && Value(a[1..]) == Value(b[1..]);
      ValueInjective(a[1..], b[1..]);
    }
  }

  // ---- Multiply by ten and add, byte by byte ----

  function MulAdd(bytes: seq<Byte>, carry: nat): (seq<Byte>, nat) {
    if bytes == [] then ([], carry)
    else
      var product := bytes[0] * 10 + carry;
      var (rest, carryOut) := MulAdd(bytes[1..], product / 256);
      ([product % 256] + rest, carryOut)
  }

  lemma CarryStep(byte: Byte, carry: nat, higher: nat, higher': nat, excess: nat)
    requires higher' + excess == 10 * higher + (byte * 10 + carry) / 256
    ensures (byte * 10 + carry) % 256 + 256 * higher' + 256 * excess == 10 * (byte + 256 * higher) + carry
  {
  }

  lemma {:induction false} MulAddExact(bytes: seq<Byte>, carry: nat)
    requires carry < 10
    ensures var (result, carryOut) := MulAdd(bytes, carry);
            && |result| == |bytes| && carryOut < 10
            && Value(result) + carryOut * Bound(|bytes|) == 10 * Value(bytes) + carry
  {
    if bytes != [] {
      var product := bytes[0] * 10 + carry;
      var (rest, carryOut) := MulAdd(bytes[1..], product / 256);
      MulAddExact(bytes[1..], product / 256);
      CarryStep(bytes[0], carry, Value(bytes[1..]), Value(rest), carryOut * Bound(|bytes| - 1));
      assert ([product % 256] + rest)[1..] == rest;
      MoveFactor(carryOut, Bound(|bytes| - 1));
    }
  }

  lemma MoveFactor(a: nat, b: nat)
    ensures a * (256 * b) == 256 * (a * b)
  {
  }

  // ---- Divide by ten, from the highest byte down ----

  function Div10(bytes: seq<Byte>): (result: (seq<Byte>, Digit)) {
    if bytes == [] then ([], 0)
    else
      var (rest, remainder) := Div10(bytes[1..]);
      var value := bytes[0] + remainder * 256;
      ([value / 10] + rest, value % 10)
  }

  lemma {:induction false} Div10Exact(bytes: seq<Byte>)
    ensures var (quotient, remainder) := Div10(bytes);
            |quotient| == |bytes| && Value(bytes) == 10 * Value(quotient) + remainder
  {
    if bytes != [] {
      Div10Exact(bytes[1..]);
      var (rest, remainder) := Div10(bytes[1..]);
      var value := bytes[0] + remainder * 256;
      assert ([value / 10] + rest)[1..] == rest;
    }
  }

  // ---- Decimal digits, least significant first ----

  function Digits(n: nat): (digits: seq<Digit>)
    ensures digits != []
  {
    if n < 10 then [n] else [n % 10] + Digits(n / 10)
  }

  function DigitsValue(digits: seq<Digit>): nat {
    if digits == [] then 0 else digits[0] + 10 * DigitsValue(digits[1..])
  }

  function Zeros(n: nat): seq<Digit> {
    seq(n, _ => 0)
  }

  // At least `n` digits.
  function Padded(digits: seq<Digit>, n: nat): seq<Digit> {
    if |digits| >= n then digits else digits + Zeros(n - |digits|)
  }

  function Power10(n: nat): (p: nat)
    ensures p > 0
  {
    if n == 0 then 1 else 10 * Power10(n - 1)
  }

  lemma {:induction false} DigitsRoundTrip(n: nat)
    ensures DigitsValue(Digits(n)) == n
  {
    if n >= 10 {
      DigitsRoundTrip(n / 10);
    }
  }

  lemma {:induction false} DigitCount(n: nat, k: nat)
    requires k > 0
    ensures |Digits(n)| <= k <==> n < Power10(k)
  {
    if k == 1 {
      assert Power10(1) == 10;
    } else if n >= 10 {
      DigitCount(n / 10, k - 1);
    }
  }

  // The digits of a number, padded to the length of any representation, are that representation.
  lemma {:induction false} PaddedDigitsUnique(digits: seq<Digit>)
    requires digits != []
    ensures Padded(Digits(DigitsValue(digits)), |digits|) == digits
    ensures digits[|digits| - 1] != 0 ==> Digits(DigitsValue(digits)) == digits
  {
    hide Digits;
    var rest := digits[1..];
    OneMoreDigit(digits[0], DigitsValue(rest));
    if rest == [] {
      assert digits == [digits[0]];
    } else {
      PaddedDigitsUnique(rest);
      assert digits == [digits[0]] + rest && rest[|rest| - 1] == digits[|digits| - 1];
      if DigitsValue(rest) == 0 {
        assert Padded([digits[0]], |digits|) == [digits[0]] + Padded([0], |rest|);
      } else {
        assert Padded([digits[0]] + Digits(DigitsValue(rest)), |digits|)
            == [digits[0]] + Padded(Digits(DigitsValue(rest)), |rest|);
      }
    }
  }

  lemma OneMoreDigit(digit: Digit, n: nat)
    ensures Digits(digit + 10 * n) == [digit] + if n == 0 then [] else Digits(n)
    ensures Digits(0) == [0]
  {
  }

  lemma {:induction false} PaddingKeepsValue(digits: seq<Digit>, n: nat)
    ensures DigitsValue(Padded(digits, n)) == DigitsValue(digits)
  {
    if digits != [] && |digits| < n {
      assert Padded(digits, n)[1..] == Padded(digits[1..], n - 1);
      PaddingKeepsValue(digits[1..], n - 1);
    } else if digits == [] {
      ZerosValue(n);
      assert Padded(digits, n) == Zeros(n);
    }
  }

  lemma {:induction false} ZerosValue(n: nat)
    ensures DigitsValue(Zeros(n)) == 0
  {
    if n > 0 {
      assert Zeros(n)[1..] == Zeros(n - 1);
      ZerosValue(n - 1);
    }
  }
}

/** Packing decimal text into a 128-bit mantissa with sign and scale, and printing it again. */
module NumericText {
  import opened Blocks
  import opened Octets
  import opened Positional

  const DIGIT_CAPACITY := 48
  const NUMERIC_MAX_MANTISSA_DIGITS := 39
  const NUMERIC_TEXT_BUFFER_SIZE := 256

  predicate Space(c: char) {
    c == ' ' || '\t' <= c <= '\r'
  }

  predicate IsDigit(c: char) {
    '0' <= c <= '9'
  }

  function DigitOf(c: char): Digit
    requires IsDigit(c)
  {
    c as int - '0' as int
  }

  function CharOf(d: Digit): (c: char)
    ensures IsDigit(c) && DigitOf(c) == d
  {
    ['0', '1', '2', '3', '4', '5', '6', '7', '8', '9'][d]
  }

  function Chars(digits: seq<Digit>): (s: string)
    ensures |s| == |digits|
  {
    seq(|digits|, k requires 0 <= k < |digits| => CharOf(digits[k]))
  }

  function Reverse(digits: seq<Digit>): (r: seq<Digit>)
    ensures |r| == |digits|
  {
    seq(|digits|, k requires 0 <= k < |digits| => digits[|digits| - 1 - k])
  }

  // The number written by the digits, most significant first.
  function Number(digits: seq<Digit>): nat {
    DigitsValue(Reverse(digits))
  }

  // ---- Parsing ----

  // `scale` is a signed byte.
  function Decrement(scale: int): int {
    if scale == -128 then 127 else scale - 1
  }

  datatype Collected = Collected(digits: seq<Digit>, scale: int, dropped: bool)

  function Collect(s: string, digits: seq<Digit>, scale: int, seenPoint: bool, dropped: bool): Collected
    decreases |s|
  {
    if s == [] then Collected(digits, scale, dropped)
    else if s[0] == '.' then
      if seenPoint then Collected(digits, scale, dropped) else Collect(s[1..], digits, scale, true, dropped)
    else if !IsDigit(s[0]) then Collected(digits, scale, dropped)
    else if |digits| >= DIGIT_CAPACITY then
      if seenPoint then Collected(digits, scale, dropped)
      else Collect(s[1..], digits, Decrement(scale), seenPoint, true)
    else Collect(s[1..], digits + [DigitOf(s[0])], if seenPoint then scale + 1 else scale, seenPoint, dropped)
  }

  function SkipSpaces(s: string): string {
    if s != [] && Space(s[0]) then SkipSpaces(s[1..]) else s
  }

  function SkipZeros(s: string): string {
    if s != [] && s[0] == '0' then SkipZeros(s[1..]) else s
  }

  predicate Signed(s: string) {
    s != [] && (s[0] == '-' || s[0] == '+')
  }

  function CollectText(text: string): Collected {
    var s := SkipSpaces(text);
    Collect(SkipZeros(if Signed(s) then s[1..] else s), [], 0, false, false)
  }

  // ODBC writes 1 for a positive and 0 for a negative sign.
  function SignOf(text: string): nat {
    var s := SkipSpaces(text);
    if s != [] && s[0] == '-' then 0 else 1
  }

  datatype Numeric = Numeric(precision: nat, scale: int, sign: nat, val: seq<Byte>)

  predicate Parsed(text: string, n: Numeric, overflow: bool) {
    var c := CollectText(text);
    && n.sign == SignOf(text) && n.precision == |c.digits| && n.scale == c.scale && |n.val| == 16
    && Value(n.val) == Number(c.digits) % MODULUS
    && (overflow <==> c.dropped || Number(c.digits) >= MODULUS)
  }

  // ---- Printing ----

  function ExtractedDigits(n: Numeric): (digits: seq<Digit>)
    requires n.precision > 0
    ensures 0 < |digits| <= NUMERIC_MAX_MANTISSA_DIGITS
  {
    var limit := if n.precision > NUMERIC_MAX_MANTISSA_DIGITS then NUMERIC_MAX_MANTISSA_DIGITS else n.precision;
    FirstOf(Digits(Value(n.val)), limit)
  }

  function DecimalText(negative: bool, whole: seq<Digit>, fraction: seq<Digit>): string {
    (if negative then "-" else "") + Chars(whole) + (if fraction == [] then "" else "." + Chars(fraction))
  }

  function Format(n: Numeric): string
    requires n.scale >= 0
  {
    if n.precision == 0 then "0"
    else
      var digits := Padded(ExtractedDigits(n), n.scale + 1);
      DecimalText(n.sign == 0, Reverse(digits[n.scale..]), Reverse(digits[..n.scale]))
  }

  // ---- What parsing makes of plain decimal text ----

  function StripZeros(digits: seq<Digit>): (r: seq<Digit>)
    ensures |r| <= |digits|
  {
    if digits != [] && digits[0] == 0 then StripZeros(digits[1..]) else digits
  }

  lemma {:induction false} SkipZerosStrips(digits: seq<Digit>, tail: string)
    requires tail == [] || tail[0] != '0'
    ensures SkipZeros(Chars(digits) + tail) == Chars(StripZeros(digits)) + tail
  {
    if digits != [] && digits[0] == 0 {
      assert (Chars(digits) + tail)[1..] == Chars(digits[1..]) + tail;
      SkipZerosStrips(digits[1..], tail);
    } else if digits == [] {
      assert Chars(digits) + tail == tail;
    }
  }

  lemma {:induction false} CollectWhole(whole: seq<Digit>, tail: string, digits: seq<Digit>, scale: int, dropped: bool)
    requires |digits| + |whole| <= DIGIT_CAPACITY
    ensures Collect(Chars(whole) + tail, digits, scale, false, dropped)
            == Collect(tail, digits + whole, scale, false, dropped)
  {
    if whole == [] {
      assert Chars(whole) + tail == tail && digits + whole == digits;
    } else {
      assert (Chars(whole) + tail)[1..] == Chars(whole[1..]) + tail;
      assert digits + whole == digits + [whole[0]] + whole[1..];
      CollectWhole(whole[1..], tail, digits + [whole[0]], scale, dropped);
    }
  }

  lemma {:induction false} CollectTooLong(whole: seq<Digit>, tail: string, digits: seq<Digit>, scale: int,
                                          dropped: bool)
    requires |digits| + |whole| > DIGIT_CAPACITY >= |digits| || dropped
    ensures Collect(Chars(whole) + tail, digits, scale, false, dropped).dropped
    decreases |whole|
  {
    if dropped {
      DroppedStays(Chars(whole) + tail, digits, scale, false);
    } else {
      assert (Chars(whole) + tail)[1..] == Chars(whole[1..]) + tail;
      if |digits| == DIGIT_CAPACITY {
        DroppedStays(Chars(whole[1..]) + tail, digits, Decrement(scale), false);
      } else {
        CollectTooLong(whole[1..], tail, digits + [whole[0]], scale, dropped);
      }
    }
  }

  lemma DroppedStays(s: string, digits: seq<Digit>, scale: int, seenPoint: bool)
    ensures Collect(s, digits, scale, seenPoint, true).dropped
    decreases |s|
  {
  }

  lemma {:induction false} CollectFraction(fraction: seq<Digit>, digits: seq<Digit>, scale: int, dropped: bool)
    requires |digits| <= DIGIT_CAPACITY
    ensures var kept := FirstOf(fraction, DIGIT_CAPACITY - |digits|);
            Collect(Chars(fraction), digits, scale, true, dropped) == Collected(digits + kept, scale + |kept|, dropped)
  {
    if fraction == [] || |digits| == DIGIT_CAPACITY {
      assert digits + FirstOf(fraction, DIGIT_CAPACITY - |digits|) == digits;
    } else {
      CollectDigit(fraction, digits, scale, dropped);
      hide Collect, FirstOf;
      CollectFraction(fraction[1..], digits + [fraction[0]], scale + 1, dropped);
      OneMoreKept(fraction, digits);
    }
  }

  lemma CollectDigit(fraction: seq<Digit>, digits: seq<Digit>, scale: int, dropped: bool)
    requires |digits| < DIGIT_CAPACITY && fraction != []
    ensures Collect(Chars(fraction), digits, scale, true, dropped)
            == Collect(Chars(fraction[1..]), digits + [fraction[0]], scale + 1, true, dropped)
  {
    assert Chars(fraction)[1..] == Chars(fraction[1..]);
  }

  lemma OneMoreKept(fraction: seq<Digit>, digits: seq<Digit>)
    requires |digits| < DIGIT_CAPACITY && fraction != []
    ensures var kept := FirstOf(fraction, DIGIT_CAPACITY - |digits|);
            var rest := FirstOf(fraction[1..], DIGIT_CAPACITY - |digits| - 1);
            digits + kept == digits + [fraction[0]] + rest && |kept| == |rest| + 1
  {
    assert FirstOf(fraction, DIGIT_CAPACITY - |digits|)
        == [fraction[0]] + FirstOf(fraction[1..], DIGIT_CAPACITY - |digits| - 1);
  }

  lemma CollectStripped(negative: bool, whole: seq<Digit>, fraction: seq<Digit>)
    requires whole != []
    ensures var tail := if fraction == [] then "" else "." + Chars(fraction);
            CollectText(DecimalText(negative, whole, fraction))
            == Collect(Chars(StripZeros(whole)) + tail, [], 0, false, false)
  {
    var text := DecimalText(negative, whole, fraction);
    var tail := if fraction == [] then "" else "." + Chars(fraction);
    var unsigned := Chars(whole) + tail;
    assert text == (if negative then "-" else "") + unsigned;
    assert unsigned[0] == Chars(whole)[0] && SkipSpaces(text) == text;
    assert (if Signed(text) then text[1..] else text) == unsigned;
    SkipZerosStrips(whole, tail);
  }

  lemma SignStands(negative: bool, whole: seq<Digit>, fraction: seq<Digit>)
    requires whole != []
    ensures SignOf(DecimalText(negative, whole, fraction)) == if negative then 0 else 1
  {
    assert DecimalText(negative, whole, fraction)[0] == if negative then '-' else CharOf(whole[0]);
  }

  // The stored digits are those of the text without leading zeros, as far as they fit; whole
  // digits that do not fit are reported.
  lemma CollectDecimal(negative: bool, whole: seq<Digit>, fraction: seq<Digit>)
    requires whole != []
    ensures var text, stripped := DecimalText(negative, whole, fraction), StripZeros(whole);
            && SignOf(text) == (if negative then 0 else 1)
            && (CollectText(text).dropped <==> |stripped| > DIGIT_CAPACITY)
            && (|stripped| <= DIGIT_CAPACITY ==>
                  var kept := FirstOf(fraction, DIGIT_CAPACITY - |stripped|);
                  CollectText(text) == Collected(stripped + kept, |kept|, false))
  {
    var text, stripped := DecimalText(negative, whole, fraction), StripZeros(whole);
    var tail := if fraction == [] then "" else "." + Chars(fraction);
    CollectStripped(negative, whole, fraction);
    SignStands(negative, whole, fraction);
    hide CollectText, SignOf, DecimalText, Collect, Chars, StripZeros;
    if |stripped| > DIGIT_CAPACITY {
      CollectTooLong(stripped, tail, [], 0, false);
    } else {
      CollectWhole(stripped, tail, [], 0, false);
      assert [] + stripped == stripped;
      CollectTail(fraction, stripped);
    }
  }

  lemma CollectTail(fraction: seq<Digit>, digits: seq<Digit>)
    requires |digits| <= DIGIT_CAPACITY
    ensures var tail := if fraction == [] then "" else "." + Chars(fraction);
            var kept := FirstOf(fraction, DIGIT_CAPACITY - |digits|);
            Collect(tail, digits, 0, false, false) == Collected(digits + kept, |kept|, false)
  {
    hide Chars;
    if fraction == [] {
      assert digits + FirstOf(fraction, DIGIT_CAPACITY - |digits|) == digits;
    } else {
      assert ("." + Chars(fraction))[1..] == Chars(fraction);
      CollectFraction(fraction, digits, 0, false);
    }
  }

  // ---- What stands around the number ----

  /** Leading white space is skipped, and nothing else is. */
  lemma {:induction false} SpacesSkipped(spaces: string, s: string)
    requires forall c <- spaces :: c as int == 32 || 9 <= c as int <= 13
    requires s != "" ==> s[0] as int != 32 && !(9 <= s[0] as int <= 13)
    ensures SkipSpaces(spaces + s) == s
    ensures CollectText(spaces + s) == CollectText(s) && SignOf(spaces + s) == SignOf(s)
    decreases |spaces|
  {
    hide Collect, SkipZeros;
    if spaces == "" {
      assert spaces + s == s;
    } else {
      assert spaces[0] in spaces && forall c <- spaces[1..] :: c in spaces;
      assert (spaces + s)[1..] == spaces[1..] + s;
      SpacesSkipped(spaces[1..], s);
    }
  }

  /** One sign in front of the digits decides the sign and changes nothing else; plus is the default. */
  lemma SignRead(s: string)
    requires s != "" ==> IsDigit(s[0]) || s[0] == '.'
    ensures CollectText("-" + s) == CollectText("+" + s) == CollectText(s)
    ensures SignOf("-" + s) == 0 && SignOf("+" + s) == SignOf(s) == 1
  {
    hide Collect, SkipZeros;
    assert ("-" + s)[1..] == s && ("+" + s)[1..] == s;
  }

  /**
   The number ends at the first character that is neither a digit nor its decimal point; a second
   point ends it as well.
   */
  lemma NumberEnds(text: string, tail: string)
    requires SkipSpaces(text) != "" && tail != "" && !IsDigit(tail[0]) && (tail[0] == '.' ==> '.' in SkipSpaces(text))
    ensures CollectText(text + tail) == CollectText(text) && SignOf(text + tail) == SignOf(text)
  {
    hide Collect, SkipZeros, SkipSpaces;
    SpacesKeepTail(text, tail);
    var s := SkipSpaces(text);
    var t := if Signed(s) then s[1..] else s;
    assert (s + tail)[1..] == s[1..] + tail;
    assert s == [s[0]] + s[1..];
    ZerosKeepTail(t, tail);
    CollectEnds(SkipZeros(t), tail, [], 0, false, false);
  }

  lemma {:induction false} SpacesKeepTail(text: string, tail: string)
    requires SkipSpaces(text) != ""
    ensures SkipSpaces(text + tail) == SkipSpaces(text) + tail
  {
    if Space(text[0]) {
      assert (text + tail)[1..] == text[1..] + tail;
      SpacesKeepTail(text[1..], tail);
    }
  }

  lemma {:induction false} ZerosKeepTail(text: string, tail: string)
    requires tail != "" && !IsDigit(tail[0])
    ensures SkipZeros(text + tail) == SkipZeros(text) + tail
    ensures '.' in text ==> '.' in SkipZeros(text)
  {
    if text == "" {
      assert text + tail == tail;
    } else if text[0] == '0' {
      assert (text + tail)[1..] == text[1..] + tail;
      ZerosKeepTail(text[1..], tail);
    }
  }

  lemma {:induction false} CollectEnds(s: string, tail: string, digits: seq<Digit>, scale: int, seen: bool,
                                       dropped: bool)
    requires tail != "" && !IsDigit(tail[0]) && (tail[0] == '.' ==> seen || '.' in s)
    ensures Collect(s + tail, digits, scale, seen, dropped) == Collect(s, digits, scale, seen, dropped)
    decreases |s|
  {
    if s == "" {
      assert s + tail == tail;
    } else {
      assert (s + tail)[1..] == s[1..] + tail;
      var seen' := seen || s[0] == '.';
      if IsDigit(s[0]) || (s[0] == '.' && !seen) {
        var digits' := if IsDigit(s[0]) && |digits| < DIGIT_CAPACITY then digits + [DigitOf(s[0])] else digits;
        var full := IsDigit(s[0]) && |digits| >= DIGIT_CAPACITY;
        var scale' := if full then Decrement(scale) else if IsDigit(s[0]) && seen then scale + 1 else scale;
        CollectEnds(s[1..], tail, digits', scale', seen', dropped || full);
      }
    }
  }

  // ---- Exact overflow ----

  lemma ReverseJoined(a: seq<Digit>, b: seq<Digit>)
    ensures Reverse(a + b) == Reverse(b) + Reverse(a)
  {
  }

  lemma {:induction false} LeadingZerosKeepNumber(whole: seq<Digit>, fraction: seq<Digit>)
    ensures Number(StripZeros(whole) + fraction) == Number(whole + fraction)
  {
    if whole != [] && whole[0] == 0 {
      var rest := whole[1..] + fraction;
      assert whole + fraction == [0] + rest;
      ReverseJoined([0], rest);
      assert Reverse([0]) == [0];
      assert Reverse(rest) + [0] == Padded(Reverse(rest), |rest| + 1);
      PaddingKeepsValue(Reverse(rest), |rest| + 1);
      LeadingZerosKeepNumber(whole[1..], fraction);
    }
  }

  /**
   On plain decimal text whose digits fit the buffer, the mantissa is the unscaled value modulo
   2^128, and the overflow flag is set if and only if that value needs more than 128 bits. A whole
   part too long for the buffer always sets it.
   */
  lemma OverflowIsExact(negative: bool, whole: seq<Digit>, fraction: seq<Digit>, n: Numeric, overflow: bool)
    requires whole != [] && Parsed(DecimalText(negative, whole, fraction), n, overflow)
    ensures |StripZeros(whole)| > DIGIT_CAPACITY ==> overflow
    ensures |StripZeros(whole)| + |fraction| <= DIGIT_CAPACITY ==>
              && n.scale == |fraction|
              && Value(n.val) == Number(whole + fraction) % MODULUS
              && (overflow <==> Number(whole + fraction) >= MODULUS)
  {
    hide CollectText, SignOf, Number, Value, DecimalText;
    CollectDecimal(negative, whole, fraction);
    LeadingZerosKeepNumber(whole, fraction);
  }

  // ---- Parsing what was printed, and printing what was parsed ----

  lemma {:induction false} DigitsValueBound(digits: seq<Digit>)
    ensures DigitsValue(digits) < Power10(|digits|)
  {
    if digits != [] {
      DigitsValueBound(digits[1..]);
    }
  }

  lemma MantissaDigits(n: nat)
    requires n < MODULUS
    ensures |Digits(n)| <= NUMERIC_MAX_MANTISSA_DIGITS
  {
    assert Power10(8) == 1_0000_0000;
    assert Power10(16) == 1_0000_0000_0000_0000;
    assert Power10(24) == 1_0000_0000_0000_0000_0000_0000;
    assert Power10(32) == 1_0000_0000_0000_0000_0000_0000_0000_0000;
    assert Power10(39) == 1_000_0000_0000_0000_0000_0000_0000_0000_0000_0000;
    DigitCount(n, 39);
  }

  ghost predicate Canonical(negative: bool, whole: seq<Digit>, fraction: seq<Digit>) {
    && whole != [] && (|whole| > 1 ==> whole[0] != 0)
    && !(negative && whole == [0] && fraction == [])
  }

  // The digits that a canonical text was read into, least significant first, with the padding
  // that printing adds.
  lemma CanonicalDigits(whole: seq<Digit>, fraction: seq<Digit>)
    requires whole != [] && (|whole| > 1 ==> whole[0] != 0) && Number(whole + fraction) < MODULUS
    ensures Padded(Digits(Number(whole + fraction)), |fraction| + 1) == Reverse(fraction) + Reverse(whole)
    ensures StripZeros(whole) + fraction != [] ==>
              |Digits(Number(whole + fraction))| <= |StripZeros(whole) + fraction|
    ensures |Digits(Number(whole + fraction))| <= NUMERIC_MAX_MANTISSA_DIGITS
  {
    var digits, stripped := Reverse(whole + fraction), StripZeros(whole) + fraction;
    ReverseJoined(whole, fraction);
    PaddedDigitsUnique(digits);
    MantissaDigits(Number(whole + fraction));
    assert digits[|digits| - 1] == whole[0];
    if stripped != [] {
      LeadingZerosKeepNumber(whole, fraction);
      DigitsValueBound(Reverse(stripped));
      DigitCount(Number(stripped), |stripped|);
    }
  }

  lemma FormatRestores(negative: bool, whole: seq<Digit>, fraction: seq<Digit>, n: Numeric, overflow: bool)
    requires Canonical(negative, whole, fraction)
    requires |StripZeros(whole)| + |fraction| <= DIGIT_CAPACITY && Number(whole + fraction) < MODULUS
    requires Parsed(DecimalText(negative, whole, fraction), n, overflow)
    ensures n.scale >= 0 && Format(n) == DecimalText(negative, whole, fraction)
  {
    hide CollectText, SignOf, Number, Value, Digits, DecimalText, StripZeros;
    CollectDecimal(negative, whole, fraction);
    LeadingZerosKeepNumber(whole, fraction);
    CanonicalDigits(whole, fraction);
    assert FirstOf(fraction, DIGIT_CAPACITY - |StripZeros(whole)|) == fraction;
    if n.precision == 0 {
      OnlyZeroStrips(whole);
      ZeroText();
    } else {
      PrintedAsWritten(n, whole, fraction);
    }
  }

  lemma OnlyZeroStrips(whole: seq<Digit>)
    requires whole != [] && (|whole| > 1 ==> whole[0] != 0) && StripZeros(whole) == []
    ensures whole == [0]
  {
  }

  lemma ZeroText()
    ensures DecimalText(false, [0], []) == "0"
  {
    assert Chars([0]) == "0";
  }

  lemma PrintedAsWritten(n: Numeric, whole: seq<Digit>, fraction: seq<Digit>)
    requires n.precision > 0 && n.scale == |fraction|
    requires |Digits(Value(n.val))| <= n.precision && |Digits(Value(n.val))| <= NUMERIC_MAX_MANTISSA_DIGITS
    requires Padded(Digits(Value(n.val)), n.scale + 1) == Reverse(fraction) + Reverse(whole)
    ensures Format(n) == DecimalText(n.sign == 0, whole, fraction)
  {
    hide Value, Digits, DecimalText;
    var digits := Padded(ExtractedDigits(n), n.scale + 1);
    assert digits == Reverse(fraction) + Reverse(whole);
    assert digits[..n.scale] == Reverse(fraction) && digits[n.scale..] == Reverse(whole);
    assert Reverse(Reverse(fraction)) == fraction && Reverse(Reverse(whole)) == whole;
  }

  lemma {:induction false} LeadingDigit(n: nat)
    ensures |Digits(n)| > 1 ==> Digits(n)[|Digits(n)| - 1] != 0
  {
    if n >= 10 {
      LeadingDigit(n / 10);
    }
  }

  lemma {:induction false} TruncationLoses(digits: seq<Digit>, k: nat)
    requires k < |digits| && digits[|digits| - 1] != 0
    ensures DigitsValue(digits[..k]) < DigitsValue(digits)
  {
    if k == 0 {
      PositiveValue(digits);
    } else {
      assert digits[..k][1..] == digits[1..][..k - 1];
      TruncationLoses(digits[1..], k - 1);
    }
  }

  lemma {:induction false} PositiveValue(digits: seq<Digit>)
    requires digits != [] && digits[|digits| - 1] != 0
    ensures DigitsValue(digits) > 0
  {
    if |digits| > 1 {
      PositiveValue(digits[1..]);
    }
  }

  // The value of the digits that printing extracts: all of it, or less.
  lemma ExtractedValue(n: Numeric)
    requires n.precision > 0 && Value(n.val) < MODULUS
    ensures DigitsValue(ExtractedDigits(n)) <= Value(n.val)
    ensures DigitsValue(ExtractedDigits(n)) == Value(n.val) <==> |Digits(Value(n.val))| <= n.precision
  {
    var digits := Digits(Value(n.val));
    MantissaDigits(Value(n.val));
    DigitsRoundTrip(Value(n.val));
    if |digits| > n.precision {
      LeadingDigit(Value(n.val));
      TruncationLoses(digits, n.precision);
    }
  }

  predicate Sound(n: Numeric) {
    n.precision > 0 && 0 <= n.scale <= 127 && n.sign <= 1 && |n.val| == 16
  }

  lemma PartsNumber(digits: seq<Digit>, k: nat)
    requires k <= |digits|
    ensures Number(Reverse(digits[k..]) + Reverse(digits[..k])) == DigitsValue(digits)
  {
    hide DigitsValue, Reverse;
    var a, b := digits[..k], digits[k..];
    assert a + b == digits;
    ReverseJoined(a, b);
    ReverseTwice(digits);
    assert Number(Reverse(digits)) == DigitsValue(digits);
  }

  lemma ReverseTwice(digits: seq<Digit>)
    ensures Reverse(Reverse(digits)) == digits
  {
  }

  lemma OnlyPadding(digits: seq<Digit>, scale: nat)
    requires |digits| <= scale
    ensures StripZeros(Reverse(Padded(digits, scale + 1)[scale..])) == []
  {
    assert Padded(digits, scale + 1)[scale..] == [0];
    assert Reverse([0]) == [0] && StripZeros([0]) == StripZeros([]);
  }

  // The parts of a printed number, and how many digits parsing has to store for it.
  lemma PrintedParts(n: Numeric)
    requires n.precision > 0 && 0 <= n.scale && |n.val| == 16
    ensures var digits := Padded(ExtractedDigits(n), n.scale + 1);
            var whole, fraction := Reverse(digits[n.scale..]), Reverse(digits[..n.scale]);
            && whole != [] && Number(whole + fraction) == DigitsValue(ExtractedDigits(n))
            && (n.scale <= DIGIT_CAPACITY ==> |StripZeros(whole)| + |fraction| <= DIGIT_CAPACITY)
            && (n.scale > DIGIT_CAPACITY ==> StripZeros(whole) == [])
  {
    hide Number, DigitsValue, StripZeros, ExtractedDigits, Reverse;
    var extracted := ExtractedDigits(n);
    PartsNumber(Padded(extracted, n.scale + 1), n.scale);
    PaddingKeepsValue(extracted, n.scale + 1);
    if |extracted| <= n.scale {
      OnlyPadding(extracted, n.scale);
    }
  }

  // What a printed number is read as.
  lemma PrintedIsRead(n: Numeric, m: Numeric, overflow: bool)
    requires Sound(n) && Parsed(Format(n), m, overflow)
    ensures m.sign == n.sign && m.scale == (if n.scale <= DIGIT_CAPACITY then n.scale else DIGIT_CAPACITY)
    ensures n.scale <= DIGIT_CAPACITY && DigitsValue(ExtractedDigits(n)) < MODULUS ==>
              Value(m.val) == DigitsValue(ExtractedDigits(n))
  {
    hide CollectText, SignOf, Number, Value, DigitsValue, ExtractedDigits, DecimalText, StripZeros, Reverse;
    var digits := Padded(ExtractedDigits(n), n.scale + 1);
    var whole, fraction := Reverse(digits[n.scale..]), Reverse(digits[..n.scale]);
    PrintedParts(n);
    CollectDecimal(n.sign == 0, whole, fraction);
    LeadingZerosKeepNumber(whole, fraction);
    if n.scale <= DIGIT_CAPACITY {
      assert FirstOf(fraction, DIGIT_CAPACITY - |StripZeros(whole)|) == fraction;
    }
  }

  /**
   What was printed is read back with the same sign, scale and mantissa bytes if and only if the
   scale fits the digit buffer and the precision covers all digits of the mantissa.
   */
  lemma ParseAfterFormat(n: Numeric, m: Numeric, overflow: bool)
    requires Sound(n) && Parsed(Format(n), m, overflow)
    ensures m.sign == n.sign && m.scale == n.scale && m.val == n.val <==>
            n.scale <= DIGIT_CAPACITY && |Digits(Value(n.val))| <= n.precision
    ensures !overflow
  {
    hide Format, CollectText, SignOf, Number, Value, Digits, DigitsValue, ExtractedDigits;
    BoundOf16();
    ValueBound(n.val);
    ExtractedValue(n);
    PrintedIsRead(n, m, overflow);
    PrintedNumberFits(n);
    if Value(m.val) == Value(n.val) {
      ValueInjective(m.val, n.val);
    }
  }

  /**
   Canonical text with at most 48 stored digits is printed as it was written if and only if its
   unscaled value fits 128 bits.
   */
  lemma FormatAfterParse(negative: bool, whole: seq<Digit>, fraction: seq<Digit>, n: Numeric, overflow: bool)
    requires Canonical(negative, whole, fraction) && |StripZeros(whole)| + |fraction| <= DIGIT_CAPACITY
    requires Parsed(DecimalText(negative, whole, fraction), n, overflow)
    ensures n.scale == |fraction|
    ensures Format(n) == DecimalText(negative, whole, fraction) <==> Number(whole + fraction) < MODULUS
  {
    hide CollectText, SignOf, Number, Value, Digits, DecimalText, StripZeros;
    CollectDecimal(negative, whole, fraction);
    LeadingZerosKeepNumber(whole, fraction);
    assert FirstOf(fraction, DIGIT_CAPACITY - |StripZeros(whole)|) == fraction;
    if Number(whole + fraction) < MODULUS {
      FormatRestores(negative, whole, fraction, n, overflow);
    } else {
      PrintedNumberFits(n);
    }
  }

  lemma {:induction false} PaddedAbove(front: seq<Digit>, digits: seq<Digit>)
    ensures DigitsValue(front + digits) >= DigitsValue(digits)
    decreases |front|
  {
    if front == [] {
      assert front + digits == digits;
    } else {
      assert (front + digits)[1..] == front[1..] + digits;
      PaddedAbove(front[1..], digits);
    }
  }

  // Leaving off digits at the end makes a number no larger.
  lemma PrefixIsSmaller(digits: seq<Digit>, k: nat)
    requires k <= |digits|
    ensures Number(digits[..k]) <= Number(digits)
  {
    assert digits == digits[..k] + digits[k..];
    ReverseJoined(digits[..k], digits[k..]);
    PaddedAbove(Reverse(digits[k..]), Reverse(digits[..k]));
  }

  // No more than 128 bits are ever printed, whatever the scale.
  lemma PrintedNumberFits(n: Numeric)
    requires |n.val| == 16 && 0 <= n.scale
    ensures Number(CollectText(Format(n)).digits) < MODULUS && !CollectText(Format(n)).dropped
  {
    hide CollectText, Number, Digits, DecimalText, StripZeros, Value;
    if n.precision == 0 {
      ZeroText();
      CollectDecimal(false, [0], []);
      LeadingZerosKeepNumber([0], []);
      ZeroNumber();
    } else {
      var digits := Padded(ExtractedDigits(n), n.scale + 1);
      var whole, fraction := Reverse(digits[n.scale..]), Reverse(digits[..n.scale]);
      BoundOf16();
      ValueBound(n.val);
      ExtractedValue(n);
      PrintedParts(n);
      CollectDecimal(n.sign == 0, whole, fraction);
      LeadingZerosKeepNumber(whole, fraction);
      StoredPart(StripZeros(whole), fraction);
    }
  }

  lemma StoredPart(stripped: seq<Digit>, fraction: seq<Digit>)
    requires |stripped| <= DIGIT_CAPACITY
    ensures Number(stripped + FirstOf(fraction, DIGIT_CAPACITY - |stripped|)) <= Number(stripped + fraction)
  {
    hide Number;
    var kept := FirstOf(fraction, DIGIT_CAPACITY - |stripped|);
    assert (stripped + fraction)[..|stripped| + |kept|] == stripped + kept;
    PrefixIsSmaller(stripped + fraction, |stripped| + |kept|);
  }

  // ---- Scales below zero ----

  function SignedByte(n: int): (b: int)
    ensures -128 <= b <= 127 && (-128 <= n <= 127 ==> b == n)
  {
    (n + 128) % 256 - 128
  }

  // Counting one down first, around the byte, ends at the same scale.
  lemma OneDown(scale: int, n: nat)
    requires -128 <= scale <= 127 && n > 0
    ensures SignedByte(Decrement(scale) - (n - 1)) == SignedByte(scale - n) && -128 <= Decrement(scale) <= 127
  {
  }

  lemma {:induction false} TooLongScale(whole: seq<Digit>, tail: string, digits: seq<Digit>, scale: int, dropped: bool)
    requires |digits| == DIGIT_CAPACITY && -128 <= scale <= 127
    ensures Collect(Chars(whole) + tail, digits, scale, false, dropped)
            == Collect(tail, digits, SignedByte(scale - |whole|), false, dropped || whole != [])
    decreases |whole|
  {
    hide SignedByte, Collect, Decrement;
    if whole == [] {
      assert Chars(whole) + tail == tail;
    } else {
      OneDropped(whole, tail, digits, scale, dropped);
      OneDown(scale, |whole|);
      TooLongScale(whole[1..], tail, digits, Decrement(scale), true);
    }
  }

  lemma OneDropped(whole: seq<Digit>, tail: string, digits: seq<Digit>, scale: int, dropped: bool)
    requires |digits| == DIGIT_CAPACITY && whole != []
    ensures Collect(Chars(whole) + tail, digits, scale, false, dropped)
            == Collect(Chars(whole[1..]) + tail, digits, Decrement(scale), false, true)
  {
    hide Decrement;
    assert (Chars(whole) + tail)[1..] == Chars(whole[1..]) + tail;
    assert (Chars(whole) + tail)[0] == CharOf(whole[0]);
  }

  lemma FullStops(fraction: seq<Digit>, digits: seq<Digit>, scale: int, dropped: bool)
    requires |digits| == DIGIT_CAPACITY
    ensures var tail := if fraction == [] then "" else "." + Chars(fraction);
            Collect(tail, digits, scale, false, dropped) == Collected(digits, scale, dropped)
  {
    if fraction != [] {
      assert ("." + Chars(fraction))[1..] == Chars(fraction);
      CollectFraction(fraction, digits, scale, dropped);
      assert digits + FirstOf(fraction, 0) == digits;
    }
  }

  /**
   Whole digits that find no room count the scale down, around a signed byte: with up to 176 of them
   it is below zero if and only if more than 48 are significant. Printing such a number would read
   below its lowest digit.
   */
  lemma ScaleBelowZero(negative: bool, whole: seq<Digit>, fraction: seq<Digit>)
    requires whole != []
    ensures var c, length := CollectText(DecimalText(negative, whole, fraction)), |StripZeros(whole)|;
            && (length > DIGIT_CAPACITY ==> c.dropped && c.scale == SignedByte(DIGIT_CAPACITY - length))
            && (c.scale < 0 ==> length > DIGIT_CAPACITY)
            && (length <= DIGIT_CAPACITY + 128 ==> (c.scale < 0 <==> length > DIGIT_CAPACITY))
  {
    hide CollectText, DecimalText, Collect, Chars, StripZeros, SignedByte;
    var stripped := StripZeros(whole);
    CollectDecimal(negative, whole, fraction);
    if |stripped| > DIGIT_CAPACITY {
      CollectStripped(negative, whole, fraction);
      CollectLong(stripped, fraction);
    }
  }

  lemma CollectLong(digits: seq<Digit>, fraction: seq<Digit>)
    requires |digits| > DIGIT_CAPACITY
    ensures var tail := if fraction == [] then "" else "." + Chars(fraction);
            Collect(Chars(digits) + tail, [], 0, false, false)
            == Collected(digits[..DIGIT_CAPACITY], SignedByte(DIGIT_CAPACITY - |digits|), true)
  {
    hide Collect, Chars, SignedByte;
    var tail := if fraction == [] then "" else "." + Chars(fraction);
    var kept, rest := digits[..DIGIT_CAPACITY], digits[DIGIT_CAPACITY..];
    CharsSplit(digits, DIGIT_CAPACITY, tail);
    CollectWhole(kept, Chars(rest) + tail, [], 0, false);
    assert [] + kept == kept;
    TooLongScale(rest, tail, kept, 0, false);
    FullStops(fraction, kept, SignedByte(-|rest|), true);
  }

  lemma CharsSplit(digits: seq<Digit>, k: nat, tail: string)
    requires k <= |digits|
    ensures Chars(digits) + tail == Chars(digits[..k]) + (Chars(digits[k..]) + tail)
  {
  }

  lemma ZeroNumber()
    ensures StripZeros([0]) == [] && Number([0] + []) == 0
  {
    assert [0] + [] == [0] && Reverse([0]) == [0];
    assert StripZeros([0]) == StripZeros([]);
  }
}

/** The byte-array routines behind SQL_C_NUMERIC. */
module NumericDriver {
  import opened Blocks
  import opened Octets
  import opened Positional
  import opened NumericText

  class SqlNumeric {
    var precision: nat
    var scale: int
    var sign: nat
    const val: array<Byte>

    ghost predicate Valid()
      reads this, val
    {
      val.Length == 16
    }

    ghost function View(): Numeric
      reads this, val
    {
      Numeric(precision, scale, sign, val[..])
    }

    constructor ()
      ensures Valid() && fresh(val)
    {
      precision, scale, sign := 0, 0, 1;
      val := new Byte[16](_ => 0);
    }

    // mantissa := mantissa * 10 + digit, byte by byte; the carry is what exceeds 128 bits.
    method MultiplyByTenAndAdd(digit: Digit) returns (carry: nat)
      requires Valid()
      modifies val
      ensures Valid() && (val[..], carry) == MulAdd(old(val[..]), digit)
      ensures carry < 10 && Value(val[..]) + carry * MODULUS == 10 * Value(old(val[..])) + digit
    {
      hide Value, MulAdd, MulAdding;
      carry := digit;
      var byteIndex := 0;
      ghost var start := val[..];
      MulAddExact(start, digit);
      BoundOf16();
      MulAddingBegins(start, digit);
      while byteIndex < val.Length
        invariant 0 <= byteIndex <= 16 && carry < 10
        invariant MulAdding(start, digit, val[..], byteIndex, carry)
      {
        ghost var before := val[..];
        MulAddingStep(start, digit, before, byteIndex, carry);
        var product := val[byteIndex] * 10 + carry;
        val[byteIndex] := product % 256;
        assert val[..] == before[byteIndex := product % 256];
        carry := product / 256;
        byteIndex := byteIndex + 1;
      }
      MulAddingEnds(start, digit, val[..], carry);
    }

    method StoreDigits(digits: seq<Digit>) returns (overflow: bool)
      requires Valid()
      modifies val
      ensures Valid() && Value(val[..]) == Number(digits) % MODULUS
      ensures overflow <==> Number(digits) >= MODULUS
    {
      hide Value, MulAdd, Number;
      overflow := false;
      for i := 0 to val.Length
        invariant forall k :: 0 <= k < i ==> val[k] == 0
      {
        val[i] := 0;
      }
      ZeroBytes(val[..]);
      NoDigits();
      var digitIndex := 0;
      while digitIndex < |digits|
        invariant 0 <= digitIndex <= |digits| && val.Length == 16
        invariant Value(val[..]) == Number(digits[..digitIndex]) % MODULUS
        invariant overflow <==> Number(digits[..digitIndex]) >= MODULUS
      {
        ghost var before := Value(val[..]);
        var carry := MultiplyByTenAndAdd(digits[digitIndex]);
        BoundOf16();
        ValueBound(val[..]);
        NextDigit(digits, digitIndex);
        ShiftedRemainder(Number(digits[..digitIndex]), digits[digitIndex], Value(val[..]), carry);
        if carry != 0 {
          overflow := true;
        }
        digitIndex := digitIndex + 1;
      }
      assert digits[..digitIndex] == digits;
    }

    method SkipWhile(text: string, from: nat, skipSpaces: bool) returns (cursor: nat)
      requires from <= |text|
      ensures from <= cursor <= |text|
      ensures text[cursor..] == if skipSpaces then SkipSpaces(text[from..]) else SkipZeros(text[from..])
    {
      cursor := from;
      while cursor < |text| && (if skipSpaces then Space(text[cursor]) else text[cursor] == '0')
        invariant from <= cursor <= |text|
        invariant if skipSpaces then SkipSpaces(text[cursor..]) == SkipSpaces(text[from..])
                  else SkipZeros(text[cursor..]) == SkipZeros(text[from..])
      {
        assert text[cursor..][1..] == text[cursor + 1..];
        cursor := cursor + 1;
      }
    }

    // Stores up to 48 digits, counting the scale and noting whole digits that find no room.
    method CollectDigits(text: string, from: nat) returns (digits: seq<Digit>, dropped: bool)
      requires from <= |text|
      modifies this`scale
      ensures Collect(text[from..], [], 0, false, false) == Collected(digits, scale, dropped)
    {
      digits, dropped, scale := [], false, 0;
      var cursor, seenPoint := from, false;
      while cursor < |text|
        invariant from <= cursor <= |text|
        invariant Collect(text[cursor..], digits, scale, seenPoint, dropped)
                  == Collect(text[from..], [], 0, false, false)
      {
        var character := text[cursor];
        assert text[cursor..][1..] == text[cursor + 1..];
        if character == '.' {
          if seenPoint {
            break;
          }
          seenPoint := true;
        } else if !IsDigit(character) {
          break;
        } else if |digits| >= DIGIT_CAPACITY {
          if seenPoint {
            break;
          }
          scale := if scale == -128 then 127 else scale - 1;
          dropped := true;
        } else {
          if seenPoint {
            scale := scale + 1;
          }
          digits := digits + [DigitOf(character)];
        }
        cursor := cursor + 1;
      }
    }

    method ParseNumericText(text: string) returns (overflow: bool)
      requires Valid()
      modifies this, val
      ensures Valid() && Parsed(text, View(), overflow)
    {
      hide Collect, SkipSpaces, SkipZeros, Number, Value;
      var cursor := SkipWhile(text, 0, true);
      assert text[0..] == text;
      sign := 1;
      ghost var signed := text[cursor..];
      if cursor < |text| && text[cursor] == '-' {
        sign := 0;
        cursor := cursor + 1;
      } else if cursor < |text| && text[cursor] == '+' {
        cursor := cursor + 1;
      }
      assert text[cursor..] == if Signed(signed) then signed[1..] else signed;
      cursor := SkipWhile(text, cursor, false);
      var digits, dropped := CollectDigits(text, cursor);
      precision := |digits|;
      overflow := StoreDigits(digits);
      overflow := overflow || dropped;
    }

    /**
     One pass of long division by ten over the window of bytes that may still be nonzero, in
     place. Bytes outside the window are zero before and after; the window shrinks to the
     highest nonzero byte of the quotient.
     */
    method DivideWindow(working: array<Byte>, significant: nat) returns (remainder: Digit, significant': nat)
      requires significant <= working.Length
      requires forall k :: significant <= k < working.Length ==> working[k] == 0
      modifies working
      ensures (working[..], remainder) == Div10(old(working[..]))
      ensures significant' <= significant
      ensures forall k :: significant' <= k < working.Length ==> working[k] == 0
      ensures significant' > 0 ==> working[significant' - 1] != 0
    {
      hide Div10, Dividing;
      remainder := 0;
      var highestNonzero, byteIndex := -1, significant - 1;
      ghost var start := working[..];
      DividingBegins(start, significant);
      while byteIndex >= 0
        invariant -1 <= byteIndex < significant && -1 <= highestNonzero < significant
        invariant Dividing(start, working[..], byteIndex + 1, remainder, highestNonzero)
      {
        ghost var before := working[..];
        DividingStep(start, before, byteIndex + 1, remainder, highestNonzero);
        var value := working[byteIndex] + remainder * 256;
        working[byteIndex] := value / 10;
        assert working[..] == before[byteIndex := value / 10];
        remainder := value % 10;
        if working[byteIndex] != 0 && highestNonzero == -1 {
          highestNonzero := byteIndex;
        }
        byteIndex := byteIndex - 1;
      }
      DividingEnds(start, working[..], remainder, highestNonzero);
      significant' := highestNonzero + 1;
    }

    // Decimal digits of the mantissa, least significant first, at most `limit` of them.
    method ExtractDigits(limit: nat) returns (extracted: array<Digit>, count: nat)
      requires Valid() && limit > 0
      ensures fresh(extracted) && 0 < count <= extracted.Length
      ensures extracted[..count] == FirstOf(Digits(Value(val[..])), limit)
    {
      hide Value, Div10, Digits, Peeled;
      var working := new Byte[16](_ => 0);
      forall k | 0 <= k < 16 {
        working[k] := val[k];
      }
      assert working[..] == val[..];
      extracted := new Digit[limit](_ => 0);
      count := 0;
      var significant := 16;
      ghost var mantissa := Value(val[..]);
      NothingPeeled(working[..]);
      while true
        invariant 0 <= count < limit && significant <= 16
        invariant val[..] == old(val[..])
        invariant forall k :: significant <= k < 16 ==> working[k] == 0
        invariant Peeled(mantissa, extracted[..count], working[..])
        decreases limit - count
      {
        ghost var before, sofar := working[..], extracted[..count];
        var remainder;
        remainder, significant := DivideWindow(working, significant);
        PeelStep(mantissa, sofar, before, working[..], remainder);
        extracted[count] := remainder;
        count := count + 1;
        assert extracted[..count] == sofar + [remainder];
        SignificantValue(working[..], significant);
        if significant == 0 || count >= limit {
          break;
        }
      }
      if significant > 0 {
        PeelStops(mantissa, extracted[..count], working[..]);
      }
    }

    // Writes the digits from `high` down to `low` at `position`; missing digits print as zeros.
    method WriteDigits(out: array<char>, position: nat, extracted: array<Digit>, count: nat, high: nat, low: nat)
      returns (length: nat)
      requires count <= extracted.Length && low <= high && position + (high - low) < out.Length
      requires (extracted as object) != out
      modifies out
      ensures length == position + (high - low)
      ensures out[..length] == old(out[..position]) + Chars(Reverse(Padded(extracted[..count], high)[low..high]))
    {
      length := position;
      var digitIndex := high - 1;
      ghost var digits := Padded(extracted[..count], high);
      while digitIndex >= low
        invariant low - 1 <= digitIndex < high && length == position + (high - 1 - digitIndex)
        invariant extracted[..] == old(extracted[..])
        invariant out[..length] == old(out[..position]) + Chars(Reverse(digits[digitIndex + 1..high]))
      {
        OneMoreChar(digits, digitIndex, high);
        ghost var before := out[..length];
        out[length] := if digitIndex >= count then '0' else CharOf(extracted[digitIndex]);
        length := length + 1;
        assert out[..length] == before + [CharOf(digits[digitIndex])];
        digitIndex := digitIndex - 1;
      }
    }

    /**
     Prints the number at the start of the buffer, with a terminator behind it. A buffer below the
     fixed minimum size is refused; no number needs more than that.
     */
    method FormatNumericText(out: array<char>) returns (length: int)
      requires Valid() && 0 <= scale <= 127
      modifies out
      ensures out.Length < NUMERIC_TEXT_BUFFER_SIZE ==> length == -1 && out[..] == old(out[..])
      ensures out.Length >= NUMERIC_TEXT_BUFFER_SIZE ==>
                && 0 <= length < NUMERIC_TEXT_BUFFER_SIZE && out[..length] == Format(View()) && out[length] == '\0'
    {
      hide Value, Digits;
      if out.Length < NUMERIC_TEXT_BUFFER_SIZE {
        return -1;
      }
      if precision == 0 {
        out[0], out[1] := '0', '\0';
        assert out[..1] == "0";
        return 1;
      }
      var extracted, count :=
        ExtractDigits(if precision > NUMERIC_MAX_MANTISSA_DIGITS then NUMERIC_MAX_MANTISSA_DIGITS else precision);
      assert extracted[..count] == ExtractedDigits(View());
      length := WriteParts(out, extracted, count);
      out[length] := '\0';
    }

    method WriteParts(out: array<char>, extracted: array<Digit>, count: nat) returns (length: nat)
      requires Valid() && 0 <= scale <= 127 && out.Length >= NUMERIC_TEXT_BUFFER_SIZE && (extracted as object) != out
      requires 0 < count <= extracted.Length && count <= NUMERIC_MAX_MANTISSA_DIGITS
      modifies out
      ensures length < NUMERIC_TEXT_BUFFER_SIZE
      ensures var digits := Padded(old(extracted[..count]), scale + 1);
              out[..length] == DecimalText(sign == 0, Reverse(digits[scale..]), Reverse(digits[..scale]))
    {
      hide Chars, Padded, Reverse;
      ghost var stored := extracted[..count];
      ghost var digits := Padded(stored, scale + 1);
      PartLengths(stored, scale);
      length := 0;
      if sign == 0 {
        length := WriteChar(out, 0, '-');
      }
      ghost var signed := out[..length];
      assert signed == (if sign == 0 then "-" else "") && extracted[..count] == stored;
      length := WriteWhole(out, length, extracted, count);
      length := WriteFraction(out, length, extracted, count);
    }

    method WriteFraction(out: array<char>, position: nat, extracted: array<Digit>, count: nat) returns (length: nat)
      requires 0 <= scale && 0 < count <= extracted.Length && (extracted as object) != out
      requires position + scale + 1 < out.Length
      modifies out
      ensures length <= position + scale + 1
      ensures var fraction := Reverse(Padded(old(extracted[..count]), scale + 1)[..scale]);
              out[..length] == old(out[..position]) + if fraction == [] then "" else "." + Chars(fraction)
    {
      hide Chars, Padded, Reverse;
      ghost var before, stored := out[..position], extracted[..count];
      PartLengths(stored, scale);
      length := position;
      if scale > 0 {
        length := WriteChar(out, length, '.');
        PaddedPart(stored, scale, scale + 1, scale);
        assert extracted[..count] == stored && out[..length] == before + ".";
        length := WriteDigits(out, length, extracted, count, scale, 0);
        assert out[..length] == before + "." + Chars(Reverse(Padded(stored, scale + 1)[..scale]));
      }
    }

    method WriteChar(out: array<char>, position: nat, c: char) returns (length: nat)
      requires position < out.Length
      modifies out
      ensures length == position + 1 && out[..length] == old(out[..position]) + [c]
    {
      out[position] := c;
      length := position + 1;
    }

    method WriteWhole(out: array<char>, position: nat, extracted: array<Digit>, count: nat) returns (length: nat)
      requires 0 <= scale && 0 < count <= extracted.Length && (extracted as object) != out
      requires position + count + 1 < out.Length
      modifies out
      ensures length <= position + count + 1
      ensures out[..length]
              == old(out[..position]) + Chars(Reverse(Padded(old(extracted[..count]), scale + 1)[scale..]))
    {
      hide Chars, Reverse;
      var high := if count > scale then count else scale + 1;
      ghost var digits := Padded(extracted[..count], scale + 1);
      assert Padded(extracted[..count], high) == digits && digits[scale..high] == digits[scale..];
      length := WriteDigits(out, position, extracted, count, high, scale);
    }
  }

  // ---- The steps of the loops ----

  // The highest nonzero byte at or above `low`, or -1.
  ghost predicate Highest(bytes: seq<Byte>, low: nat, highest: int) {
    && (highest == -1 || (low <= highest < |bytes| && bytes[highest] != 0))
    && forall k :: low <= k < |bytes| && highest < k ==> bytes[k] == 0
  }

  // The bytes from `low` on have been divided.
  ghost predicate Dividing(start: seq<Byte>, bytes: seq<Byte>, low: nat, remainder: Digit, highest: int) {
    && low <= |start| == |bytes| && bytes[..low] == start[..low]
    && (bytes[low..], remainder) == Div10(start[low..])
    && Highest(bytes, low, highest)
  }

  lemma DividingBegins(bytes: seq<Byte>, low: nat)
    requires low <= |bytes| && forall k :: low <= k < |bytes| ==> bytes[k] == 0
    ensures Dividing(bytes, bytes, low, 0, -1)
  {
    ZeroDivision(bytes[low..]);
  }

  lemma DividingStep(start: seq<Byte>, bytes: seq<Byte>, low: nat, remainder: Digit, highest: int)
    requires 0 < low && Dividing(start, bytes, low, remainder, highest)
    ensures low <= |bytes|
    ensures var value := bytes[low - 1] + remainder * 256;
            && value < 2560
            && Dividing(start, bytes[low - 1 := value / 10], low - 1, value % 10,
                        if value / 10 != 0 && highest == -1 then low - 1 else highest)
  {
    hide Div10;
    var value := bytes[low - 1] + remainder * 256;
    assert bytes[low - 1] == bytes[..low][low - 1] == start[..low][low - 1];
    Div10At(start, low - 1);
    var after := bytes[low - 1 := value / 10];
    HighestStep(bytes, after, low, highest);
    hide Highest;
    assert after[low - 1..] == [value / 10] + bytes[low..];
    assert after[..low - 1] == bytes[..low][..low - 1] == start[..low - 1];
  }

  lemma HighestStep(before: seq<Byte>, after: seq<Byte>, low: nat, highest: int)
    requires 0 < low <= |before| == |after| && after[low..] == before[low..] && Highest(before, low, highest)
    ensures Highest(after, low - 1, if after[low - 1] != 0 && highest == -1 then low - 1 else highest)
  {
    forall k | low <= k < |after| ensures after[k] == before[k] {
      assert after[k] == after[low..][k - low];
    }
  }

  lemma DividingEnds(start: seq<Byte>, bytes: seq<Byte>, remainder: Digit, highest: int)
    requires highest >= -1 && Dividing(start, bytes, 0, remainder, highest)
    ensures (bytes, remainder) == Div10(start)
    ensures highest < |bytes| && (forall k :: highest + 1 <= k < |bytes| ==> bytes[k] == 0)
    ensures highest >= 0 ==> bytes[highest] != 0
  {
    hide Div10;
    assert bytes[0..] == bytes && start[0..] == start;
  }

  function MulAddFrom(done: seq<Byte>, rest: seq<Byte>, carry: nat): (seq<Byte>, nat) {
    (done + MulAdd(rest, carry).0, MulAdd(rest, carry).1)
  }

  // The bytes below `i` have been multiplied.
  ghost predicate MulAdding(start: seq<Byte>, digit: Digit, bytes: seq<Byte>, i: nat, carry: nat) {
    && i <= |start| == |bytes| && bytes[i..] == start[i..]
    && MulAdd(start, digit) == MulAddFrom(bytes[..i], start[i..], carry)
  }

  lemma MulAddingBegins(start: seq<Byte>, digit: Digit)
    ensures MulAdding(start, digit, start, 0, digit)
  {
    assert start[0..] == start && start[..0] + MulAdd(start, digit).0 == MulAdd(start, digit).0;
  }

  lemma MulAddingStep(start: seq<Byte>, digit: Digit, bytes: seq<Byte>, i: nat, carry: nat)
    requires i < |start| && MulAdding(start, digit, bytes, i, carry) && carry < 10
    ensures |bytes| == |start|
    ensures var product := bytes[i] * 10 + carry;
            product / 256 < 10 && MulAdding(start, digit, bytes[i := product % 256], i + 1, product / 256)
  {
    var product := bytes[i] * 10 + carry;
    assert bytes[i] == bytes[i..][0] == start[i..][0];
    assert start[i..][1..] == start[i + 1..];
    MulAddStep(bytes[..i], start[i..], carry);
    hide MulAdd;
    var after := bytes[i := product % 256];
    assert after[..i + 1] == bytes[..i] + [product % 256];
    assert after[i + 1..] == bytes[i..][1..];
  }

  lemma MulAddingEnds(start: seq<Byte>, digit: Digit, bytes: seq<Byte>, carry: nat)
    requires MulAdding(start, digit, bytes, |start|, carry)
    ensures (bytes, carry) == MulAdd(start, digit)
  {
    assert bytes[..|start|] + [] == bytes;
  }

  lemma MulAddStep(done: seq<Byte>, rest: seq<Byte>, carry: nat)
    requires rest != []
    ensures var product := rest[0] * 10 + carry;
            MulAddFrom(done, rest, carry) == MulAddFrom(done + [product % 256], rest[1..], product / 256)
  {
    var product := rest[0] * 10 + carry;
    var (higher, carryOut) := MulAdd(rest[1..], product / 256);
    assert done + ([product % 256] + higher) == done + [product % 256] + higher;
  }

  lemma {:induction false} ZeroBytes(bytes: seq<Byte>)
    requires forall k :: 0 <= k < |bytes| ==> bytes[k] == 0
    ensures Value(bytes) == 0
  {
    if bytes != [] {
      ZeroBytes(bytes[1..]);
    }
  }

  lemma NoDigits()
    ensures forall digits: seq<Digit> :: Number(digits[..0]) == 0
  {
  }

  lemma NextDigit(digits: seq<Digit>, i: nat)
    requires i < |digits|
    ensures Number(digits[..i + 1]) == 10 * Number(digits[..i]) + digits[i]
  {
    assert digits[..i + 1] == digits[..i] + [digits[i]];
    ReverseJoined(digits[..i], [digits[i]]);
    assert Reverse([digits[i]]) == [digits[i]];
    assert ([digits[i]] + Reverse(digits[..i]))[1..] == Reverse(digits[..i]);
  }

  // Taking remainders before or after a step gives the same; a carry tells that the number no
  // longer fits.
  lemma ShiftedRemainder(n: nat, digit: Digit, value: nat, carry: nat)
    requires value < MODULUS && value + carry * MODULUS == 10 * (n % MODULUS) + digit
    ensures value == (10 * n + digit) % MODULUS
    ensures 10 * n + digit >= MODULUS <==> n >= MODULUS || carry > 0
  {
    var q, m := n / MODULUS, 10 * n + digit;
    assert m == (10 * q + carry) * MODULUS + value;
    assert m / MODULUS == 10 * q + carry;
  }

  lemma {:induction false} ZeroDivision(bytes: seq<Byte>)
    requires forall k :: 0 <= k < |bytes| ==> bytes[k] == 0
    ensures Div10(bytes) == (bytes, 0)
  {
    if bytes != [] {
      ZeroDivision(bytes[1..]);
      assert [0] + bytes[1..] == bytes;
    }
  }

  lemma Div10At(bytes: seq<Byte>, i: nat)
    requires i < |bytes|
    ensures var (quotient, remainder) := Div10(bytes[i + 1..]);
            var value := bytes[i] + remainder * 256;
            value < 2560 && Div10(bytes[i..]) == ([value / 10] + quotient, value % 10)
  {
    assert bytes[i..][1..] == bytes[i + 1..];
  }

  lemma OneMoreChar(digits: seq<Digit>, low: nat, high: nat)
    requires low < high <= |digits|
    ensures Chars(Reverse(digits[low..high])) == Chars(Reverse(digits[low + 1..high])) + [CharOf(digits[low])]
  {
    assert digits[low..high] == [digits[low]] + digits[low + 1..high];
  }

  lemma PartLengths(digits: seq<Digit>, scale: nat)
    ensures |Padded(digits, scale + 1)| >= scale + 1
    ensures scale == 0 ==> Reverse(Padded(digits, scale + 1)[..scale]) == []
    ensures scale > 0 ==> Reverse(Padded(digits, scale + 1)[..scale]) != []
  {
  }

  // Padding further does not change the digits already there.
  lemma PaddedPart(digits: seq<Digit>, a: nat, b: nat, k: nat)
    requires k <= a && k <= b
    ensures k <= |Padded(digits, a)| && k <= |Padded(digits, b)|
    ensures Padded(digits, a)[..k] == Padded(digits, b)[..k]
  {
  }

  lemma PeelDigit(n: nat)
    ensures Digits(n) == [n % 10] + if n < 10 then [] else Digits(n / 10)
  {
  }

  // The digits are followed by those that the bytes still hold.
  ghost predicate Peeled(mantissa: nat, digits: seq<Digit>, bytes: seq<Byte>) {
    digits + Digits(Value(bytes)) == Digits(mantissa)
  }

  lemma NothingPeeled(bytes: seq<Byte>)
    ensures Peeled(Value(bytes), [], bytes)
  {
    assert [] + Digits(Value(bytes)) == Digits(Value(bytes));
  }

  lemma PeelStep(mantissa: nat, digits: seq<Digit>, before: seq<Byte>, after: seq<Byte>, remainder: Digit)
    requires Peeled(mantissa, digits, before) && (after, remainder) == Div10(before)
    ensures if Value(after) == 0 then digits + [remainder] == Digits(mantissa)
            else Peeled(mantissa, digits + [remainder], after)
  {
    Div10Exact(before);
    PeelDigit(Value(before));
    hide Div10, Value, Digits;
    assert Value(before) / 10 == Value(after) && Value(before) % 10 == remainder;
    assert digits + ([remainder] + Digits(Value(after))) == (digits + [remainder]) + Digits(Value(after));
  }

  lemma PeelStops(mantissa: nat, digits: seq<Digit>, bytes: seq<Byte>)
    requires Peeled(mantissa, digits, bytes)
    ensures |digits| < |Digits(mantissa)| && Digits(mantissa)[..|digits|] == digits
  {
  }

  // A window that is not empty holds a value above zero.
  lemma {:induction false} SignificantValue(bytes: seq<Byte>, significant: nat)
    requires significant <= |bytes| && forall k :: significant <= k < |bytes| ==> bytes[k] == 0
    requires significant > 0 ==> bytes[significant - 1] != 0
    ensures Value(bytes) == 0 <==> significant == 0
  {
    if significant == 0 {
      ZeroBytes(bytes);
    } else if significant > 1 {
      SignificantValue(bytes[1..], significant - 1);
    }
  }
}

/** Binary values as PostgreSQL writes them in text: hex pairs, or escapes. */
module ByteaText {
  import opened Octets

  const BACKSLASH: Byte := 92

  // ---- Hex format ----

  function HexDigit(h: int): Byte
    requires 0 <= h < 16
  {
    if h < 10 then 48 + h else 87 + h
  }

  function HexDigitValue(c: Byte): (value: int)
    ensures -1 <= value < 16
  {
    if 48 <= c <= 57 then c - 48 else if 97 <= c <= 102 then c - 87 else if 65 <= c <= 70 then c - 55 else -1
  }

  function HexPairs(data: seq<Byte>): (text: seq<Byte>)
    ensures |text| == 2 * |data|
  {
    if data == [] then [] else [HexDigit(data[0] / 16), HexDigit(data[0] % 16)] + HexPairs(data[1..])
  }

  function HexText(data: seq<Byte>): seq<Byte> {
    [BACKSLASH, 120] + HexPairs(data)
  }

  predicate HexPair(text: seq<Byte>) {
    |text| >= 2 && HexDigitValue(text[0]) >= 0 && HexDigitValue(text[1]) >= 0
  }

  // Stops at the first pair that is not hexadecimal.
  function FromHexPairs(text: seq<Byte>): (data: seq<Byte>)
    ensures 2 * |data| <= |text|
  {
    if HexPair(text) then [HexDigitValue(text[0]) * 16 + HexDigitValue(text[1])] + FromHexPairs(text[2..]) else []
  }

  // ---- Escape format ----

  predicate Octal(c: Byte) {
    48 <= c <= 55
  }

  predicate OctalEscape(text: seq<Byte>) {
    |text| >= 4 && text[0] == BACKSLASH && Octal(text[1]) && Octal(text[2]) && Octal(text[3])
  }

  predicate DoubledBackslash(text: seq<Byte>) {
    |text| >= 2 && text[0] == BACKSLASH && text[1] == BACKSLASH
  }

  function OctalValue(a: int, b: int, c: int): Byte {
    ((a - 48) * 64 + (b - 48) * 8 + (c - 48)) % 256
  }

  // One decoded byte, and how much text it took.
  function EscapeUnit(text: seq<Byte>): (unit: (Byte, nat))
    requires text != []
    ensures 1 <= unit.1 <= |text|
  {
    if DoubledBackslash(text) then (BACKSLASH, 2)
    else if OctalEscape(text) then (OctalValue(text[1], text[2], text[3]), 4)
    else (text[0], 1)
  }

  function FromEscapes(text: seq<Byte>): (data: seq<Byte>)
    ensures |data| <= |text|
  {
    if text == [] then [] else [EscapeUnit(text).0] + FromEscapes(text[EscapeUnit(text).1..])
  }

  function EscapedByte(b: Byte): seq<Byte> {
    if b == BACKSLASH then [BACKSLASH, BACKSLASH]
    else if 32 <= b <= 126 then [b]
    else [BACKSLASH, 48 + b / 64, 48 + b / 8 % 8, 48 + b % 8]
  }

  // What the server writes when bytea_output is 'escape'.
  function EscapeText(data: seq<Byte>): seq<Byte> {
    if data == [] then [] else EscapedByte(data[0]) + EscapeText(data[1..])
  }

  // ---- Either format ----

  predicate HexPrefix(text: seq<Byte>) {
    |text| >= 2 && text[0] == BACKSLASH && text[1] == 120
  }

  function Decode(text: seq<Byte>): (data: seq<Byte>)
    ensures |data| <= |text|
  {
    if HexPrefix(text) then FromHexPairs(text[2..]) else FromEscapes(text)
  }

  lemma HexDigitRead(h: int)
    requires 0 <= h < 16
    ensures HexDigitValue(HexDigit(h)) == h
  {
  }

  lemma HexPairIsRead(b: Byte, rest: seq<Byte>)
    ensures FromHexPairs([HexDigit(b / 16), HexDigit(b % 16)] + rest) == [b] + FromHexPairs(rest)
  {
    hide HexDigit, HexDigitValue;
    var text := [HexDigit(b / 16), HexDigit(b % 16)] + rest;
    HexDigitRead(b / 16);
    HexDigitRead(b % 16);
    assert text[0] == HexDigit(b / 16) && text[1] == HexDigit(b % 16) && text[2..] == rest;
  }

  lemma {:induction false} FromHexAfterHex(data: seq<Byte>, tail: seq<Byte>)
    requires !HexPair(tail)
    ensures FromHexPairs(HexPairs(data) + tail) == data
  {
    if data == [] {
      assert HexPairs(data) + tail == tail;
    } else {
      var pair, rest := [HexDigit(data[0] / 16), HexDigit(data[0] % 16)], HexPairs(data[1..]);
      hide HexDigit, FromHexPairs;
      assert HexPairs(data) + tail == pair + (rest + tail);
      HexPairIsRead(data[0], rest + tail);
      FromHexAfterHex(data[1..], tail);
    }
  }

  /** A binary parameter decodes to the bytes it was made from. */
  lemma HexRoundTrip(data: seq<Byte>)
    ensures Decode(HexText(data)) == data
  {
    FromHexAfterHex(data, []);
    assert HexPairs(data) + [] == HexPairs(data);
    assert HexText(data)[2..] == HexPairs(data);
  }

  lemma OctalDigits(b: Byte)
    ensures 48 <= 48 + b / 64 <= 51 && 48 <= 48 + b / 8 % 8 <= 55 && 48 <= 48 + b % 8 <= 55
    ensures OctalValue(48 + b / 64, 48 + b / 8 % 8, 48 + b % 8) == b
  {
    var upper, low := b / 8, b % 8;
    assert b == upper * 8 + low;
    var high, middle := upper / 8, upper % 8;
    assert upper == high * 8 + middle;
    assert b == high * 64 + (middle * 8 + low) && 0 <= middle * 8 + low < 64;
    assert b / 64 == high;
  }

  lemma EscapedByteIsRead(b: Byte, rest: seq<Byte>)
    ensures var text := EscapedByte(b) + rest;
            EscapeUnit(text) == (b, |EscapedByte(b)|) && text[|EscapedByte(b)|..] == rest
  {
    hide OctalValue;
    OctalDigits(b);
    var text := EscapedByte(b) + rest;
    if b != BACKSLASH && !(32 <= b <= 126) {
      assert text[0] == BACKSLASH && text[1] == 48 + b / 64 && text[2] == 48 + b / 8 % 8 && text[3] == 48 + b % 8;
      assert text[4..] == rest;
    } else {
      assert text[0] == b;
    }
  }

  lemma {:induction false} FromEscapesAfterEscapes(data: seq<Byte>)
    ensures FromEscapes(EscapeText(data)) == data
  {
    hide EscapedByte, EscapeUnit;
    if data != [] {
      EscapedByteIsRead(data[0], EscapeText(data[1..]));
      FromEscapesAfterEscapes(data[1..]);
    }
  }

  /** What the server writes in either format is read back, and the formats are never confused. */
  lemma EscapeRoundTrip(data: seq<Byte>)
    ensures Decode(EscapeText(data)) == data
  {
    FromEscapesAfterEscapes(data);
  }

  // ---- Which texts are read ----

  predicate Spells(c: Byte, h: nat) {
    if h < 10 then c == '0' as int + h else c == 'a' as int + h - 10 || c == 'A' as int + h - 10
  }

  /** A hexadecimal digit is one of the sixteen in either letter case, with its place as its value. */
  lemma HexDigitsAre(c: Byte, h: nat)
    requires h < 16
    ensures HexDigitValue(c) == h <==> Spells(c, h)
    ensures HexDigitValue(c) >= 0 ==> Spells(c, HexDigitValue(c))
  {
  }

  predicate HexOf(text: seq<Byte>, data: seq<Byte>) {
    if data == [] then text == []
    else
      |text| >= 2 && Spells(text[0], data[0] / 16) && Spells(text[1], data[0] % 16) && HexOf(text[2..], data[1..])
  }

  /**
   Hex text in either letter case, even a mixed one, decodes to its bytes, up to the first pair that
   is not hexadecimal.
   */
  lemma EitherCaseIsRead(data: seq<Byte>, text: seq<Byte>, tail: seq<Byte>)
    requires HexOf(text, data)
    requires |tail| < 2 || !(exists h: nat :: h < 16 && Spells(tail[0], h))
             || !(exists h: nat :: h < 16 && Spells(tail[1], h))
    ensures Decode([92, 120] + text + tail) == data
  {
    hide FromHexPairs, HexOf, HexDigitValue, Spells;
    if |tail| >= 2 {
      HexDigitsAre(tail[0], 0);
      HexDigitsAre(tail[1], 0);
      HexDigitRange(tail[0]);
      HexDigitRange(tail[1]);
    }
    PairsAreRead(data, text, tail);
    assert ([92, 120] + text + tail)[2..] == text + tail;
  }

  lemma HexDigitRange(c: Byte)
    ensures HexDigitValue(c) < 16
  {
  }

  lemma {:induction false} PairsAreRead(data: seq<Byte>, text: seq<Byte>, tail: seq<Byte>)
    requires HexOf(text, data) && !HexPair(tail)
    ensures FromHexPairs(text + tail) == data
  {
    hide HexDigitValue, Spells;
    if data == [] {
      assert text + tail == tail;
    } else {
      HexDigitsAre(text[0], data[0] / 16);
      HexDigitsAre(text[1], data[0] % 16);
      assert (text + tail)[2..] == text[2..] + tail;
      PairsAreRead(data[1..], text[2..], tail);
    }
  }

  /**
   In escape text a backslash stands for itself unless another one or three octal digits follow; any
   other byte always does.
   */
  lemma EscapeUnitIs(text: seq<Byte>)
    requires text != []
    ensures var (b, width) := EscapeUnit(text);
            var doubled := |text| >= 2 && text[0] == 92 == text[1];
            var octal :=
              |text| >= 4 && text[0] == 92 && 48 <= text[1] <= 55 && 48 <= text[2] <= 55 && 48 <= text[3] <= 55;
            && width == (if doubled then 2 else if octal then 4 else 1)
            && (!octal ==> b == text[0])
  {
  }

  // ---- The loops ----

  // The SQL_C_BINARY branch of parameter conversion: the text and a terminator.
  method EncodeBinary(data: seq<Byte>) returns (result: array<Byte>, length: nat)
    ensures fresh(result) && result.Length == length + 1 && result[length] == 0
    ensures result[..length] == HexText(data)
  {
    hide HexDigit, HexText;
    length := 2 + 2 * |data|;
    result := new Byte[length + 1];
    result[0], result[1] := BACKSLASH, 120;
    ghost var done := [BACKSLASH, 120];
    HexTextGrows(data, 0);
    for i := 0 to |data|
      invariant result[..2 + 2 * i] == done == HexText(data[..i])
    {
      HexTextGrows(data, i);
      PutPair(result, 2 + 2 * i, HexDigit(data[i] / 16), HexDigit(data[i] % 16));
      done := done + [HexDigit(data[i] / 16), HexDigit(data[i] % 16)];
    }
    assert data[..|data|] == data;
    result[length] := 0;
  }

  method PutPair(buffer: array<Byte>, index: nat, high: Byte, low: Byte)
    requires index + 1 < buffer.Length
    modifies buffer
    ensures buffer[..index + 2] == old(buffer[..index]) + [high, low]
  {
    buffer[index], buffer[index + 1] := high, low;
  }

  lemma {:induction false} HexPairsGrow(data: seq<Byte>, i: nat)
    requires i < |data|
    ensures HexPairs(data[..i + 1]) == HexPairs(data[..i]) + [HexDigit(data[i] / 16), HexDigit(data[i] % 16)]
    decreases i
  {
    if i > 0 {
      HexPairsGrow(data[1..], i - 1);
      assert data[..i + 1][1..] == data[1..][..i] && data[..i][1..] == data[1..][..i - 1];
    }
  }

  lemma HexTextGrows(data: seq<Byte>, i: nat)
    requires i <= |data|
    ensures HexText(data[..0]) == [BACKSLASH, 120]
    ensures i < |data| ==>
              HexText(data[..i + 1]) == HexText(data[..i]) + [HexDigit(data[i] / 16), HexDigit(data[i] % 16)]
  {
    hide HexDigit;
    if i < |data| {
      HexPairsGrow(data, i);
    }
  }

  // Stores a byte when there is a buffer to store it in.
  method Put(output: array?<Byte>, index: nat, b: Byte)
    requires output != null ==> index < output.Length
    modifies if output == null then {} else {output}
    ensures output != null ==> output[..index + 1] == old(output[..index]) + [b]
    ensures output != null ==> forall k :: index < k < output.Length ==> output[k] == old(output[k])
  {
    if output != null {
      output[index] := b;
    }
  }

  lemma HexStep(text: seq<Byte>, i: nat)
    requires i <= |text|
    ensures i + 1 < |text| && HexDigitValue(text[i]) >= 0 && HexDigitValue(text[i + 1]) >= 0 ==>
              FromHexPairs(text[i..])
              == [HexDigitValue(text[i]) * 16 + HexDigitValue(text[i + 1])] + FromHexPairs(text[i + 2..])
    ensures i + 1 < |text| && (HexDigitValue(text[i]) < 0 || HexDigitValue(text[i + 1]) < 0) ==>
              FromHexPairs(text[i..]) == []
    ensures i + 1 >= |text| ==> FromHexPairs(text[i..]) == []
  {
    hide HexDigitValue;
    if i + 1 < |text| {
      assert text[i..][2..] == text[i + 2..];
    }
  }

  method DecodeHex(text: seq<Byte>, output: array?<Byte>) returns (count: nat)
    requires |text| >= 2 && (output != null ==> output.Length >= |FromHexPairs(text[2..])|)
    modifies if output == null then {} else {output}
    ensures count == |FromHexPairs(text[2..])|
    ensures output != null ==> output[..count] == FromHexPairs(text[2..])
    ensures output != null ==> forall k :: count <= k < output.Length ==> output[k] == old(output[k])
  {
    hide HexDigitValue, FromHexPairs;
    count := 0;
    var i := 2;
    ghost var whole := FromHexPairs(text[2..]);
    ghost var done: seq<Byte> := [];
    while i + 1 < |text|
      invariant 2 <= i <= |text| && count == |done|
      invariant whole == done + FromHexPairs(text[i..])
      invariant output != null ==> output[..count] == done
      invariant output != null ==> forall k :: count <= k < output.Length ==> output[k] == old(output[k])
    {
      HexStep(text, i);
      var high, low := HexDigitValue(text[i]), HexDigitValue(text[i + 1]);
      if high < 0 || low < 0 {
        break;
      }
      Put(output, count, high * 16 + low);
      done := done + [high * 16 + low];
      count := count + 1;
      i := i + 2;
    }
    HexStep(text, i);
  }

  method ReadEscape(text: seq<Byte>, i: nat) returns (decoded: Byte, width: nat)
    requires i < |text|
    ensures (decoded, width) == EscapeUnit(text[i..])
  {
    decoded, width := text[i], 1;
    if text[i] == BACKSLASH {
      if i + 1 < |text| && text[i + 1] == BACKSLASH {
        width := 2;
      } else if i + 3 < |text| && Octal(text[i + 1]) && Octal(text[i + 2]) && Octal(text[i + 3]) {
        decoded, width := OctalValue(text[i + 1], text[i + 2], text[i + 3]), 4;
      }
    }
  }

  lemma EscapeStep(text: seq<Byte>, i: nat)
    requires i < |text|
    ensures var (decoded, width) := EscapeUnit(text[i..]);
            i + width <= |text| && FromEscapes(text[i..]) == [decoded] + FromEscapes(text[i + width..])
  {
    hide EscapeUnit;
    var width := EscapeUnit(text[i..]).1;
    assert text[i..][width..] == text[i + width..];
  }

  lemma NoEscapesLeft(text: seq<Byte>)
    requires text == []
    ensures FromEscapes(text) == []
  {
  }

  method DecodeEscapes(text: seq<Byte>, output: array?<Byte>) returns (count: nat)
    requires output != null ==> output.Length >= |FromEscapes(text)|
    modifies if output == null then {} else {output}
    ensures count == |FromEscapes(text)|
    ensures output != null ==> output[..count] == FromEscapes(text)
    ensures output != null ==> forall k :: count <= k < output.Length ==> output[k] == old(output[k])
  {
    hide EscapeUnit, FromEscapes;
    count := 0;
    var i := 0;
    ghost var done: seq<Byte> := [];
    assert text[0..] == text && done + FromEscapes(text) == FromEscapes(text);
    while i < |text|
      invariant 0 <= i <= |text| && count == |done|
      invariant FromEscapes(text) == done + FromEscapes(text[i..])
      invariant output != null ==> output[..count] == done
      invariant output != null ==> forall k :: count <= k < output.Length ==> output[k] == old(output[k])
    {
      EscapeStep(text, i);
      var decoded, width := ReadEscape(text, i);
      assert done + ([decoded] + FromEscapes(text[i + width..])) == (done + [decoded]) + FromEscapes(text[i + width..]);
      Put(output, count, decoded);
      done := done + [decoded];
      count := count + 1;
      i := i + width;
    }
    NoEscapesLeft(text[i..]);
  }

  /**
   decode_bytea_text: without a buffer it only counts, and the count is the length of what it
   writes into a buffer.
   */
  method DecodeByteaText(text: seq<Byte>, output: array?<Byte>) returns (count: nat)
    requires output != null ==> output.Length >= |Decode(text)|
    modifies if output == null then {} else {output}
    ensures count == |Decode(text)|
    ensures output != null ==> output[..count] == Decode(text)
    ensures output != null ==> forall k :: count <= k < output.Length ==> output[k] == old(output[k])
  {
    if HexPrefix(text) {
      count := DecodeHex(text, output);
    } else {
      count := DecodeEscapes(text, output);
    }
  }
}

/** SQL string literals: doubling quotes when writing, counting characters when reading. */
module QuotedLiterals {

  const QUOTE := '\''

  // Sizes are unsigned machine words, and their differences wrap around.
  const WORD := 0x1_0000_0000_0000_0000

  function Wrapped(n: int): (r: nat)
    ensures r < WORD && (0 <= n < WORD ==> r == n)
  {
    n % WORD
  }

  function Doubled(value: string): string {
    if value == "" then ""
    else (if value[0] == QUOTE then [QUOTE, QUOTE] else [value[0]]) + Doubled(value[1..])
  }

  // How many characters of `value` can be written, doubled, into `room` characters.
  function FitLength(value: string, room: nat): (k: nat)
    ensures k <= |value|
  {
    if value == "" || room == 0 || (value[0] == QUOTE && room == 1) then 0
    else 1 + FitLength(value[1..], room - if value[0] == QUOTE then 2 else 1)
  }

  /** What is written is the longest prefix that fits. */
  lemma {:induction false} FitIsLongest(value: string, room: nat, k: nat)
    requires k <= |value|
    ensures |Doubled(value[..k])| <= room <==> k <= FitLength(value, room)
    decreases k
  {
    if k > 0 {
      assert value[..k][1..] == value[1..][..k - 1];
      var width := if value[0] == QUOTE then 2 else 1;
      assert |Doubled(value[..k])| == width + |Doubled(value[1..][..k - 1])|;
      if width <= room {
        FitIsLongest(value[1..], room - width, k - 1);
      }
    }
  }

  function Fitted(value: string, room: nat): string {
    Doubled(value[..FitLength(value, room)])
  }

  lemma FittedStep(value: string, room: nat)
    ensures value == "" || room == 0 || (value[0] == QUOTE && room == 1) ==> Fitted(value, room) == ""
    ensures value != "" && value[0] == QUOTE && room >= 2 ==>
              Fitted(value, room) == [QUOTE, QUOTE] + Fitted(value[1..], room - 2)
    ensures value != "" && value[0] != QUOTE && room >= 1 ==>
              Fitted(value, room) == [value[0]] + Fitted(value[1..], room - 1)
  {
    var k := FitLength(value, room);
    if k > 0 {
      assert value[..k][1..] == value[1..][..k - 1];
    }
  }

  // A buffer with `text` written at `at`.
  function Overwritten(buffer: string, at: nat, text: string): (r: string)
    requires at + |text| <= |buffer|
    ensures |r| == |buffer|
  {
    buffer[..at] + text + buffer[at + |text|..]
  }

  lemma OverwrittenNot(buffer: string, at: nat)
    requires at <= |buffer|
    ensures Overwritten(buffer, at, "") == buffer
  {
  }

  lemma OverwrittenLonger(buffer: string, at: nat, text: string, c: char)
    requires at + |text| < |buffer|
    ensures Overwritten(buffer, at, text)[at + |text| := c] == Overwritten(buffer, at, text + [c])
  {
  }

  // Writing over the terminator goes on with the text in front of it.
  lemma OverwrittenTwice(buffer: string, at: nat, text: string, more: string)
    requires more != "" && at + |text| + |more| <= |buffer|
    ensures Overwritten(Overwritten(buffer, at, text + "\0"), at + |text|, more) == Overwritten(buffer, at, text + more)
  {
  }

  lemma OverwrittenElsewhere(buffer: string, at: nat, text: string, k: nat)
    requires at + |text| <= |buffer| && k < |buffer|
    ensures Overwritten(buffer, at, text)[k] == if at <= k < at + |text| then text[k - at] else buffer[k]
  {
  }

  // append_escaped_literal: writes at `start`, and a terminator behind, within `remaining` characters
  // less one, which is no limit when nothing remains. The memory reaches as far as that takes it.
  method AppendEscapedLiteral(memory: array<char>, start: nat, remaining: nat, value: string) returns (written: nat)
    requires remaining < WORD && start + |Fitted(value, Wrapped(remaining - 1))| < memory.Length
    modifies memory
    ensures written == |Fitted(value, Wrapped(remaining - 1))|
    ensures memory[..] == Overwritten(old(memory[..]), start, Fitted(value, Wrapped(remaining - 1)) + "\0")
  {
    hide FitLength, Doubled, Fitted, Overwritten, Wrapped;
    var limit := Wrapped(remaining - 1);
    written := 0;
    var i := 0;
    ghost var before, done, whole := memory[..], "", Fitted(value, limit);
    assert value[0..] == value && done + whole == whole;
    OverwrittenNot(before, start);
    while i < |value| && written < limit
      invariant i <= |value| && written == |done| <= limit && start + |whole| < memory.Length
      invariant whole == done + Fitted(value[i..], limit - written)
      invariant memory[..] == Overwritten(before, start, done)
    {
      FittedStep(value[i..], limit - written);
      assert value[i..][1..] == value[i + 1..];
      if value[i] == QUOTE {
        if written + 2 > limit {
          break;
        }
        OverwrittenLonger(before, start, done, QUOTE);
        memory[start + written] := QUOTE;
        OverwrittenLonger(before, start, done + [QUOTE], QUOTE);
        memory[start + written + 1] := QUOTE;
        written := written + 2;
        done := done + [QUOTE] + [QUOTE];
      } else {
        OverwrittenLonger(before, start, done, value[i]);
        memory[start + written] := value[i];
        written := written + 1;
        done := done + [value[i]];
      }
      i := i + 1;
      assert whole == done + Fitted(value[i..], limit - written);
    }
    FittedStep(value[i..], limit - written);
    assert done + "" == done;
    OverwrittenLonger(before, start, done, '\0');
    memory[start + written] := '\0';
  }

  // ---- Filters of a catalog query ----

  // A filter clause up to its opening quote, and the value in quotes; without a value there is none.
  datatype Filter = Filter(prefix: string, value: string)

  // The running offset behind a filter, counted as the source counts it: past what was cut off.
  function FilterEnd(size: nat, offset: nat, filter: Filter): (end: nat)
    requires FilterInside(size, offset, filter)
    ensures filter.value != "" ==> end <= size
  {
    if filter.value == "" then offset
    else
      var start := offset + |filter.prefix|;
      FittedFits(filter.value, size - start - 1);
      start + |Fitted(filter.value, size - start - 1)| + 1
  }

  lemma FittedFits(value: string, room: nat)
    ensures |Fitted(value, room)| <= room
    ensures Fitted(value, room) == Doubled(value) <==> |Doubled(value)| <= room
  {
    hide FitLength, Doubled;
    FitIsLongest(value, room, FitLength(value, room));
    FitIsLongest(value, room, |value|);
    assert value[..|value|] == value;
  }

  // The escaper is given at least the room for its terminator.
  predicate FilterInside(size: nat, offset: nat, filter: Filter) {
    filter.value == "" || offset + |filter.prefix| < size
  }

  predicate AllInside(size: nat, offset: nat, filters: seq<Filter>)
    decreases |filters|
  {
    filters == [] ||
    (FilterInside(size, offset, filters[0]) && AllInside(size, FilterEnd(size, offset, filters[0]), filters[1..]))
  }

  // The text of a filter that is not cut off.
  function FilterText(filter: Filter): string {
    if filter.value == "" then "" else filter.prefix + Doubled(filter.value) + "'"
  }

  function FilterTexts(filters: seq<Filter>): string {
    if filters == [] then "" else FilterText(filters[0]) + FilterTexts(filters[1..])
  }

  // In front of each value there is room for what comes before it, in full, and one more character.
  ghost predicate RoomForAll(size: nat, offset: nat, filters: seq<Filter>) {
    forall k :: 0 <= k < |filters| && filters[k].value != "" ==>
      offset + |FilterTexts(filters[..k])| + |filters[k].prefix| < size
  }

  lemma {:induction false} InsideExactlyWithRoom(size: nat, offset: nat, filters: seq<Filter>)
    requires forall f :: f in filters ==> f.prefix != ""
    ensures AllInside(size, offset, filters) <==> RoomForAll(size, offset, filters)
    decreases |filters|
  {
    if filters != [] {
      var first, rest := filters[0], filters[1..];
      forall k | 0 <= k < |rest|
        ensures |FilterTexts(filters[..k + 1])| == |FilterText(first)| + |FilterTexts(rest[..k])|
      {
        assert filters[..k + 1][0] == first && filters[..k + 1][1..] == rest[..k];
      }
      assert FilterTexts(filters[..0]) == "";
      assert forall k :: 0 <= k < |rest| ==> rest[k] == filters[k + 1];
      if FilterInside(size, offset, first) {
        var end := FilterEnd(size, offset, first);
        InsideExactlyWithRoom(size, end, rest);
        CutOffEnds(size, offset, first);
        if end != offset + |FilterText(first)| {
          NothingBehind(size, offset, end, filters);
        }
      }
    }
  }

  // A filter that is cut off leaves no room for another value.
  lemma CutOffEnds(size: nat, offset: nat, filter: Filter)
    requires FilterInside(size, offset, filter)
    ensures var end := FilterEnd(size, offset, filter);
            end == offset + |FilterText(filter)|
            || (filter.value != "" && size - 1 <= end && size - 1 <= offset + |FilterText(filter)|)
  {
    if filter.value != "" {
      var room := size - offset - |filter.prefix| - 1;
      FittedFits(filter.value, room);
      CutOffFills(filter.value, room);
    }
  }

  lemma {:induction false} CutOffFills(value: string, room: nat)
    ensures |Doubled(value)| > room ==> |Fitted(value, room)| >= room - 1
  {
    FittedStep(value, room);
    if value != "" && room >= 2 {
      CutOffFills(value[1..], room - if value[0] == QUOTE then 2 else 1);
    }
  }

  lemma NothingBehind(size: nat, offset: nat, end: nat, filters: seq<Filter>)
    requires filters != [] && forall f :: f in filters ==> f.prefix != ""
    requires size - 1 <= end && size - 1 <= offset + |FilterText(filters[0])|
    requires forall k :: 0 <= k < |filters| - 1 ==>
               |FilterTexts(filters[..k + 1])| == |FilterText(filters[0])| + |FilterTexts(filters[1..][..k])|
    ensures forall k :: 0 <= k < |filters[1..]| && filters[1..][k].value != "" ==>
              && end + |FilterTexts(filters[1..][..k])| + |filters[1..][k].prefix| >= size
              && offset + |FilterTexts(filters[..k + 1])| + |filters[1..][k].prefix| >= size
  {
    forall k | 0 <= k < |filters[1..]| ensures |filters[1..][k].prefix| >= 1 {
      assert filters[1..][k] in filters;
    }
  }

  // ---- Where the writes go, in the machine's arithmetic ----

  // The characters from `from` to below `until`.
  datatype Range = Range(from: nat, until: nat)

  predicate Inside(size: nat, r: Range) {
    r.from == r.until || r.until <= size
  }

  // snprintf of `length` characters: as many as fit in front of a terminator, or nothing at all.
  function FormatRange(size: nat, offset: nat, length: nat): Range {
    var remaining := Wrapped(size - offset);
    Range(offset, if remaining == 0 then offset
                  else if length < remaining then offset + length + 1
                  else offset + remaining)
  }

  // The escaper's characters and terminator, within a limit that is an unsigned difference.
  function EscapedLength(size: nat, offset: nat, value: string): nat {
    |Fitted(value, Wrapped(Wrapped(size - offset) - 1))|
  }

  function EscapeRange(size: nat, offset: nat, value: string): Range {
    Range(offset, offset + EscapedLength(size, offset, value) + 1)
  }

  predicate Touched(ranges: seq<Range>, k: nat) {
    exists r <- ranges :: r.from <= k < r.until
  }

  // The three writes of a filter, and the offset behind it.
  function FilterRanges(size: nat, offset: nat, filter: Filter): seq<Range> {
    if filter.value == "" then []
    else
      var start := offset + |filter.prefix|;
      [FormatRange(size, offset, |filter.prefix|), EscapeRange(size, start, filter.value),
       FormatRange(size, start + EscapedLength(size, start, filter.value), 1)]
  }

  function OffsetBehind(size: nat, offset: nat, filter: Filter): nat {
    if filter.value == "" then offset
    else
      var start := offset + |filter.prefix|;
      start + EscapedLength(size, start, filter.value) + 1
  }

  predicate StaysInside(size: nat, offset: nat, filters: seq<Filter>)
    decreases |filters|
  {
    filters == [] ||
    ((forall r <- FilterRanges(size, offset, filters[0]) :: Inside(size, r))
     && StaysInside(size, OffsetBehind(size, offset, filters[0]), filters[1..]))
  }

  // A filter whose literal finds room in front of its terminator writes inside the buffer; one whose
  // literal finds none writes at least its terminator outside.
  lemma FilterStaysInside(size: nat, offset: nat, filter: Filter)
    requires offset <= size < WORD && offset + |filter.prefix| < WORD
    ensures (forall r <- FilterRanges(size, offset, filter) :: Inside(size, r)) <==> FilterInside(size, offset, filter)
    ensures FilterInside(size, offset, filter) ==> OffsetBehind(size, offset, filter) == FilterEnd(size, offset, filter)
  {
    hide Fitted;
    if filter.value != "" {
      var start := offset + |filter.prefix|;
      if start < size {
        FittedFits(filter.value, size - start - 1);
      } else {
        var r := EscapeRange(size, start, filter.value);
        assert FilterRanges(size, offset, filter)[1] == r;
        assert r in FilterRanges(size, offset, filter) && !Inside(size, r);
      }
    }
  }

  // What a filter with room writes is one stretch, from the offset to the terminator.
  predicate FilterWrites(size: nat, offset: nat, filter: Filter, k: nat)
    requires FilterInside(size, offset, filter)
  {
    filter.value != "" && offset <= k <= FilterEnd(size, offset, filter) && k < size
  }

  lemma RangesAreWritten(size: nat, offset: nat, filter: Filter, k: nat)
    requires FilterInside(size, offset, filter) && size < WORD
    ensures Touched(FilterRanges(size, offset, filter), k) <==> FilterWrites(size, offset, filter, k)
  {
    hide Fitted;
    var ranges := FilterRanges(size, offset, filter);
    if filter.value != "" {
      var start := offset + |filter.prefix|;
      FittedFits(filter.value, size - start - 1);
      var behind := start + EscapedLength(size, start, filter.value);
      assert ranges[0] == Range(offset, start + 1) && ranges[1] == Range(start, behind + 1);
      assert ranges[2] == Range(behind, if behind + 1 < size then behind + 2 else size);
      assert ranges == [ranges[0], ranges[1], ranges[2]];
      if FilterWrites(size, offset, filter, k) {
        var r := if k <= start then ranges[0] else if k <= behind then ranges[1] else ranges[2];
        assert r in ranges && r.from <= k < r.until;
      }
    }
  }

  /**
   Every write of a chain of filters stays inside the query buffer if and only if in front of each
   value there is room for what comes before it, in full, and one more character.
   */
  lemma WritesStayInside(size: nat, offset: nat, filters: seq<Filter>)
    requires forall f :: f in filters ==> f.prefix != "" && size + |f.prefix| < WORD
    requires offset <= size < WORD
    ensures StaysInside(size, offset, filters) <==> RoomForAll(size, offset, filters)
  {
    InsideExactlyWithRoom(size, offset, filters);
    StaysAsModelled(size, offset, filters);
  }

  lemma {:induction false} StaysAsModelled(size: nat, offset: nat, filters: seq<Filter>)
    requires forall f :: f in filters ==> size + |f.prefix| < WORD
    requires offset <= size < WORD
    ensures StaysInside(size, offset, filters) <==> AllInside(size, offset, filters)
    decreases |filters|
  {
    hide FilterRanges, OffsetBehind, FilterInside;
    if filters != [] {
      assert filters[0] in filters;
      FilterStaysInside(size, offset, filters[0]);
      if FilterInside(size, offset, filters[0]) {
        StaysAsModelled(size, FilterEnd(size, offset, filters[0]), filters[1..]);
      }
    }
  }

  const CATALOG_QUERY_BUFFER_SIZE := 8192

  lemma {:induction false} DoublingIsNoShorter(value: string)
    ensures |Doubled(value)| >= |value|
  {
    if value != "" {
      DoublingIsNoShorter(value[1..]);
    }
  }

  /**
   A schema pattern as long as the query buffer and any table pattern behind it: the literal of the
   second filter is written outside, although a 16-bit length describes the first.
   */
  lemma LongPatternLeavesBuffer(offset: nat, schema: string, table: string)
    requires offset <= CATALOG_QUERY_BUFFER_SIZE <= |schema| < 0x8000 && table != ""
    ensures !StaysInside(CATALOG_QUERY_BUFFER_SIZE, offset,
                         [Filter(" AND n.nspname LIKE '", schema), Filter(" AND c.relname LIKE '", table)])
  {
    var first, second := Filter(" AND n.nspname LIKE '", schema), Filter(" AND c.relname LIKE '", table);
    WritesStayInside(CATALOG_QUERY_BUFFER_SIZE, offset, [first, second]);
    DoublingIsNoShorter(schema);
    assert [first, second][..1] == [first] && [first][1..] == [];
    assert |FilterTexts([first])| > CATALOG_QUERY_BUFFER_SIZE;
    assert [first, second][1].value != "";
  }

  // As much of a text as fits in front of a terminator.
  function FormattedText(text: string, room: nat): string
    requires room > 0
  {
    (if |text| < room then text else text[..room - 1]) + "\0"
  }

  // The memory behind an snprintf of one string into the rest of a buffer of `size` characters.
  function WithFormatted(memory: string, size: nat, offset: nat, text: string): (r: string)
    requires FormatRange(size, offset, |text|).until <= |memory|
    ensures |r| == |memory|
  {
    var remaining := Wrapped(size - offset);
    if remaining == 0 then memory else Overwritten(memory, offset, FormattedText(text, remaining))
  }

  // snprintf: the length it would have taken.
  method Format(memory: array<char>, size: nat, offset: nat, text: string) returns (length: nat)
    requires FormatRange(size, offset, |text|).until <= memory.Length
    modifies memory
    ensures length == |text| && memory[..] == WithFormatted(old(memory[..]), size, offset, text)
  {
    hide Overwritten, Wrapped;
    length := |text|;
    var remaining := Wrapped(size - offset);
    if remaining == 0 {
      return;
    }
    var count := if |text| < remaining then |text| else remaining - 1;
    var i := 0;
    ghost var before := memory[..];
    OverwrittenNot(before, offset);
    while i < count
      invariant 0 <= i <= count && memory[..] == Overwritten(before, offset, text[..i])
    {
      OverwrittenLonger(before, offset, text[..i], text[i]);
      assert text[..i + 1] == text[..i] + [text[i]];
      memory[offset + i] := text[i];
      i := i + 1;
    }
    OverwrittenLonger(before, offset, text[..count], '\0');
    memory[offset + count] := '\0';
    assert text[..count] + "\0" == FormattedText(text, remaining);
  }

  // The memory behind the value and its closing quote.
  function WithQuoted(memory: string, size: nat, start: nat, value: string): (r: string)
    requires EscapeRange(size, start, value).until <= |memory|
    requires FormatRange(size, start + EscapedLength(size, start, value), 1).until <= |memory|
    ensures |r| == |memory|
  {
    var text := Fitted(value, Wrapped(Wrapped(size - start) - 1));
    WithFormatted(Overwritten(memory, start, text + "\0"), size, start + |text|, "'")
  }

  method AppendQuoted(memory: array<char>, size: nat, start: nat, value: string) returns (end: nat)
    requires EscapeRange(size, start, value).until <= memory.Length
    requires FormatRange(size, start + EscapedLength(size, start, value), 1).until <= memory.Length
    modifies memory
    ensures end == start + EscapedLength(size, start, value) + 1
    ensures memory[..] == WithQuoted(old(memory[..]), size, start, value)
  {
    hide Fitted, Overwritten, WithFormatted;
    var length := AppendEscapedLiteral(memory, start, Wrapped(size - start), value);
    end := start + length;
    var written := Format(memory, size, end, "'");
    end := end + written;
  }

  // The memory reaches as far as the writes of a filter take them.
  predicate MemoryHolds(memory: nat, size: nat, offset: nat, filter: Filter) {
    forall r <- FilterRanges(size, offset, filter) :: r.until <= memory
  }

  // The memory behind a filter.
  function WithFiltered(memory: string, size: nat, offset: nat, filter: Filter): (r: string)
    requires MemoryHolds(|memory|, size, offset, filter)
    ensures |r| == |memory|
  {
    if filter.value == "" then memory
    else
      var start := offset + |filter.prefix|;
      RangesReached(|memory|, size, offset, filter);
      WithQuoted(WithFormatted(memory, size, offset, filter.prefix), size, start, filter.value)
  }

  lemma RangesReached(memory: nat, size: nat, offset: nat, filter: Filter)
    requires MemoryHolds(memory, size, offset, filter) && filter.value != ""
    ensures var start := offset + |filter.prefix|;
            && FormatRange(size, offset, |filter.prefix|).until <= memory
            && EscapeRange(size, start, filter.value).until <= memory
            && FormatRange(size, start + EscapedLength(size, start, filter.value), 1).until <= memory
  {
    hide FormatRange, EscapeRange, EscapedLength;
    var ranges := FilterRanges(size, offset, filter);
    assert ranges[0] in ranges && ranges[1] in ranges && ranges[2] in ranges;
  }

  /**
   append_like_filter and append_exact_filter on a buffer of `size` characters at the start of the
   memory, whether or not it has room: all that they write lies in the ranges, and where the literal
   finds room they write the clause as far as it fits, always terminated.
   */
  method AppendFilter(memory: array<char>, size: nat, offset: nat, filter: Filter) returns (end: nat)
    requires size <= memory.Length && size < WORD && MemoryHolds(memory.Length, size, offset, filter)
    modifies memory
    ensures end == OffsetBehind(size, offset, filter)
    ensures memory[..] == WithFiltered(old(memory[..]), size, offset, filter)
    ensures forall k ::
              0 <= k < memory.Length && !Touched(FilterRanges(size, offset, filter), k) ==> memory[k] == old(memory[k])
    ensures filter.value != "" && FilterInside(size, offset, filter) ==>
              memory[..] == Overwritten(old(memory[..]), offset, FilterWritten(size, offset, filter))
  {
    hide Fitted, Overwritten, WithFormatted, WithQuoted, FormatRange, EscapeRange, EscapedLength, Touched;
    hide FilterWritten, Wrapped;
    ghost var before := memory[..];
    FilteredElsewhere(before, size, offset, filter);
    if filter.value == "" {
      return offset;
    }
    if FilterInside(size, offset, filter) {
      FilteredInside(before, size, offset, filter);
    }
    RangesReached(memory.Length, size, offset, filter);
    var written := Format(memory, size, offset, filter.prefix);
    end := AppendQuoted(memory, size, offset + written, filter.value);
  }

  lemma FormattedElsewhere(memory: string, size: nat, offset: nat, text: string, k: nat)
    requires FormatRange(size, offset, |text|).until <= |memory| && k < |memory|
    requires !(offset <= k < FormatRange(size, offset, |text|).until)
    ensures WithFormatted(memory, size, offset, text)[k] == memory[k]
  {
    hide Overwritten, Wrapped;
    var remaining := Wrapped(size - offset);
    if remaining > 0 {
      OverwrittenElsewhere(memory, offset, FormattedText(text, remaining), k);
    }
  }

  lemma QuotedElsewhere(memory: string, size: nat, start: nat, value: string, k: nat)
    requires EscapeRange(size, start, value).until <= |memory| && k < |memory|
    requires var quote := FormatRange(size, start + EscapedLength(size, start, value), 1);
             quote.until <= |memory| && !(quote.from <= k < quote.until)
    requires !(start <= k < EscapeRange(size, start, value).until)
    ensures WithQuoted(memory, size, start, value)[k] == memory[k]
  {
    hide Overwritten, WithFormatted, Fitted, Wrapped;
    var text := Fitted(value, Wrapped(Wrapped(size - start) - 1));
    OverwrittenElsewhere(memory, start, text + "\0", k);
    FormattedElsewhere(Overwritten(memory, start, text + "\0"), size, start + |text|, "'", k);
  }

  lemma FilteredElsewhere(memory: string, size: nat, offset: nat, filter: Filter)
    requires MemoryHolds(|memory|, size, offset, filter)
    ensures forall k :: 0 <= k < |memory| && !Touched(FilterRanges(size, offset, filter), k) ==>
              WithFiltered(memory, size, offset, filter)[k] == memory[k]
  {
    hide WithFormatted, WithQuoted, Wrapped, EscapedLength;
    if filter.value != "" {
      var start := offset + |filter.prefix|;
      RangesReached(|memory|, size, offset, filter);
      forall k | 0 <= k < |memory| && !Touched(FilterRanges(size, offset, filter), k)
        ensures WithFiltered(memory, size, offset, filter)[k] == memory[k]
      {
        NoneTouched(size, offset, filter, k);
        FormattedElsewhere(memory, size, offset, filter.prefix, k);
        QuotedElsewhere(WithFormatted(memory, size, offset, filter.prefix), size, start, filter.value, k);
      }
    }
  }

  lemma NoneTouched(size: nat, offset: nat, filter: Filter, k: nat)
    requires filter.value != "" && !Touched(FilterRanges(size, offset, filter), k)
    ensures var start := offset + |filter.prefix|;
            var quote := FormatRange(size, start + EscapedLength(size, start, filter.value), 1);
            && !(offset <= k < FormatRange(size, offset, |filter.prefix|).until)
            && !(start <= k < EscapeRange(size, start, filter.value).until) && !(quote.from <= k < quote.until)
  {
    hide EscapedLength, Wrapped;
    var ranges := FilterRanges(size, offset, filter);
    assert ranges[0] in ranges && ranges[1] in ranges && ranges[2] in ranges;
  }

  // Where the literal finds room, the value and the quote are one stretch.
  lemma QuotedInside(memory: string, size: nat, start: nat, value: string)
    requires start < size < WORD && size <= |memory|
    requires EscapeRange(size, start, value).until <= |memory|
    requires FormatRange(size, start + EscapedLength(size, start, value), 1).until <= |memory|
    ensures var text := Fitted(value, size - start - 1);
            && start + |text| < size
            && WithQuoted(memory, size, start, value)
               == Overwritten(memory, start, text + if start + |text| + 1 < size then "'\0" else "\0")
  {
    hide Fitted, Overwritten;
    var text := Fitted(value, size - start - 1);
    FittedFits(value, size - start - 1);
    assert Wrapped(Wrapped(size - start) - 1) == size - start - 1;
    var remaining := size - start - |text|;
    assert Wrapped(remaining) == remaining > 0;
    assert FormattedText("'", remaining) == if remaining > 1 then "'\0" else "\0";
    OverwrittenTwice(memory, start, text, if remaining > 1 then "'\0" else "\0");
  }

  lemma FilteredInside(memory: string, size: nat, offset: nat, filter: Filter)
    requires MemoryHolds(|memory|, size, offset, filter) && size <= |memory| && size < WORD
    requires FilterInside(size, offset, filter) && filter.value != ""
    ensures WithFiltered(memory, size, offset, filter)
            == Overwritten(memory, offset, FilterWritten(size, offset, filter))
  {
    hide Fitted, Overwritten, WithQuoted, EscapedLength, EscapeRange, FilterEnd;
    var start := offset + |filter.prefix|;
    RangesReached(|memory|, size, offset, filter);
    FilterEnds(size, offset, filter);
    assert WithFormatted(memory, size, offset, filter.prefix) == Overwritten(memory, offset, filter.prefix + "\0");
    QuotedInside(Overwritten(memory, offset, filter.prefix + "\0"), size, start, filter.value);
    var text := Fitted(filter.value, size - start - 1);
    OverwrittenTwice(memory, offset, filter.prefix, text + if start + |text| + 1 < size then "'\0" else "\0");
  }

  // What a filter writes: the whole clause, or as much as fits without its closing quote.
  function FilterWritten(size: nat, offset: nat, filter: Filter): (text: string)
    requires FilterInside(size, offset, filter) && filter.value != ""
    ensures offset + |text| <= size
    ensures offset + |FilterText(filter)| < size ==> text == FilterText(filter) + "\0"
  {
    var room := size - offset - |filter.prefix| - 1;
    FittedFits(filter.value, room);
    CutOffEnds(size, offset, filter);
    filter.prefix + (Fitted(filter.value, room) + if FilterEnd(size, offset, filter) < size then "'\0" else "\0")
  }

  lemma FilterEnds(size: nat, offset: nat, filter: Filter)
    requires FilterInside(size, offset, filter)
    ensures filter.value == "" ==> FilterEnd(size, offset, filter) == offset
    ensures filter.value != "" ==>
              var text := Fitted(filter.value, size - offset - |filter.prefix| - 1);
              FilterEnd(size, offset, filter) == offset + |filter.prefix| + |text| + 1 <= size
  {
    hide Fitted;
    if filter.value != "" {
      FittedFits(filter.value, size - offset - |filter.prefix| - 1);
    }
  }

  // ---- Measuring ----

  // The characters of a literal whose opening quote is just before `s`, and the text they took.
  function MeasureBody(s: string): (m: (nat, nat))
    ensures m.1 <= |s|
  {
    if s == "" then (0, 0)
    else if s[0] == QUOTE && !(|s| > 1 && s[1] == QUOTE) then (0, 1)
    else
      var width := if s[0] == QUOTE then 2 else 1;
      var (count, taken) := MeasureBody(s[width..]);
      (count + 1, taken + width)
  }

  method MeasureStringLiteral(sql: string, start: nat) returns (count: nat, end: nat)
    requires start < |sql|
    ensures (count, end - start - 1) == MeasureBody(sql[start + 1..])
    ensures start < end <= |sql|
  {
    hide MeasureBody;
    count := 0;
    end := start + 1;
    ghost var whole := MeasureBody(sql[start + 1..]);
    while end < |sql|
      invariant start < end <= |sql|
      invariant whole.0 == count + MeasureBody(sql[end..]).0
      invariant whole.1 == end - start - 1 + MeasureBody(sql[end..]).1
    {
      MeasureHere(sql, end);
      if sql[end] == QUOTE && end + 1 < |sql| && sql[end + 1] == QUOTE {
        count := count + 1;
        end := end + 2;
      } else if sql[end] == QUOTE {
        end := end + 1;
        break;
      } else {
        count := count + 1;
        end := end + 1;
      }
    }
    MeasureHere(sql, end);
  }

  lemma MeasureHere(sql: string, end: nat)
    requires end <= |sql|
    ensures MeasureBody(sql[end..]) ==
            if end == |sql| then (0, 0)
            else if sql[end] == QUOTE && !(end + 1 < |sql| && sql[end + 1] == QUOTE) then (0, 1)
            else
              var width := if sql[end] == QUOTE then 2 else 1;
              (MeasureBody(sql[end + width..]).0 + 1, MeasureBody(sql[end + width..]).1 + width)
  {
    if end < |sql| {
      assert sql[end..][1..] == sql[end + 1..];
      if end + 1 < |sql| {
        assert sql[end..][2..] == sql[end + 2..];
      }
    }
  }

  /**
   Measuring a written literal gives the length of the value and stops behind the closing quote,
   if and only if the text behind does not go on with a quote.
   */
  lemma {:induction false} MeasureAfterDoubling(value: string, tail: string)
    ensures MeasureBody(Doubled(value) + "'" + tail) == (|value|, |Doubled(value)| + 1)
            <==> (tail == "" || tail[0] != QUOTE)
  {
    var s := Doubled(value) + "'" + tail;
    if value == "" {
      assert s == "'" + tail;
    } else {
      var width := if value[0] == QUOTE then 2 else 1;
      assert s[width..] == Doubled(value[1..]) + "'" + tail;
      MeasureAfterDoubling(value[1..], tail);
    }
  }
}

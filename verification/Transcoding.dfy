/**
 UTF-8 as the driver decodes and encodes it, byte by byte, and the well-formed UTF-8 of section 4
 of RFC 3629. UTF-16 units are those of section 2 of RFC 2781.
 */
module Utf {
  import opened Octets

  type Unit = x: int | 0 <= x < 0x1_0000

  const SUPPLEMENTARY_BASE := 0x1_0000

  predicate High(u: Unit) {
    0xD800 <= u < 0xDC00
  }

  predicate Low(u: Unit) {
    0xDC00 <= u <= 0xDFFF
  }

  // ---- Decoding, lenient on malformed bytes ----

  // Continuation and invalid lead bytes count as sequences of their own.
  function SequenceLength(lead: Byte): (length: nat)
    ensures 1 <= length <= 4
  {
    if lead < 0x80 then 1
    else if 0xC0 <= lead < 0xE0 then 2
    else if 0xE0 <= lead < 0xF0 then 3
    else if 0xF0 <= lead < 0xF8 then 4
    else 1
  }

  // The payload bits of a lead byte.
  function LeadBits(lead: Byte): nat {
    if SequenceLength(lead) == 1 then lead
    else if SequenceLength(lead) == 2 then lead % 0x20
    else if SequenceLength(lead) == 3 then lead % 0x10
    else lead % 0x08
  }

  // Folds the six low bits of `count` continuation bytes into the code point.
  function Fold(codePoint: nat, s: seq<Byte>, from: nat, count: nat): nat
    requires from + count <= |s|
    decreases count
  {
    if count == 0 then codePoint else Fold(codePoint * 64 + s[from] % 64, s, from + 1, count - 1)
  }

  // A sequence that runs past the end yields its lead byte alone.
  function Consumed(s: seq<Byte>): (n: nat)
    requires s != []
    ensures 1 <= n <= |s|
  {
    if SequenceLength(s[0]) > |s| then 1 else SequenceLength(s[0])
  }

  function CodePoint(s: seq<Byte>): nat
    requires s != []
  {
    if SequenceLength(s[0]) > |s| then s[0] else Fold(LeadBits(s[0]), s, 1, SequenceLength(s[0]) - 1)
  }

  function Units(codePoint: nat): (units: seq<Unit>)
    requires codePoint < 0x20_0000
    ensures 1 <= |units| <= 2
  {
    if codePoint >= SUPPLEMENTARY_BASE then
      [0xD800 + (codePoint - SUPPLEMENTARY_BASE) / 1024, 0xDC00 + (codePoint - SUPPLEMENTARY_BASE) % 1024]
    else [codePoint]
  }

  lemma CodePointBound(s: seq<Byte>)
    requires s != []
    ensures CodePoint(s) < 0x20_0000
    ensures CodePoint(s) >= SUPPLEMENTARY_BASE ==> Consumed(s) == 4
  {
  }

  function Decode(s: seq<Byte>): (units: seq<Unit>)
    decreases |s|
  {
    if s == [] then []
    else
      CodePointBound(s);
      Units(CodePoint(s)) + Decode(s[Consumed(s)..])
  }

  // ---- Encoding ----

  predicate PairAt(units: seq<Unit>, i: nat) {
    i + 1 < |units| && High(units[i]) && Low(units[i + 1])
  }

  function Joined(high: Unit, low: Unit): (codePoint: nat)
    requires High(high) && Low(low)
    ensures SUPPLEMENTARY_BASE <= codePoint < 0x11_0000
  {
    SUPPLEMENTARY_BASE + (high - 0xD800) * 1024 + (low - 0xDC00)
  }

  function Bytes(codePoint: nat): (bytes: seq<Byte>)
    requires codePoint < 0x11_0000
    ensures 1 <= |bytes| <= 4
  {
    if codePoint < 0x80 then [codePoint]
    else if codePoint < 0x800 then [0xC0 + codePoint / 64, 0x80 + codePoint % 64]
    else if codePoint < SUPPLEMENTARY_BASE then
      [0xE0 + codePoint / 4096, 0x80 + codePoint / 64 % 64, 0x80 + codePoint % 64]
    else
      [0xF0 + codePoint / 262144, 0x80 + codePoint / 4096 % 64, 0x80 + codePoint / 64 % 64, 0x80 + codePoint % 64]
  }

  function Encode(units: seq<Unit>): seq<Byte>
    decreases |units|
  {
    if units == [] then []
    else if PairAt(units, 0) then Bytes(Joined(units[0], units[1])) + Encode(units[2..])
    else Bytes(units[0]) + Encode(units[1..])
  }

  // ---- UTF-16 survives ----

  // The code point of a complete sequence, written out.
  lemma CodePointOf(s: seq<Byte>)
    requires s != [] && SequenceLength(s[0]) <= |s|
    ensures SequenceLength(s[0]) == 1 ==> CodePoint(s) == s[0]
    ensures SequenceLength(s[0]) == 2 ==> CodePoint(s) == LeadBits(s[0]) * 64 + s[1] % 64
    ensures SequenceLength(s[0]) == 3 ==> CodePoint(s) == (LeadBits(s[0]) * 64 + s[1] % 64) * 64 + s[2] % 64
    ensures SequenceLength(s[0]) == 4 ==>
              CodePoint(s) == ((LeadBits(s[0]) * 64 + s[1] % 64) * 64 + s[2] % 64) * 64 + s[3] % 64
  {
    var c: nat := LeadBits(s[0]);
    if SequenceLength(s[0]) == 2 {
      assert CodePoint(s) == Fold(c, s, 1, 1);
    } else if SequenceLength(s[0]) == 3 {
      assert CodePoint(s) == Fold(c, s, 1, 2) == Fold(c * 64 + s[1] % 64, s, 2, 1);
    } else if SequenceLength(s[0]) == 4 {
      assert CodePoint(s) == Fold(c, s, 1, 3) == Fold(c * 64 + s[1] % 64, s, 2, 2);
      assert CodePoint(s) == Fold((c * 64 + s[1] % 64) * 64 + s[2] % 64, s, 3, 1);
    }
  }

  lemma SixBitGroups(codePoint: nat)
    ensures codePoint == codePoint / 64 * 64 + codePoint % 64
    ensures codePoint / 64 == codePoint / 4096 * 64 + codePoint / 64 % 64
    ensures codePoint / 4096 == codePoint / 262144 * 64 + codePoint / 4096 % 64
  {
  }

  lemma BytesDecodeShort(codePoint: nat, rest: seq<Byte>)
    requires codePoint < 0x800
    ensures Consumed(Bytes(codePoint) + rest) == |Bytes(codePoint)|
    ensures CodePoint(Bytes(codePoint) + rest) == codePoint
  {
    hide CodePoint;
    CodePointOf(Bytes(codePoint) + rest);
  }

  lemma BytesDecodeThree(codePoint: nat, rest: seq<Byte>)
    requires 0x800 <= codePoint < SUPPLEMENTARY_BASE
    ensures Consumed(Bytes(codePoint) + rest) == |Bytes(codePoint)|
    ensures CodePoint(Bytes(codePoint) + rest) == codePoint
  {
    hide CodePoint, SequenceLength, LeadBits;
    var s := Bytes(codePoint) + rest;
    var a, b, c := codePoint / 4096, codePoint / 64 % 64, codePoint % 64;
    assert s[0] == 0xE0 + a && s[1] == 0x80 + b && s[2] == 0x80 + c;
    PayloadBits(s);
    CodePointOf(s);
    SixBitGroups(codePoint);
  }

  lemma BytesDecodeFour(codePoint: nat, rest: seq<Byte>)
    requires SUPPLEMENTARY_BASE <= codePoint < 0x11_0000
    ensures Consumed(Bytes(codePoint) + rest) == |Bytes(codePoint)|
    ensures CodePoint(Bytes(codePoint) + rest) == codePoint
  {
    hide CodePoint, SequenceLength, LeadBits;
    var s := Bytes(codePoint) + rest;
    var a, b, c, d := codePoint / 262144, codePoint / 4096 % 64, codePoint / 64 % 64, codePoint % 64;
    assert s[0] == 0xF0 + a && s[1] == 0x80 + b && s[2] == 0x80 + c && s[3] == 0x80 + d;
    PayloadBits(s);
    CodePointOf(s);
    SixBitGroups(codePoint);
  }

  lemma BytesDecode(codePoint: nat, rest: seq<Byte>)
    requires codePoint < 0x11_0000
    ensures Consumed(Bytes(codePoint) + rest) == |Bytes(codePoint)|
    ensures CodePoint(Bytes(codePoint) + rest) == codePoint
  {
    hide Bytes, CodePoint, Consumed;
    if codePoint < 0x800 {
      BytesDecodeShort(codePoint, rest);
    } else if codePoint < SUPPLEMENTARY_BASE {
      BytesDecodeThree(codePoint, rest);
    } else {
      BytesDecodeFour(codePoint, rest);
    }
  }

  lemma DecodeBytes(codePoint: nat, rest: seq<Byte>)
    requires codePoint < 0x11_0000
    ensures Decode(Bytes(codePoint) + rest) == Units(codePoint) + Decode(rest)
  {
    hide Bytes, Consumed, CodePoint, Units;
    BytesDecode(codePoint, rest);
    assert (Bytes(codePoint) + rest)[|Bytes(codePoint)|..] == rest;
  }

  /** Every sequence of 16-bit units survives the trip through UTF-8, lone surrogates included. */
  lemma {:induction false} DecodeAfterEncode(units: seq<Unit>)
    ensures Decode(Encode(units)) == units
    decreases |units|
  {
    hide Bytes, Decode;
    if units == [] {
      DecodeNothing();
    } else if PairAt(units, 0) {
      DecodeAfterEncode(units[2..]);
      DecodeBytes(Joined(units[0], units[1]), Encode(units[2..]));
      assert Units(Joined(units[0], units[1])) == [units[0], units[1]];
    } else {
      DecodeAfterEncode(units[1..]);
      DecodeBytes(units[0], Encode(units[1..]));
    }
  }

  lemma DecodeNothing()
    ensures Decode([]) == []
  {
  }

  // ---- Well-formed UTF-8 survives ----

  predicate Tail(s: seq<Byte>, i: nat) {
    i < |s| && 0x80 <= s[i] <= 0xBF
  }

  // Length of the well-formed character at the front, or 0.
  function CharacterLength(s: seq<Byte>): (n: nat)
    ensures n <= |s|
  {
    if s == [] then 0
    else if s[0] <= 0x7F then 1
    else if 0xC2 <= s[0] <= 0xDF && Tail(s, 1) then 2
    else if || (s[0] == 0xE0 && Tail(s, 1) && 0xA0 <= s[1] && Tail(s, 2))
            || (0xE1 <= s[0] <= 0xEC && Tail(s, 1) && Tail(s, 2))
            || (s[0] == 0xED && Tail(s, 1) && s[1] <= 0x9F && Tail(s, 2))
            || (0xEE <= s[0] <= 0xEF && Tail(s, 1) && Tail(s, 2)) then 3
    else if || (s[0] == 0xF0 && Tail(s, 1) && 0x90 <= s[1] && Tail(s, 2) && Tail(s, 3))
            || (0xF1 <= s[0] <= 0xF3 && Tail(s, 1) && Tail(s, 2) && Tail(s, 3))
            || (s[0] == 0xF4 && Tail(s, 1) && s[1] <= 0x8F && Tail(s, 2) && Tail(s, 3)) then 4
    else 0
  }

  predicate WellFormed(s: seq<Byte>)
    decreases |s|
  {
    s == [] || (CharacterLength(s) > 0 && WellFormed(s[CharacterLength(s)..]))
  }

  predicate ScalarValue(codePoint: nat) {
    codePoint < 0xD800 || 0xDFFF < codePoint < 0x11_0000
  }

  // The code point that the bytes of a sequence stand for splits into those bytes again.
  lemma GroupsOfThree(a: nat, b: nat, c: nat)
    requires a < 16 && b < 64 && c < 64
    ensures var codePoint := (a * 64 + b) * 64 + c;
            codePoint / 4096 == a && codePoint / 64 % 64 == b && codePoint % 64 == c
  {
    assert ((a * 64 + b) * 64 + c) / 64 == a * 64 + b;
  }

  lemma GroupsOfFour(a: nat, b: nat, c: nat, d: nat)
    requires a < 8 && b < 64 && c < 64 && d < 64
    ensures var codePoint := ((a * 64 + b) * 64 + c) * 64 + d;
            && codePoint / 262144 == a && codePoint / 4096 % 64 == b
            && codePoint / 64 % 64 == c && codePoint % 64 == d
  {
    var codePoint := ((a * 64 + b) * 64 + c) * 64 + d;
    assert codePoint / 64 == (a * 64 + b) * 64 + c;
    assert codePoint / 4096 == a * 64 + b;
  }

  lemma CharacterShape(s: seq<Byte>)
    requires CharacterLength(s) >= 3
    ensures CharacterLength(s) == 3 ==>
              0xE0 <= s[0] <= 0xEF && (s[0] == 0xE0 ==> 0xA0 <= s[1]) && (s[0] == 0xED ==> s[1] <= 0x9F)
    ensures CharacterLength(s) == 4 ==>
              0xF0 <= s[0] <= 0xF4 && (s[0] == 0xF0 ==> 0x90 <= s[1]) && (s[0] == 0xF4 ==> s[1] <= 0x8F)
    ensures forall k :: 1 <= k < CharacterLength(s) ==> 0x80 <= s[k] <= 0xBF
    ensures CharacterLength(s) <= 4
  {
  }

  lemma PayloadBits(s: seq<Byte>)
    requires s != []
    ensures 0xE0 <= s[0] <= 0xEF ==> SequenceLength(s[0]) == 3 && LeadBits(s[0]) == s[0] - 0xE0
    ensures 0xF0 <= s[0] <= 0xF4 ==> SequenceLength(s[0]) == 4 && LeadBits(s[0]) == s[0] - 0xF0
    ensures forall k :: 0 <= k < |s| && 0x80 <= s[k] <= 0xBF ==> s[k] % 64 == s[k] - 0x80
  {
  }

  lemma CharacterOfThree(s: seq<Byte>)
    requires CharacterLength(s) == 3
    ensures Consumed(s) == 3 && ScalarValue(CodePoint(s)) && Bytes(CodePoint(s)) == s[..3]
  {
    hide CodePoint, CharacterLength, SequenceLength, LeadBits;
    CharacterShape(s);
    PayloadBits(s);
    CodePointOf(s);
    GroupsOfThree(s[0] - 0xE0, s[1] - 0x80, s[2] - 0x80);
  }

  lemma CharacterOfFour(s: seq<Byte>)
    requires CharacterLength(s) == 4
    ensures Consumed(s) == 4 && ScalarValue(CodePoint(s)) && Bytes(CodePoint(s)) == s[..4]
  {
    hide CodePoint, CharacterLength, SequenceLength, LeadBits;
    CharacterShape(s);
    PayloadBits(s);
    CodePointOf(s);
    GroupsOfFour(s[0] - 0xF0, s[1] - 0x80, s[2] - 0x80, s[3] - 0x80);
  }

  lemma CharacterShort(s: seq<Byte>)
    requires 1 <= CharacterLength(s) <= 2
    ensures Consumed(s) == CharacterLength(s) && ScalarValue(CodePoint(s))
    ensures Bytes(CodePoint(s)) == s[..CharacterLength(s)]
  {
    hide CodePoint;
    CodePointOf(s);
  }

  lemma CharacterDecodes(s: seq<Byte>)
    requires CharacterLength(s) > 0
    ensures Consumed(s) == CharacterLength(s) && ScalarValue(CodePoint(s))
    ensures Bytes(CodePoint(s)) == s[..CharacterLength(s)]
  {
    hide CodePoint, Consumed, Bytes;
    if CharacterLength(s) <= 2 {
      CharacterShort(s);
    } else if CharacterLength(s) == 3 {
      CharacterOfThree(s);
    } else {
      CharacterOfFour(s);
    }
  }

  lemma EncodeUnits(codePoint: nat, rest: seq<Unit>)
    requires ScalarValue(codePoint)
    ensures Encode(Units(codePoint) + rest) == Bytes(codePoint) + Encode(rest)
  {
    hide Bytes;
    var units := Units(codePoint) + rest;
    if codePoint >= SUPPLEMENTARY_BASE {
      assert PairAt(units, 0) && Joined(units[0], units[1]) == codePoint && units[2..] == rest;
    } else {
      assert !PairAt(units, 0) && units[1..] == rest;
    }
  }

  /** Every well-formed UTF-8 string survives the trip through UTF-16. */
  lemma {:induction false} EncodeAfterDecode(s: seq<Byte>)
    requires WellFormed(s)
    ensures Encode(Decode(s)) == s
    decreases |s|
  {
    hide CharacterLength, Bytes, Units, CodePoint, Consumed, Encode;
    if s == [] {
      EncodeNothing();
    } else {
      var rest := s[CharacterLength(s)..];
      CharacterDecodes(s);
      EncodeAfterDecode(rest);
      EncodeUnits(CodePoint(s), Decode(rest));
    }
  }

  lemma EncodeNothing()
    ensures Encode([]) == []
  {
  }

  // ---- What is decoded from any bytes ----

  function SixBits(b: Byte): nat {
    b % 64
  }

  lemma HeadPayload(s: seq<Byte>)
    requires s != []
    ensures var b: int := s[0];
            && (0xC0 <= b < 0xE0 && |s| >= 2 ==> Consumed(s) == 2 && CodePoint(s) == (b - 0xC0) * 64 + SixBits(s[1]))
            && (0xE0 <= b < 0xF0 && |s| >= 3 ==>
                  Consumed(s) == 3 && CodePoint(s) == ((b - 0xE0) * 64 + SixBits(s[1])) * 64 + SixBits(s[2]))
            && (0xF0 <= b < 0xF8 && |s| >= 4 ==>
                  && Consumed(s) == 4
                  && CodePoint(s) == (((b - 0xF0) * 64 + SixBits(s[1])) * 64 + SixBits(s[2])) * 64 + SixBits(s[3]))
  {
    hide CodePoint, LeadBits, SequenceLength, Consumed;
    HeadClass(s);
    if SequenceLength(s[0]) <= |s| {
      CodePointOf(s);
    }
  }

  lemma HeadClass(s: seq<Byte>)
    requires s != []
    ensures 0xC0 <= s[0] < 0xE0 ==> SequenceLength(s[0]) == 2 && LeadBits(s[0]) == s[0] - 0xC0
    ensures 0xE0 <= s[0] < 0xF0 ==> SequenceLength(s[0]) == 3 && LeadBits(s[0]) == s[0] - 0xE0
    ensures 0xF0 <= s[0] < 0xF8 ==> SequenceLength(s[0]) == 4 && LeadBits(s[0]) == s[0] - 0xF0
    ensures SequenceLength(s[0]) <= |s| ==> Consumed(s) == SequenceLength(s[0])
  {
  }

  lemma DecodeStep(s: seq<Byte>)
    requires s != []
    ensures CodePoint(s) < 0x20_0000 && (CodePoint(s) >= SUPPLEMENTARY_BASE ==> Consumed(s) == 4)
    ensures Decode(s) == Units(CodePoint(s)) + Decode(s[Consumed(s)..])
  {
    CodePointBound(s);
  }

  /**
   What any bytes decode to, from the front: a lead byte and the bytes that it asks for give one code
   point, whatever these bytes are.
   */
  lemma HeadDecodes(s: seq<Byte>, length: nat, codePoint: nat)
    requires 1 < length <= |s| && codePoint < 0x20_0000
    requires var b: int := s[0];
             match length
             case 2 => 0xC0 <= b < 0xE0 && codePoint == (b - 0xC0) * 64 + SixBits(s[1])
             case 3 => 0xE0 <= b < 0xF0 && codePoint == ((b - 0xE0) * 64 + SixBits(s[1])) * 64 + SixBits(s[2])
             case _ =>
               && length == 4 && 0xF0 <= b < 0xF8
               && codePoint == (((b - 0xF0) * 64 + SixBits(s[1])) * 64 + SixBits(s[2])) * 64 + SixBits(s[3])
    ensures Decode(s) == Units(codePoint) + Decode(s[length..])
  {
    hide CodePoint, Consumed, Units, Decode, SixBits;
    HeadPayload(s);
    DecodeStep(s);
  }

  /** A byte that leads nothing, or that leads more than is left, stands for the unit of its own value. */
  lemma OwnValueDecodes(s: seq<Byte>)
    requires s != []
    requires var b := s[0];
             b < 0xC0 || b >= 0xF8 || |s| < (if b < 0xE0 then 2 else if b < 0xF0 then 3 else 4)
    ensures Decode(s) == [s[0]] + Decode(s[1..])
  {
    OwnValue(s);
    hide Decode, CodePoint, Consumed, Units, SequenceLength;
    DecodeStep(s);
  }

  lemma OwnValue(s: seq<Byte>)
    requires s != [] && (SequenceLength(s[0]) == 1 || |s| < SequenceLength(s[0]))
    ensures CodePoint(s) == s[0] && Consumed(s) == 1 && Units(s[0]) == [s[0]]
  {
  }

  // ---- Which units encode to well-formed UTF-8 ----

  // No surrogate stands alone.
  predicate Paired(units: seq<Unit>)
    decreases |units|
  {
    units == [] ||
    (if PairAt(units, 0) then Paired(units[2..]) else !High(units[0]) && !Low(units[0]) && Paired(units[1..]))
  }

  lemma ScalarIsCharacter(codePoint: nat, rest: seq<Byte>)
    requires codePoint < 0x11_0000
    ensures CharacterLength(Bytes(codePoint) + rest) == if ScalarValue(codePoint) then |Bytes(codePoint)| else 0
  {
    hide CharacterLength;
    if codePoint < 0x800 {
      ShortIsCharacter(codePoint, rest);
    } else if codePoint < SUPPLEMENTARY_BASE {
      ThreeIsCharacter(codePoint, rest);
    } else {
      FourIsCharacter(codePoint, rest);
    }
  }

  lemma ShortIsCharacter(codePoint: nat, rest: seq<Byte>)
    requires codePoint < 0x800
    ensures CharacterLength(Bytes(codePoint) + rest) == |Bytes(codePoint)|
  {
  }

  lemma ThreeIsCharacter(codePoint: nat, rest: seq<Byte>)
    requires 0x800 <= codePoint < SUPPLEMENTARY_BASE
    ensures CharacterLength(Bytes(codePoint) + rest) == if ScalarValue(codePoint) then 3 else 0
    ensures |Bytes(codePoint)| == 3
  {
    var s := Bytes(codePoint) + rest;
    assert s[0] == 0xE0 + codePoint / 4096 && s[1] == 0x80 + codePoint / 64 % 64 && s[2] == 0x80 + codePoint % 64;
    hide Bytes;
    SixBitGroups(codePoint);
  }

  lemma FourIsCharacter(codePoint: nat, rest: seq<Byte>)
    requires SUPPLEMENTARY_BASE <= codePoint < 0x11_0000
    ensures CharacterLength(Bytes(codePoint) + rest) == 4 == |Bytes(codePoint)|
  {
    var s := Bytes(codePoint) + rest;
    assert s[0] == 0xF0 + codePoint / 262144 && s[1] == 0x80 + codePoint / 4096 % 64;
    assert s[2] == 0x80 + codePoint / 64 % 64 && s[3] == 0x80 + codePoint % 64;
    hide Bytes;
    SixBitGroups(codePoint);
  }

  /** Text encodes to well-formed UTF-8 exactly when no surrogate in it stands alone. */
  lemma {:induction false} EncodedIsWellFormed(units: seq<Unit>)
    ensures WellFormed(Encode(units)) <==> Paired(units)
    decreases |units|
  {
    hide Bytes, CharacterLength;
    if units != [] {
      var pair := PairAt(units, 0);
      var codePoint, rest := if pair then Joined(units[0], units[1]) else units[0], units[if pair then 2 else 1..];
      var text := Bytes(codePoint) + Encode(rest);
      assert Encode(units) == text;
      ScalarIsCharacter(codePoint, Encode(rest));
      assert text[|Bytes(codePoint)|..] == Encode(rest);
      EncodedIsWellFormed(rest);
    }
  }

  // ---- Truncation to a buffer ----

  // A cut between the halves of a surrogate pair.
  predicate SplitsPair(units: seq<Unit>, k: nat) {
    k > 0 && PairAt(units, k - 1)
  }

  // How many units are copied when only `room` fit.
  function CopyCount(units: seq<Unit>, room: nat): (k: nat)
    ensures k <= |units| && k <= room
  {
    if |units| <= room then |units|
    else if room > 0 && High(units[room - 1]) then room - 1
    else room
  }

  /** Text that fits is copied whole, whatever it ends in. */
  lemma FittingIsCopied(units: seq<Unit>, room: nat)
    ensures CopyCount(units, room) == |units| <==> |units| <= room
    ensures |units| > room ==> CopyCount(units, room) in {room - 1, room}
  {
  }

  // In decoded well-formed text every high surrogate is followed by its low half.
  lemma {:induction false} HighsArePaired(s: seq<Byte>, i: nat)
    requires WellFormed(s) && i < |Decode(s)| && High(Decode(s)[i])
    ensures PairAt(Decode(s), i)
    decreases |s|
  {
    hide CharacterLength, Bytes, CodePoint, Consumed;
    CharacterDecodes(s);
    var first, rest := Units(CodePoint(s)), s[CharacterLength(s)..];
    assert Decode(s) == first + Decode(rest);
    if i >= |first| {
      HighsArePaired(rest, i - |first|);
    }
  }

  // A cut that splits no pair falls between two characters of the source.
  lemma {:induction false} CutIsBoundary(s: seq<Byte>, k: nat) returns (boundary: nat)
    requires WellFormed(s) && k <= |Decode(s)| && !SplitsPair(Decode(s), k)
    ensures boundary <= |s| && WellFormed(s[..boundary]) && Decode(s[..boundary]) == Decode(s)[..k]
    decreases |s|
  {
    hide CharacterLength, Bytes, CodePoint, Consumed, Units, SplitsPair, Decode, WellFormed;
    if k == 0 {
      boundary := 0;
      DecodeNothing();
      NothingWellFormed();
    } else {
      FirstDecodes(s);
      var length, rest := CharacterLength(s), s[CharacterLength(s)..];
      var first := Units(CodePoint(s));
      CutBehindFirst(CodePoint(s), Decode(rest), k);
      var b := CutIsBoundary(rest, k - |first|);
      boundary := length + b;
      CharacterPrepended(s, b);
    }
  }

  lemma NothingWellFormed()
    ensures WellFormed([])
  {
  }

  lemma FirstDecodes(s: seq<Byte>)
    requires WellFormed(s) && Decode(s) != []
    ensures 0 < CharacterLength(s) <= |s| && WellFormed(s[CharacterLength(s)..]) && ScalarValue(CodePoint(s))
    ensures Decode(s) == Units(CodePoint(s)) + Decode(s[CharacterLength(s)..])
  {
    hide CharacterLength, Bytes, CodePoint, Consumed, Units;
    CharacterDecodes(s);
  }

  // A cut behind the first units that splits no pair splits none of those that follow either.
  lemma CutBehindFirst(codePoint: nat, rest: seq<Unit>, k: nat)
    requires ScalarValue(codePoint) && 0 < k <= |Units(codePoint) + rest| && !SplitsPair(Units(codePoint) + rest, k)
    ensures |Units(codePoint)| <= k
    ensures var behind := k - |Units(codePoint)|;
            !SplitsPair(rest, behind) && (Units(codePoint) + rest)[..k] == Units(codePoint) + rest[..behind]
  {
    var first := Units(codePoint);
    assert forall j :: 0 <= j < |rest| ==> (first + rest)[j + |first|] == rest[j];
  }

  lemma CharacterLengthPrefix(s: seq<Byte>, n: nat)
    requires 0 < CharacterLength(s) <= n <= |s|
    ensures CharacterLength(s[..n]) == CharacterLength(s)
  {
  }

  lemma CharacterPrepended(s: seq<Byte>, b: nat)
    requires 0 < CharacterLength(s) <= CharacterLength(s) + b <= |s| && WellFormed(s[CharacterLength(s)..][..b])
    ensures var n := CharacterLength(s);
            && WellFormed(s[..n + b])
            && Decode(s[..n + b]) == Units(CodePoint(s)) + Decode(s[n..][..b])
  {
    hide CharacterLength, Bytes, CodePoint, Consumed;
    var n := CharacterLength(s);
    CharacterLengthPrefix(s, n + b);
    CharacterDecodes(s);
    CharacterDecodes(s[..n + b]);
    assert s[..n + b][..n] == s[..n] && s[..n + b][n..] == s[n..][..b];
    BytesDecode(CodePoint(s), []);
    BytesDecode(CodePoint(s[..n + b]), []);
  }

  /**
   Truncated wide text ends on a character boundary: for well-formed source text the copied units
   are the longest prefix that fits without splitting a surrogate pair, and they transcode back
   to a prefix of the source.
   */
  lemma TruncationKeepsCharacters(s: seq<Byte>, room: nat)
    requires WellFormed(s)
    ensures var units := Decode(s);
            var k := CopyCount(units, room);
            && !SplitsPair(units, k)
            && (forall j :: 0 <= j <= |units| && j <= room && !SplitsPair(units, j) ==> j <= k)
            && Encode(units[..k]) <= s
  {
    hide CharacterLength, WellFormed, Decode;
    var units := Decode(s);
    var k := CopyCount(units, room);
    if k < |units| && k < room {
      HighsArePaired(s, k);
    }
    var boundary := CutIsBoundary(s, k);
    EncodeAfterDecode(s[..boundary]);
  }
}

/** The transcoding loops over allocated buffers. */
module TranscodingLoops {
  import opened Octets
  import opened Utf

  /**
   The buffer has one unit per input byte and one for a terminator: the writes below never need
   more, whatever the bytes are.
   */
  method Utf8ToUtf16(input: seq<Byte>) returns (units: array<Unit>, unitCount: nat)
    ensures fresh(units) && units.Length == |input| + 1
    ensures unitCount <= |input| && units[..unitCount] == Decode(input)
  {
    hide CodePoint, SequenceLength, Units, Decode;
    units := new Unit[|input| + 1](_ => 0);
    unitCount := 0;
    var position := 0;
    DecodeNothing();
    while position < |input|
      invariant 0 <= position <= |input| && unitCount <= position
      invariant units[..unitCount] + Decode(input[position..]) == Decode(input)
    {
      ghost var rest, sofar := input[position..], units[..unitCount];
      var length, codePoint := DecodeSequence(input, position);
      DecodeStep(rest);
      assert rest[length..] == input[position + length..];
      unitCount := PutUnits(units, unitCount, codePoint);
      assert sofar + (Units(codePoint) + Decode(rest[length..])) == (sofar + Units(codePoint)) + Decode(rest[length..]);
      position := position + length;
    }
    DecodeNothing();
  }

  // One unit, or a surrogate pair.
  method PutUnits(units: array<Unit>, unitCount: nat, codePoint: nat) returns (count: nat)
    requires codePoint < 0x20_0000
    requires unitCount + (if codePoint >= SUPPLEMENTARY_BASE then 2 else 1) <= units.Length
    modifies units
    ensures count == unitCount + if codePoint >= SUPPLEMENTARY_BASE then 2 else 1
    ensures units[..count] == old(units[..unitCount]) + Units(codePoint)
  {
    if codePoint >= SUPPLEMENTARY_BASE {
      units[unitCount] := 0xD800 + (codePoint - SUPPLEMENTARY_BASE) / 1024;
      units[unitCount + 1] := 0xDC00 + (codePoint - SUPPLEMENTARY_BASE) % 1024;
      count := unitCount + 2;
    } else {
      units[unitCount] := codePoint;
      count := unitCount + 1;
    }
  }

  method DecodeSequence(input: seq<Byte>, position: nat) returns (length: nat, codePoint: nat)
    requires position < |input|
    ensures length == Consumed(input[position..]) && codePoint == CodePoint(input[position..])
  {
    var lead := input[position];
    if lead < 0x80 {
      length, codePoint := 1, lead;
    } else if 0xC0 <= lead < 0xE0 {
      length, codePoint := 2, lead % 0x20;
    } else if 0xE0 <= lead < 0xF0 {
      length, codePoint := 3, lead % 0x10;
    } else if 0xF0 <= lead < 0xF8 {
      length, codePoint := 4, lead % 0x08;
    } else {
      length, codePoint := 1, lead;
    }
    if position + length > |input| {
      return 1, lead;
    }
    var offset := 1;
    ghost var s := input[position..];
    while offset < length
      invariant 1 <= offset <= length
      invariant Fold(codePoint, s, offset, length - offset) == CodePoint(s)
    {
      codePoint := codePoint * 64 + input[position + offset] % 64;
      offset := offset + 1;
    }
  }

  /** Four bytes per unit are always enough. */
  method Utf16ToUtf8(text: seq<Unit>) returns (utf8: array<Byte>, byteLength: nat)
    ensures fresh(utf8) && utf8.Length == 4 * |text| + 1
    ensures byteLength <= 4 * |text| && utf8[..byteLength] == Encode(text) && utf8[byteLength] == 0
  {
    hide Encode, Bytes;
    utf8 := new Byte[4 * |text| + 1](_ => 0);
    byteLength := 0;
    var index := 0;
    EncodeNothing();
    while index < |text|
      invariant 0 <= index <= |text| && byteLength <= 4 * index
      invariant utf8[..byteLength] + Encode(text[index..]) == Encode(text)
    {
      var codePoint, consumed := ReadCodePoint(text, index);
      byteLength := WriteCodePoint(utf8, byteLength, codePoint);
      index := index + consumed;
    }
    assert text[index..] == [] && utf8[..byteLength] + [] == utf8[..byteLength];
    utf8[byteLength] := 0;
  }

  lemma EncodeStep(units: seq<Unit>)
    requires units != []
    ensures PairAt(units, 0) ==> Encode(units) == Bytes(Joined(units[0], units[1])) + Encode(units[2..])
    ensures !PairAt(units, 0) ==> Encode(units) == Bytes(units[0]) + Encode(units[1..])
  {
  }

  // The code point at `index`, with the low half of a pair when there is one.
  method ReadCodePoint(text: seq<Unit>, index: nat) returns (codePoint: nat, consumed: nat)
    requires index < |text|
    ensures 1 <= consumed <= 2 && index + consumed <= |text| && codePoint < 0x11_0000
    ensures Encode(text[index..]) == Bytes(codePoint) + Encode(text[index + consumed..])
  {
    hide Encode, Bytes;
    EncodeStep(text[index..]);
    codePoint, consumed := text[index], 1;
    if High(text[index]) && index + 1 < |text| && Low(text[index + 1]) {
      codePoint, consumed := Joined(text[index], text[index + 1]), 2;
    }
    assert text[index..][consumed..] == text[index + consumed..];
  }

  method WriteCodePoint(utf8: array<Byte>, position: nat, codePoint: nat) returns (byteLength: nat)
    requires codePoint < 0x11_0000 && position + 4 <= utf8.Length
    modifies utf8
    ensures position < byteLength <= position + 4
    ensures utf8[..byteLength] == old(utf8[..position]) + Bytes(codePoint)
  {
    if codePoint < 0x80 {
      utf8[position] := codePoint;
      byteLength := position + 1;
    } else if codePoint < 0x800 {
      utf8[position] := 0xC0 + codePoint / 64;
      utf8[position + 1] := 0x80 + codePoint % 64;
      byteLength := position + 2;
    } else if codePoint < SUPPLEMENTARY_BASE {
      utf8[position] := 0xE0 + codePoint / 4096;
      utf8[position + 1] := 0x80 + codePoint / 64 % 64;
      utf8[position + 2] := 0x80 + codePoint % 64;
      byteLength := position + 3;
    } else {
      utf8[position] := 0xF0 + codePoint / 262144;
      utf8[position + 1] := 0x80 + codePoint / 4096 % 64;
      utf8[position + 2] := 0x80 + codePoint / 64 % 64;
      utf8[position + 3] := 0x80 + codePoint % 64;
      byteLength := position + 4;
    }
  }

  // ---- SQL_C_WCHAR ----

  // The units in memory, low byte first.
  function InMemory(units: seq<Unit>): (bytes: seq<Byte>)
    ensures |bytes| == 2 * |units|
  {
    if units == [] then [] else InMemory(units[..|units| - 1]) + [units[|units| - 1] % 256, units[|units| - 1] / 256]
  }

  // Each unit takes two bytes, the low one first.
  lemma {:induction false} InMemoryAt(units: seq<Unit>, k: nat)
    requires k < |units|
    ensures var low: nat, high: nat := InMemory(units)[2 * k], InMemory(units)[2 * k + 1]; low + 256 * high == units[k]
    decreases |units|
  {
    var last := |units| - 1;
    if k < last {
      InMemoryAt(units[..last], k);
    }
  }

  // As many units as there are pairs of bytes beside one for the terminator.
  lemma RoomIsLargest(bufferLength: nat, count: nat)
    ensures count <= Room(bufferLength) <==> count == 0 || 2 * count + 2 <= bufferLength
  {
  }

  /**
   Delivers wide text into a byte buffer: the units that fit beside the terminator, then as much
   of the terminator as there is room for. The full length is reported in any case.
   */
  method DeliverWideText(source: seq<Byte>, target: array<Byte>) returns (fullByteLength: nat, truncated: bool)
    modifies target
    ensures fullByteLength == 2 * |Decode(source)|
    ensures target.Length == 0 ==> !truncated
    ensures target.Length > 0 ==>
              var units := Decode(source);
              var copied := CopyCount(units, Room(target.Length));
              && (truncated <==> copied < |units| || target.Length < 2)
              && 2 * copied < target.Length
              && target[..2 * copied] == InMemory(units[..copied])
              && target[2 * copied] == 0 && (target.Length >= 2 ==> target[2 * copied + 1] == 0)
              && (forall k :: 2 * copied + 2 <= k < target.Length ==> target[k] == old(target[k]))
  {
    hide Decode;
    var units, unitCount := Utf8ToUtf16(source);
    fullByteLength := 2 * unitCount;
    if target.Length == 0 {
      return fullByteLength, false;
    }
    var room := Room(target.Length);
    var copied := if unitCount <= room then unitCount else room;
    if copied < unitCount && copied > 0 && High(units[copied - 1]) {
      copied := copied - 1;
    }
    assert copied == CopyCount(units[..unitCount], room);
    CopyUnits(units, copied, target);
    assert units[..copied] == Decode(source)[..copied];
    target[2 * copied] := 0;
    if target.Length >= 2 {
      target[2 * copied + 1] := 0;
    }
    truncated := copied < unitCount || target.Length < 2;
  }

  method CopyUnits(units: array<Unit>, count: nat, target: array<Byte>)
    requires count <= units.Length && 2 * count <= target.Length && (units as object) != target
    modifies target
    ensures target[..2 * count] == InMemory(units[..count])
    ensures forall j :: 2 * count <= j < target.Length ==> target[j] == old(target[j])
  {
    var k := 0;
    while k < count
      invariant 0 <= k <= count
      invariant target[..2 * k] == InMemory(units[..k])
      invariant forall j :: 2 * k <= j < target.Length ==> target[j] == old(target[j])
    {
      assert units[..k + 1][..k] == units[..k];
      target[2 * k], target[2 * k + 1] := units[k] % 256, units[k] / 256;
      k := k + 1;
    }
  }

  // One unit is kept for the terminator.
  function Room(bufferLength: nat): nat {
    if bufferLength < 2 then 0 else bufferLength / 2 - 1
  }
}

/** src/oatpp/encoding/Unicode.cpp. The source calls reading a code point from UTF-8 bytes "encode" and writing one
    "decode"; the names are kept. Bit fields are written as thresholds, quotients and remainders; `LeadByteForms`,
    `CodeForms` and `ByteForms` prove on bit-vectors that they are the shifts, masks and ors of the source. */
module Unicode {
  import opened Bytes

  type uint32 = c: int | 0 <= c < 0x1_0000_0000
  type uint16 = c: int | 0 <= c < 0x1_0000

  /** `getUtf8CharSequenceLength`: 0 for a byte that cannot start a sequence. */
  function SequenceLength(b: byte): nat {
    if b < 128 then 1
    else if b < 192 then 0
    else if b < 224 then 2
    else if b < 240 then 3
    else if b < 248 then 4
    else if b < 252 then 5
    else if b < 254 then 6
    else 0
  }

  function LengthForCode(code: uint32): nat {
    if code < 128 then 1
    else if code < 0x800 then 2
    else if code < 0x1_0000 then 3
    else if code < 0x20_0000 then 4
    else if code < 0x400_0000 then 5
    else 6
  }

  function Low6(b: int): (r: int)
    ensures 0 <= r < 64
  {
    b % 64
  }

  /** `x << bitIndex` for the bit indices the loop of encodeUtf8Char reaches. */
  function ShiftBy(x: int, bitIndex: nat): int {
    if bitIndex == 0 then x
    else if bitIndex == 6 then x * 0x40
    else if bitIndex == 12 then x * 0x1000
    else if bitIndex == 18 then x * 0x4_0000
    else x * 0x100_0000
  }

  /** The six-bit groups of the bytes from..length of the sequence at i, the last one lowest. */
  function TailCode(s: bytes, i: nat, from: nat, length: nat): int
    requires 1 <= from <= length && i + length <= |s|
    decreases length - from
  {
    if from == length then 0
    else TailCode(s, i, from + 1, length) + ShiftBy(Low6(s[i + from]), 6 * (length - 1 - from))
  }

  /** How many bytes encodeUtf8Char reads: its tests do not look at the second bit of the lead byte, so a stray byte
      counts like the lead byte with the same low bits. 0 is the error -1. */
  function ReadLength(b: byte): (n: nat)
    ensures SequenceLength(b) > 0 ==> n == SequenceLength(b)
  {
    if b < 128 then 1
    else if b % 64 < 32 then 2
    else if b % 64 < 48 then 3
    else if b % 64 < 56 then 4
    else if b % 64 < 60 then 5
    else if b % 64 < 62 then 6
    else 0
  }

  /** The code point of the sequence at position i of s. */
  function CodeOf(s: bytes, i: nat): (code: uint32)
    requires i < |s| && 0 < ReadLength(s[i]) && i + ReadLength(s[i]) <= |s|
  {
    var b: int := s[i];
    match ReadLength(s[i])
    case 1 => b
    case 2 => b % 32 * 0x40 + Low6(s[i + 1])
    case 3 => b % 16 * 0x1000 + Low6(s[i + 1]) * 0x40 + Low6(s[i + 2])
    case 4 => b % 8 * 0x4_0000 + Low6(s[i + 1]) * 0x1000 + Low6(s[i + 2]) * 0x40 + Low6(s[i + 3])
    case 5 =>
      b % 4 * 0x100_0000 + Low6(s[i + 1]) * 0x4_0000 + Low6(s[i + 2]) * 0x1000 + Low6(s[i + 3]) * 0x40 + Low6(s[i + 4])
    case _ =>
      b % 2 * 0x4000_0000 + Low6(s[i + 1]) * 0x100_0000 + Low6(s[i + 2]) * 0x4_0000 + Low6(s[i + 3]) * 0x1000
      + Low6(s[i + 4]) * 0x40 + Low6(s[i + 5])
  }

  /** The loop of encodeUtf8Char: add in the trailing bytes, last one first. */
  method CollectTail(s: bytes, i: nat, lead: int, length: nat) returns (code: int)
    requires 1 <= length && i + length <= |s|
    ensures code == lead + TailCode(s, i, 1, length)
  {
    code := lead;
    var bitIndex := 0;
    var k := length;
    while k > 1
      invariant 1 <= k <= length && bitIndex == 6 * (length - k)
      invariant code == lead + TailCode(s, i, k, length)
    {
      code := code + ShiftBy(Low6(s[i + k - 1]), bitIndex);
      bitIndex := bitIndex + 6;
      k := k - 1;
    }
  }

  /** The four-byte form: the source loads one little-endian word and takes it apart again. */
  method LoadFour(b0: int, b1: int, b2: int, b3: int) returns (code: int)
    requires 0 <= b0 < 256 && 0 <= b1 < 256 && 0 <= b2 < 256 && 0 <= b3 < 256
    ensures code == b0 % 8 * 0x4_0000 + Low6(b1) * 0x1000 + Low6(b2) * 0x40 + Low6(b3)
  {
    var value := b3 * 0x100_0000 + b2 * 0x1_0000 + b1 * 0x100 + b0;
    assert value / 0x100_0000 == b3 && value / 0x1_0000 == b3 * 0x100 + b2
           && value / 0x100 == b3 * 0x1_0000 + b2 * 0x100 + b1;
    var t3, t2, t1 := value / 0x100_0000 % 256, value / 0x1_0000 % 256, value / 0x100 % 256;
    assert t3 == b3 && t2 == b2 && t1 == b1;
    code := b0 % 8 * 0x4_0000 + Low6(t3) + Low6(t2) * 0x40 + Low6(t1) * 0x1000;
  }

  /** Where the source returns -1 it leaves the length as it was. */
  method EncodeUtf8Char(s: bytes, i: nat, length0: nat) returns (code: int, length: nat)
    requires i < |s| && i + ReadLength(s[i]) <= |s|
    ensures if ReadLength(s[i]) == 0 then code == -1 && length == length0
            else code == CodeOf(s, i) && length == ReadLength(s[i])
  {
    var b: int := s[i];
    var acc := b;
    length := length0;
    if b > 127 {
      if b % 64 < 32 {
        length := 2;
        acc := b % 32 * 0x40 + Low6(s[i + 1]);
      } else if b % 64 < 48 {
        length := 3;
        acc := CollectTail(s, i, b % 16 * 0x1000, 3);
        UnfoldTail(s, i, 3);
      } else if b % 64 < 56 {
        length := 4;
        acc := LoadFour(b, s[i + 1], s[i + 2], s[i + 3]);
      } else if b % 64 < 60 {
        length := 5;
        acc := CollectTail(s, i, b % 4 * 0x100_0000, 5);
        UnfoldTail(s, i, 5);
      } else if b % 64 < 62 {
        length := 6;
        acc := CollectTail(s, i, b % 2 * 0x4000_0000, 6);
        UnfoldTail(s, i, 6);
      } else {
        return -1, length0;
      }
    } else {
      length := 1;
    }
    code := acc;
  }

  lemma UnfoldTail(s: bytes, i: nat, length: nat)
    requires i + length <= |s| && (length == 3 || length == 5 || length == 6)
    ensures length == 3 ==> TailCode(s, i, 1, 3) == Low6(s[i + 1]) * 0x40 + Low6(s[i + 2])
    ensures length == 5 ==>
      TailCode(s, i, 1, 5) == Low6(s[i + 1]) * 0x4_0000 + Low6(s[i + 2]) * 0x1000 + Low6(s[i + 3]) * 0x40
        + Low6(s[i + 4])
    ensures length == 6 ==>
      TailCode(s, i, 1, 6) == Low6(s[i + 1]) * 0x100_0000 + Low6(s[i + 2]) * 0x4_0000 + Low6(s[i + 3]) * 0x1000
                              + Low6(s[i + 4]) * 0x40 + Low6(s[i + 5])
  {
  }

  /** The bytes of a code point, `decodeUtf8Char`. The six-byte form leaves its last byte unmarked, as the source
      does. */
  function BytesOf(code: uint32): (r: bytes)
    ensures |r| == LengthForCode(code)
  {
    if code < 0x80 then [code]
    else if code < 0x800 then
      [code / 0x40 % 32 + 192, Cont(code)]
    else if code < 0x1_0000 then
      [code / 0x1000 % 16 + 224, Cont(code / 0x40), Cont(code)]
    else if code < 0x20_0000 then
      [code / 0x4_0000 % 8 + 240, Cont(code / 0x1000), Cont(code / 0x40), Cont(code)]
    else if code < 0x400_0000 then
      [code / 0x100_0000 % 4 + 248, Cont(code / 0x4_0000), Cont(code / 0x1000), Cont(code / 0x40), Cont(code)]
    else
      [code / 0x4000_0000 % 2 + 252, Cont(code / 0x100_0000), Cont(code / 0x4_0000), Cont(code / 0x1000),
       Cont(code / 0x40), code % 64]
  }

  function Cont(x: int): byte {
    x % 64 + 128
  }

  /** t replaces what was in the buffer from pos on, and nothing else changed. */
  twostate predicate Wrote(buffer: array<byte>, pos: nat, t: bytes)
    reads buffer
  {
    && pos + |t| <= buffer.Length
    && (forall k :: 0 <= k < |t| ==> buffer[pos + k] == t[k])
    && (forall k :: 0 <= k < buffer.Length && !(pos <= k < pos + |t|) ==> buffer[k] == old(buffer[k]))
  }

  /** A 16-bit store of a value that `htons` put in network order. */
  method Store16(buffer: array<byte>, pos: nat, high: byte, low: byte)
    requires pos + 2 <= buffer.Length
    modifies buffer
    ensures Wrote(buffer, pos, [high, low])
  {
    var value: int := high * 0x100 + low;
    assert value / 0x100 == high && value % 0x100 == low;
    buffer[pos] := value / 0x100;
    buffer[pos + 1] := value % 0x100;
  }

  /** A 32-bit store of a value that `htonl` put in network order. */
  method Store32(buffer: array<byte>, pos: nat, b0: byte, b1: byte, b2: byte, b3: byte)
    requires pos + 4 <= buffer.Length
    modifies buffer
    ensures Wrote(buffer, pos, [b0, b1, b2, b3])
  {
    Store16(buffer, pos, b0, b1);
    assert buffer[pos] == [b0, b1][0] && buffer[pos + 1] == [b0, b1][1];
    Store16(buffer, pos + 2, b2, b3);
    assert buffer[pos + 2] == [b2, b3][0] && buffer[pos + 3] == [b2, b3][1];
  }

  method DecodeUtf8Char(code: uint32, buffer: array<byte>, pos: nat) returns (length: nat)
    requires pos + LengthForCode(code) <= buffer.Length
    modifies buffer
    ensures length == LengthForCode(code)
    ensures Wrote(buffer, pos, BytesOf(code))
  {
    if 0x80 <= code < 0x800 {
      Store16(buffer, pos, code / 0x40 % 32 + 192, Cont(code));
      return 2;
    } else if 0x800 <= code < 0x1_0000 {
      Store16(buffer, pos, code / 0x1000 % 16 + 224, Cont(code / 0x40));
      buffer[pos + 2] := Cont(code);
      return 3;
    } else if 0x1_0000 <= code < 0x20_0000 {
      Store32(buffer, pos, code / 0x4_0000 % 8 + 240, Cont(code / 0x1000), Cont(code / 0x40), Cont(code));
      return 4;
    } else if 0x20_0000 <= code < 0x400_0000 {
      Store32(buffer, pos, code / 0x100_0000 % 4 + 248, Cont(code / 0x4_0000), Cont(code / 0x1000), Cont(code / 0x40));
      buffer[pos + 4] := Cont(code);
      return 5;
    } else if code >= 0x400_0000 {
      Store32(buffer, pos, code / 0x4000_0000 % 2 + 252, Cont(code / 0x100_0000), Cont(code / 0x4_0000),
              Cont(code / 0x1000));
      Store16(buffer, pos + 4, Cont(code / 0x40), code % 64);
      assert buffer[pos + 4] == [Cont(code / 0x40), code % 64][0]
             && buffer[pos + 5] == [Cont(code / 0x40), code % 64][1];
      return 6;
    }
    buffer[pos] := code;
    length := 1;
  }

  function HighSurrogate(code: uint32): uint16
    requires code >= 0x1_0000
  {
    0xD800 + (code - 0x1_0000) / 1024 % 1024
  }

  function LowSurrogate(code: uint32): uint16
    requires code >= 0x1_0000
  {
    0xDC00 + (code - 0x1_0000) % 1024
  }

  function PairToCode(high: uint16, low: uint16): uint32 {
    (low - 0xDC00) % 1024 + (high - 0xD800) % 1024 * 1024 + 0x1_0000
  }

  /** A surrogate pair stands for the code point it was made from, and each half lies in its own range. */
  lemma SurrogateRoundTrip(code: uint32)
    requires 0x1_0000 <= code <= 0x10_FFFF
    ensures PairToCode(HighSurrogate(code), LowSurrogate(code)) == code
    ensures 0xD800 <= HighSurrogate(code) <= 0xDBFF && 0xDC00 <= LowSurrogate(code) <= 0xDFFF
  {
  }

  predicate IsTail(b: byte) {
    0x80 <= b <= 0xBF
  }

  /** The length of the character at position i in the syntax of RFC 3629, section 4; 0 when there is none. */
  function CharLength(s: bytes, i: nat): (n: nat)
    ensures n > 0 ==> i + n <= |s|
  {
    if i >= |s| then 0
    else if s[i] <= 0x7F then 1
    else if i + 2 <= |s| && 0xC2 <= s[i] <= 0xDF && IsTail(s[i + 1]) then 2
    else if i + 3 <= |s| && ThreeByteHead(s[i], s[i + 1]) && IsTail(s[i + 2]) then 3
    else if i + 4 <= |s| && FourByteHead(s[i], s[i + 1]) && IsTail(s[i + 2]) && IsTail(s[i + 3]) then 4
    else 0
  }

  predicate ThreeByteHead(b0: byte, b1: byte) {
    || (b0 == 0xE0 && 0xA0 <= b1 <= 0xBF)
    || (0xE1 <= b0 <= 0xEC && IsTail(b1))
    || (b0 == 0xED && 0x80 <= b1 <= 0x9F)
    || (0xEE <= b0 <= 0xEF && IsTail(b1))
  }

  predicate FourByteHead(b0: byte, b1: byte) {
    || (b0 == 0xF0 && 0x90 <= b1 <= 0xBF)
    || (0xF1 <= b0 <= 0xF3 && IsTail(b1))
    || (b0 == 0xF4 && 0x80 <= b1 <= 0x8F)
  }

  /** s from position i on is well-formed UTF-8, RFC 3629 section 4. */
  predicate WellFormed(s: bytes, i: nat)
    decreases |s| - i
  {
    i == |s| || (CharLength(s, i) > 0 && WellFormed(s, i + CharLength(s, i)))
  }

  predicate IsScalar(code: uint32) {
    code < 0xD800 || 0xE000 <= code <= 0x10_FFFF
  }

  lemma TwoByteForm(a: int, b: int)
    requires 2 <= a < 32 && 0 <= b < 64
    ensures var code := a * 0x40 + b; 0x80 <= code < 0x800 && BytesOf(code) == [a + 192, b + 128]
  {
  }

  lemma ThreeByteForm(a: int, b: int, c: int)
    requires 0 <= a < 16 && 0 <= b < 64 && 0 <= c < 64
    requires a == 0 ==> b >= 32
    ensures var code := a * 0x1000 + b * 0x40 + c;
            0x800 <= code < 0x1_0000 && BytesOf(code) == [a + 224, b + 128, c + 128]
  {
    var code := a * 0x1000 + b * 0x40 + c;
    assert code / 0x1000 == a;
    assert code / 0x40 == a * 0x40 + b;
  }

  lemma FourByteForm(a: int, b: int, c: int, d: int)
    requires 0 <= a < 5 && 0 <= b < 64 && 0 <= c < 64 && 0 <= d < 64
    requires a == 0 ==> b >= 16
    requires a == 4 ==> b < 16
    ensures var code := a * 0x4_0000 + b * 0x1000 + c * 0x40 + d;
            0x1_0000 <= code <= 0x10_FFFF && BytesOf(code) == [a + 240, b + 128, c + 128, d + 128]
  {
    var code := a * 0x4_0000 + b * 0x1000 + c * 0x40 + d;
    assert code / 0x4_0000 == a;
    assert code / 0x1000 == a * 0x40 + b;
    assert code / 0x40 == a * 0x1000 + b * 0x40 + c;
  }

  /** The low bits of a trailing byte. */
  lemma TailBits(b: byte)
    requires IsTail(b)
    ensures Low6(b) == b - 128
  {
  }

  lemma ThreeByteCode(s: bytes, i: nat)
    requires CharLength(s, i) == 3
    ensures SequenceLength(s[i]) == 3
    ensures var a: int, b: int, c: int := s[i] - 224, s[i + 1] - 128, s[i + 2] - 128;
            CodeOf(s, i) == a * 0x1000 + b * 0x40 + c
  {
    hide Low6;
    TailBits(s[i + 1]);
    TailBits(s[i + 2]);
    assert s[i] % 16 == s[i] - 224;
  }

  lemma FourByteCode(s: bytes, i: nat)
    requires CharLength(s, i) == 4
    ensures SequenceLength(s[i]) == 4
    ensures var a: int, b: int, c: int, d: int := s[i] - 240, s[i + 1] - 128, s[i + 2] - 128, s[i + 3] - 128;
            CodeOf(s, i) == a * 0x4_0000 + b * 0x1000 + c * 0x40 + d
  {
    hide Low6;
    TailBits(s[i + 1]);
    TailBits(s[i + 2]);
    TailBits(s[i + 3]);
    assert s[i] % 8 == s[i] - 240;
  }

  lemma ThreeByteRoundTrip(s: bytes, i: nat)
    requires CharLength(s, i) == 3
    ensures IsScalar(CodeOf(s, i)) && BytesOf(CodeOf(s, i)) == s[i..i + 3]
  {
    ThreeByteCode(s, i);
    ThreeByteForm(s[i] - 224, s[i + 1] - 128, s[i + 2] - 128);
  }

  lemma FourByteRoundTrip(s: bytes, i: nat)
    requires CharLength(s, i) == 4
    ensures IsScalar(CodeOf(s, i)) && BytesOf(CodeOf(s, i)) == s[i..i + 4]
  {
    FourByteCode(s, i);
    FourByteForm(s[i] - 240, s[i + 1] - 128, s[i + 2] - 128, s[i + 3] - 128);
  }

  /** Reading a well-formed character and writing its code point gives the same bytes back. */
  lemma CharRoundTrip(s: bytes, i: nat)
    requires CharLength(s, i) > 0
    ensures SequenceLength(s[i]) == CharLength(s, i)
    ensures IsScalar(CodeOf(s, i))
    ensures BytesOf(CodeOf(s, i)) == s[i..i + CharLength(s, i)]
  {
    match CharLength(s, i)
    case 1 =>
    case 2 =>
      TwoByteForm(s[i] - 192, s[i + 1] - 128);
      assert s[i] % 32 == s[i] - 192;
    case 3 => ThreeByteRoundTrip(s, i);
    case _ => FourByteRoundTrip(s, i);
  }

  /** The lead-byte tests of the source on every byte that is not ASCII. */
  lemma LeadByteForms(b: bv8)
    requires b >= 128
    ensures (b | 192 != b) == (b < 192)
    ensures b >= 192 ==> (b | 32 != b) == (b < 224)
    ensures b >= 224 ==> (b | 16 != b) == (b < 240)
    ensures b >= 240 ==> (b | 8 != b) == (b < 248)
    ensures b >= 248 ==> (b | 4 != b) == (b < 252)
    ensures b >= 252 ==> (b | 2 != b) == (b < 254)
    ensures (b | 32 != b) == (b % 64 < 32)
    ensures b % 64 >= 32 ==> (b | 16 != b) == (b % 64 < 48)
    ensures b % 64 >= 48 ==> (b | 8 != b) == (b % 64 < 56)
    ensures b % 64 >= 56 ==> (b | 4 != b) == (b % 64 < 60)
    ensures b % 64 >= 60 ==> (b | 2 != b) == (b % 64 < 62)
  {
  }

  /** Or-ing shifted six-bit groups is adding their multiples. */
  lemma CodeForms(lead: bv32, t1: bv32, t2: bv32)
    requires lead < 32 && t1 < 64 && t2 < 64
    ensures (lead << 6) | t1 == lead * 0x40 + t1
    ensures (lead << 12) | t2 | (t1 << 6) == lead * 0x1000 + t1 * 0x40 + t2
  {
  }

  lemma FourByteCodeForm(lead: bv32, t1: bv32, t2: bv32, t3: bv32)
    requires lead < 8 && t1 < 64 && t2 < 64 && t3 < 64
    ensures (lead << 18) | t3 | (t2 << 6) | (t1 << 12) == lead * 0x4_0000 + t1 * 0x1000 + t2 * 0x40 + t3
  {
  }

  lemma FiveByteCodeForm(lead: bv32, t1: bv32, t2: bv32, t3: bv32, t4: bv32)
    requires lead < 4 && t1 < 64 && t2 < 64 && t3 < 64 && t4 < 64
    ensures (lead << 24) | t4 | (t3 << 6) | (t2 << 12) | (t1 << 18)
            == lead * 0x100_0000 + t1 * 0x4_0000 + t2 * 0x1000 + t3 * 0x40 + t4
  {
  }

  lemma SixByteCodeForm(lead: bv32, t1: bv32, t2: bv32, t3: bv32, t4: bv32, t5: bv32)
    requires lead < 2 && t1 < 64 && t2 < 64 && t3 < 64 && t4 < 64 && t5 < 64
    ensures (lead << 30) | t5 | (t4 << 6) | (t3 << 12) | (t2 << 18) | (t1 << 24)
            == lead * 0x4000_0000 + t1 * 0x100_0000 + t2 * 0x4_0000 + t3 * 0x1000 + t4 * 0x40 + t5
  {
  }

  /** The bytes of a word, taken out of it and masked. */
  lemma WordForms(value: bv32)
    ensures ((value >> 24) & 0xFF) & 63 == value / 0x100_0000 % 256 % 64
    ensures ((value >> 16) & 0xFF) & 63 == value / 0x1_0000 % 256 % 64
    ensures ((value >> 8) & 0xFF) & 63 == value / 0x100 % 256 % 64
  {
  }

  /** Masking and marking a shifted code is taking a remainder and adding the mark. */
  lemma ByteForms(code: bv32)
    ensures ((code >> 6) & 31) | 192 == code / 0x40 % 32 + 192
    ensures ((code >> 12) & 15) | 224 == code / 0x1000 % 16 + 224
    ensures ((code >> 18) & 7) | 240 == code / 0x4_0000 % 8 + 240
    ensures (code & 63) | 128 == code % 64 + 128
    ensures ((code >> 6) & 63) | 128 == code / 0x40 % 64 + 128
    ensures ((code >> 12) & 63) | 128 == code / 0x1000 % 64 + 128
    ensures ((code >> 18) & 63) | 128 == code / 0x4_0000 % 64 + 128
    ensures ((code >> 24) & 63) | 128 == code / 0x100_0000 % 64 + 128
    ensures ((code >> 24) & 3) | 248 == code / 0x100_0000 % 4 + 248
    ensures ((code >> 30) & 1) | 252 == code / 0x4000_0000 % 2 + 252
    ensures code & 63 == code % 64
    ensures (code >> 10) & 1023 == code / 1024 % 1024
  {
  }
}

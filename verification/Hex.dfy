/** src/oatpp/encoding/Hex.cpp: the four- and eight-digit forms the JSON escapes use. */
module Hex {
  import opened Bytes
  import opened Unicode

  datatype Read = Value(code: int) | UnknownSymbol

  predicate IsHex(b: byte) {
    0x30 <= b <= 0x39 || 0x41 <= b <= 0x46 || 0x61 <= b <= 0x66
  }

  function DigitValue(b: byte): (v: int)
    ensures 0 <= v < 16
  {
    if 0x30 <= b <= 0x39 then b - 0x30
    else if 0x41 <= b <= 0x46 then b - 0x41 + 10
    else if 0x61 <= b <= 0x66 then b - 0x61 + 10
    else 0
  }

  /** ALPHABET_UPPER[n] */
  function UpperDigit(n: int): byte
    requires 0 <= n < 16
  {
    if n < 10 then 0x30 + n else 0x41 + n - 10
  }

  /** `writeUInt16` */
  function Text16(v: uint16): (r: bytes)
    ensures |r| == 4
  {
    [UpperDigit(v / 0x1000 % 16), UpperDigit(v / 0x100 % 16), UpperDigit(v / 0x10 % 16), UpperDigit(v % 16)]
  }

  /** `writeUInt32` */
  function Text32(v: uint32): (r: bytes)
    ensures |r| == 8
  {
    Text16(v / 0x1_0000) + Text16(v % 0x1_0000)
  }

  predicate AllHex(s: bytes) {
    forall k :: 0 <= k < |s| ==> IsHex(s[k])
  }

  /** `x << ((3 - i) << 2)` and `x << ((7 - i) << 2)`: a digit moved up by a number of hexadecimal places. */
  function MoveUp(x: int, places: nat): int {
    if places == 0 then x else MoveUp(x, places - 1) * 16
  }

  /** The number that a string of hexadecimal digits denotes. */
  function NumberOf(s: bytes): int {
    if s == [] then 0 else MoveUp(DigitValue(s[0]), |s| - 1) + NumberOf(s[1..])
  }

  function ReadSpec(s: bytes): Read {
    if AllHex(s) then Value(NumberOf(s)) else UnknownSymbol
  }

  /** `readUInt16` for four digits and `readUInt32` for eight: each digit is or-ed in at its own place. */
  method ReadDigits(s: bytes) returns (r: Read)
    ensures r == ReadSpec(s)
  {
    var value := 0;
    for i := 0 to |s|
      invariant AllHex(s[..i])
      invariant value + NumberOf(s[i..]) == NumberOf(s)
    {
      if !IsHex(s[i]) {
        return UnknownSymbol;
      }
      value := value + MoveUp(DigitValue(s[i]), |s| - 1 - i);
      assert s[i..][1..] == s[i + 1..];
    }
    r := Value(value);
  }

  lemma FourDigits(s: bytes)
    requires |s| == 4
    ensures NumberOf(s)
         == DigitValue(s[0]) * 0x1000 + DigitValue(s[1]) * 0x100 + DigitValue(s[2]) * 0x10 + DigitValue(s[3])
    ensures 0 <= NumberOf(s) < 0x1_0000
  {
    assert s[1..][1..] == s[2..] && s[2..][1..] == s[3..] && s[3..][1..] == [];
    assert NumberOf(s[3..]) == DigitValue(s[3]);
    assert NumberOf(s[2..]) == MoveUp(DigitValue(s[2]), 1) + NumberOf(s[3..]);
    assert NumberOf(s[1..]) == MoveUp(DigitValue(s[1]), 2) + NumberOf(s[2..]);
    MoveUpValues(DigitValue(s[0]));
    MoveUpValues(DigitValue(s[1]));
    MoveUpValues(DigitValue(s[2]));
  }

  lemma MoveUpValues(x: int)
    ensures MoveUp(x, 1) == x * 0x10 && MoveUp(x, 2) == x * 0x100 && MoveUp(x, 3) == x * 0x1000
    ensures MoveUp(x, 4) == x * 0x1_0000
  {
  }

  lemma MoveUpFour(x: int, places: nat)
    ensures MoveUp(x, places + 4) == MoveUp(x, places) * 0x1_0000
  {
    assert MoveUp(x, places + 2) == MoveUp(x, places) * 0x100;
    assert MoveUp(x, places + 4) == MoveUp(x, places + 2) * 0x100;
  }

  lemma {:induction false} HighHalf(s: bytes, t: bytes)
    requires |t| == 4
    ensures NumberOf(s + t) == NumberOf(s) * 0x1_0000 + NumberOf(t)
  {
    if s == [] {
      assert s + t == t;
    } else {
      HighHalf(s[1..], t);
      assert (s + t)[1..] == s[1..] + t;
      MoveUpFour(DigitValue(s[0]), |s| - 1);
    }
  }

  lemma Nibbles(v: uint16)
    ensures v / 0x1000 % 16 * 0x1000 + v / 0x100 % 16 * 0x100 + v / 0x10 % 16 * 0x10 + v % 16 == v
  {
    assert v / 0x100 == v / 0x1000 * 16 + v / 0x100 % 16;
    assert v / 0x10 == v / 0x100 * 16 + v / 0x10 % 16;
  }

  /** The four digits at position i of s, read in one go. */
  function FourAt(s: bytes, i: nat): (r: Read)
    requires i + 4 <= |s|
    ensures r.Value? ==> 0 <= r.code < 0x1_0000
  {
    if IsHex(s[i]) && IsHex(s[i + 1]) && IsHex(s[i + 2]) && IsHex(s[i + 3]) then
      Value(DigitValue(s[i]) * 0x1000 + DigitValue(s[i + 1]) * 0x100 + DigitValue(s[i + 2]) * 0x10
            + DigitValue(s[i + 3]))
    else UnknownSymbol
  }

  function EightAt(s: bytes, i: nat): (r: Read)
    requires i + 8 <= |s|
    ensures r.Value? ==> 0 <= r.code < 0x1_0000_0000
  {
    var high, low := FourAt(s, i), FourAt(s, i + 4);
    if high.Value? && low.Value? then Value(high.code * 0x1_0000 + low.code) else UnknownSymbol
  }

  lemma ReadFourAt(s: bytes, i: nat)
    requires i + 4 <= |s|
    ensures ReadSpec(s[i..i + 4]) == FourAt(s, i)
  {
    var t := s[i..i + 4];
    FourDigits(t);
    assert t[0] == s[i] && t[1] == s[i + 1] && t[2] == s[i + 2] && t[3] == s[i + 3];
  }

  lemma ReadEightAt(s: bytes, i: nat)
    requires i + 8 <= |s|
    ensures ReadSpec(s[i..i + 8]) == EightAt(s, i)
  {
    var t, high, low := s[i..i + 8], s[i..i + 4], s[i + 4..i + 8];
    assert t == high + low;
    ReadFourAt(s, i);
    ReadFourAt(s, i + 4);
    HighHalf(high, low);
    assert AllHex(t) <==> AllHex(high) && AllHex(low) by {
      assert forall k :: 0 <= k < 4 ==> t[k] == high[k] && t[k + 4] == low[k];
      assert forall k :: 4 <= k < 8 ==> t[k] == low[k - 4];
    }
  }

  /** Reading back four written digits gives the number. */
  lemma Text16RoundTrip(v: uint16)
    ensures FourAt(Text16(v), 0) == Value(v)
  {
    Nibbles(v);
  }
}

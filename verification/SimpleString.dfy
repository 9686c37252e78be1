/** `Utils::isSimpleString` and its eight-bytes-at-a-time test, src/oatpp/json/Utils.cpp. */
module SimpleString {
  import opened Bytes

  const LOW_BITS: bv64 := 0x0101_0101_0101_0101
  const HIGH_BITS: bv64 := 0x8080_8080_8080_8080
  const SPACES: bv64 := 0x2020_2020_2020_2020
  const QUOTES: bv64 := 0x2222_2222_2222_2222
  const BACKSLASHES: bv64 := 0x5C5C_5C5C_5C5C_5C5C

  predicate IsSimple(s: bytes) {
    forall k :: 0 <= k < |s| ==> !NeedsEscape(s[k])
  }

  function ZeroByteMask(x: bv64): bv64 {
    (x - LOW_BITS) & !x & HIGH_BITS
  }

  function ControlMask(word: bv64): bv64 {
    (word - SPACES) & !word & HIGH_BITS
  }

  /** The load of eight bytes as one little-endian word. */
  function Pack(b0: bv64, b1: bv64, b2: bv64, b3: bv64, b4: bv64, b5: bv64, b6: bv64, b7: bv64): bv64 {
    b0 | (b1 << 8) | (b2 << 16) | (b3 << 24) | (b4 << 32) | (b5 << 40) | (b6 << 48) | (b7 << 56)
  }

  lemma ControlMaskIsExact(b0: bv64, b1: bv64, b2: bv64, b3: bv64, b4: bv64, b5: bv64, b6: bv64, b7: bv64)
    requires b0 < 256 && b1 < 256 && b2 < 256 && b3 < 256 && b4 < 256 && b5 < 256 && b6 < 256 && b7 < 256
    ensures ControlMask(Pack(b0, b1, b2, b3, b4, b5, b6, b7)) == 0 <==>
      b0 >= 0x20 && b1 >= 0x20 && b2 >= 0x20 && b3 >= 0x20 && b4 >= 0x20 && b5 >= 0x20 && b6 >= 0x20 && b7 >= 0x20
  {
  }

  lemma QuoteMaskIsExact(b0: bv64, b1: bv64, b2: bv64, b3: bv64, b4: bv64, b5: bv64, b6: bv64, b7: bv64)
    requires b0 < 256 && b1 < 256 && b2 < 256 && b3 < 256 && b4 < 256 && b5 < 256 && b6 < 256 && b7 < 256
    ensures ZeroByteMask(Pack(b0, b1, b2, b3, b4, b5, b6, b7) ^ QUOTES) == 0 <==>
      b0 != 0x22 && b1 != 0x22 && b2 != 0x22 && b3 != 0x22 && b4 != 0x22 && b5 != 0x22 && b6 != 0x22 && b7 != 0x22
  {
  }

  lemma BackslashMaskIsExact(b0: bv64, b1: bv64, b2: bv64, b3: bv64, b4: bv64, b5: bv64, b6: bv64, b7: bv64)
    requires b0 < 256 && b1 < 256 && b2 < 256 && b3 < 256 && b4 < 256 && b5 < 256 && b6 < 256 && b7 < 256
    ensures ZeroByteMask(Pack(b0, b1, b2, b3, b4, b5, b6, b7) ^ BACKSLASHES) == 0 <==>
      b0 != 0x5C && b1 != 0x5C && b2 != 0x5C && b3 != 0x5C && b4 != 0x5C && b5 != 0x5C && b6 != 0x5C && b7 != 0x5C
  {
  }

  predicate NeedsEscapeLane(b: bv64) {
    b < 0x20 || b == 0x22 || b == 0x5C
  }

  /** `hasEscapeBytesInWord` on the eight bytes of a word. The borrow-based test is exact in both directions. */
  method HasEscapeBytesInWord(b0: bv64, b1: bv64, b2: bv64, b3: bv64, b4: bv64, b5: bv64, b6: bv64, b7: bv64)
    returns (hit: bool)
    requires b0 < 256 && b1 < 256 && b2 < 256 && b3 < 256 && b4 < 256 && b5 < 256 && b6 < 256 && b7 < 256
    ensures hit <==>
      || NeedsEscapeLane(b0) || NeedsEscapeLane(b1) || NeedsEscapeLane(b2) || NeedsEscapeLane(b3)
      || NeedsEscapeLane(b4) || NeedsEscapeLane(b5) || NeedsEscapeLane(b6) || NeedsEscapeLane(b7)
  {
    var word := Pack(b0, b1, b2, b3, b4, b5, b6, b7);
    var ctrl := ControlMask(word);
    var quote := ZeroByteMask(word ^ QUOTES);
    var backslash := ZeroByteMask(word ^ BACKSLASHES);
    hit := ctrl | quote | backslash != 0;
    ControlMaskIsExact(b0, b1, b2, b3, b4, b5, b6, b7);
    QuoteMaskIsExact(b0, b1, b2, b3, b4, b5, b6, b7);
    BackslashMaskIsExact(b0, b1, b2, b3, b4, b5, b6, b7);
  }

  method Lane(b: byte) returns (lane: bv64)
    ensures lane < 256
    ensures NeedsEscapeLane(lane) <==> NeedsEscape(b)
  {
    lane := b as bv64;
  }

  method WordNeedsEscape(data: bytes, i: nat) returns (hit: bool)
    requires i + 8 <= |data|
    ensures hit <==> !IsSimple(data[i..i + 8])
  {
    var b0 := Lane(data[i]);
    var b1 := Lane(data[i + 1]);
    var b2 := Lane(data[i + 2]);
    var b3 := Lane(data[i + 3]);
    var b4 := Lane(data[i + 4]);
    var b5 := Lane(data[i + 5]);
    var b6 := Lane(data[i + 6]);
    var b7 := Lane(data[i + 7]);
    hit := HasEscapeBytesInWord(b0, b1, b2, b3, b4, b5, b6, b7);
    ghost var t := data[i..i + 8];
    assert IsSimple(t) <==> forall k :: 0 <= k < 8 ==> !NeedsEscape(t[k]);
    assert t[0] == data[i] && t[1] == data[i + 1] && t[2] == data[i + 2] && t[3] == data[i + 3];
    assert t[4] == data[i + 4] && t[5] == data[i + 5] && t[6] == data[i + 6] && t[7] == data[i + 7];
  }

  method IsSimpleString(data: bytes) returns (simple: bool)
    ensures simple <==> IsSimple(data)
  {
    var size := |data|;
    var i := 0;
    while i + 8 <= size
      invariant 0 <= i <= size
      invariant IsSimple(data[..i])
    {
      var hit := WordNeedsEscape(data, i);
      if hit {
        for j := 0 to 8
          invariant IsSimple(data[..i + j])
        {
          if NeedsEscape(data[i + j]) {
            return false;
          }
        }
      } else {
        assert data[..i + 8] == data[..i] + data[i..i + 8];
      }
      i := i + 8;
    }
    while i < size
      invariant 0 <= i <= size
      invariant IsSimple(data[..i])
    {
      if NeedsEscape(data[i]) {
        return false;
      }
      i := i + 1;
    }
    assert data[..i] == data;
    simple := true;
  }
}

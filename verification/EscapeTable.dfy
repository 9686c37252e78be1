/** What both escapers write, byte by byte: the two-character escapes of section 7 of RFC 8259, `\u00` and two digits
    for the other control bytes, and everything else as it is. */
module EscapeTable {
  import opened Bytes
  import opened Unicode
  import opened Escape
  import opened JsonAlphabet
  import EscapeRoundTrip
  import FastStrings
  import Hex

  /** The byte has the two-character escape at place k of the table; the solidus only on request. */
  predicate HasLetter(b: byte, k: nat, solidus: bool) {
    k < |MEANINGS| && b as char == MEANINGS[k] && (b != SOLIDUS || solidus)
  }

  /** One byte by the table, in the digits of the escaper. */
  ghost predicate WrittenAs(b: byte, t: bytes, solidus: bool, hex: string)
    requires |hex| == 16
  {
    && (forall k: nat :: HasLetter(b, k, solidus) ==> Spells(t, "\\" + [LETTERS[k]]))
    && ((forall k: nat :: !HasLetter(b, k, solidus)) ==>
          if b < 32 then Spells(t, "\\u00" + [hex[b / 16], hex[b % 16]]) else t == [b])
  }

  /** The text t from j on is s from i on, each byte by the table. */
  ghost predicate Writes(s: bytes, i: nat, t: bytes, j: nat, solidus: bool, hex: string)
    requires |hex| == 16
    decreases |s| - i
  {
    if i >= |s| then j == |t|
    else exists e: nat ::
           j <= e <= |t| && WrittenAs(s[i], t[j..e], solidus, hex) && Writes(s, i + 1, t, e, solidus, hex)
  }

  lemma Letters(b: byte, solidus: bool)
    ensures (exists k: nat :: HasLetter(b, k, solidus)) <==>
            b in {0x22, 0x5C, 8, 12, 10, 13, 9} || (b == SOLIDUS && solidus)
  {
    assert HasLetter(0x22, 0, solidus) && HasLetter(0x5C, 1, solidus) && HasLetter(0x2F, 2, solidus) == solidus;
    assert HasLetter(8, 3, solidus) && HasLetter(12, 4, solidus) && HasLetter(10, 5, solidus);
    assert HasLetter(13, 6, solidus) && HasLetter(9, 7, solidus);
  }

  lemma FastByte(b: byte, solidus: bool)
    ensures WrittenAs(b, FastStrings.ByteText(b, solidus), solidus, LOWER_HEX)
  {
    Letters(b, solidus);
    if b < 32 {
      FastDigits(b);
    }
  }

  lemma FastDigits(b: byte)
    requires b < 32
    ensures FastStrings.LOWER_DIGITS[b / 16] as char == LOWER_HEX[b / 16]
    ensures FastStrings.LOWER_DIGITS[b % 16] as char == LOWER_HEX[b % 16]
  {
  }

  lemma AsciiByte(b: byte, flags: Flags)
    requires b < 128
    ensures WrittenAs(b, if b < 32 then ControlText(b) else AsciiText(b, flags), flags.solidus, UPPER_HEX)
  {
    Letters(b, flags.solidus);
    if b < 32 {
      hide Hex.UpperDigit;
      UpperDigits(b);
    }
  }

  lemma UpperDigits(b: byte)
    requires b < 32
    ensures Hex.Text16(b) == [0x30, 0x30, Hex.UpperDigit(b / 16), Hex.UpperDigit(b % 16)]
    ensures Hex.UpperDigit(b / 16) as char == UPPER_HEX[b / 16]
    ensures Hex.UpperDigit(b % 16) as char == UPPER_HEX[b % 16]
  {
  }

  lemma HighByte(b: byte, solidus: bool, hex: string)
    requires |hex| == 16 && b >= 128
    ensures WrittenAs(b, [b], solidus, hex)
  {
    Letters(b, solidus);
  }

  lemma WritesMore(s: bytes, i: nat, t: bytes, j: nat, n: nat, solidus: bool, hex: string)
    requires |hex| == 16 && i < |s| && j + n <= |t| && WrittenAs(s[i], t[j..j + n], solidus, hex)
    requires Writes(s, i + 1, t, j + n, solidus, hex)
    ensures Writes(s, i, t, j, solidus, hex)
  {
  }

  lemma {:induction false} InsideWrites(s: bytes, i: nat, solidus: bool, t: bytes, j: nat)
    requires j <= |t| && t[j..] == FastStrings.Inside(s, i, solidus)
    ensures Writes(s, i, t, j, solidus, LOWER_HEX)
    decreases |s| - i
  {
    hide WrittenAs, Writes, FastStrings.ByteText;
    if i < |s| {
      var head := FastStrings.ByteText(s[i], solidus);
      SplitSuffix(t, j, head, FastStrings.Inside(s, i + 1, solidus));
      FastByte(s[i], solidus);
      InsideWrites(s, i + 1, solidus, t, j + |head|);
      WritesMore(s, i, t, j, |head|, solidus, LOWER_HEX);
    } else {
      NothingWrites(s, i, t, j, solidus, LOWER_HEX);
    }
  }

  lemma NothingWrites(s: bytes, i: nat, t: bytes, j: nat, solidus: bool, hex: string)
    requires |hex| == 16 && i >= |s| && j == |t|
    ensures Writes(s, i, t, j, solidus, hex)
  {
  }

  /** The fast serializer, on every byte string. */
  lemma FastWritesByTable(s: bytes, solidus: bool)
    ensures Writes(s, 0, FastStrings.Inside(s, 0, solidus), 0, solidus, LOWER_HEX)
  {
    hide Writes, FastStrings.Inside;
    var t := FastStrings.Inside(s, 0, solidus);
    assert t[0..] == t;
    InsideWrites(s, 0, solidus, t, 0);
  }

  /** Bytes above 0x7F are copied. */
  lemma {:induction false} CopyWrites(s: bytes, i: nat, n: nat, t: bytes, j: nat, solidus: bool, hex: string)
    requires |hex| == 16 && i + n <= |s| && j + n <= |t| && t[j..j + n] == s[i..i + n]
    requires forall k :: i <= k < i + n ==> s[k] >= 128
    requires Writes(s, i + n, t, j + n, solidus, hex)
    ensures Writes(s, i, t, j, solidus, hex)
    decreases n
  {
    hide WrittenAs, Writes;
    if n > 0 {
      assert t[j] == t[j..j + n][0] == s[i..i + n][0] == s[i];
      assert t[j + 1..j + n] == t[j..j + n][1..] == s[i..i + n][1..] == s[i + 1..i + n];
      CopyWrites(s, i + 1, n - 1, t, j + 1, solidus, hex);
      HighByte(s[i], solidus, hex);
      assert t[j..j + 1] == [s[i]];
      WritesMore(s, i, t, j, 1, solidus, hex);
    }
  }

  /** The unit at position i of a well-formed string. */
  lemma UnitIs(s: bytes, i: nat, flags: Flags)
    requires !flags.utf8Char && i < |s| && WellFormed(s, i)
    ensures var n := CharLength(s, i);
            && 0 < n && i + n <= |s| && WellFormed(s, i + n)
            && Escaped(s, i, flags) == PieceText(s, i, flags) + Escaped(s, i + n, flags)
            && if s[i] < 128 then
                 n == 1
                 && PieceText(s, i, flags) == if s[i] < 32 then ControlText(s[i]) else AsciiText(s[i], flags)
               else PieceText(s, i, flags) == s[i..i + n]
  {
    hide ControlText, AsciiText, CodeText;
    CharRoundTrip(s, i);
  }

  lemma UnitWrites(s: bytes, i: nat, flags: Flags, t: bytes, j: nat)
    requires !flags.utf8Char && i < |s| && WellFormed(s, i) && IsAtText(t, j, PieceText(s, i, flags))
    requires 0 < CharLength(s, i) && i + CharLength(s, i) <= |s|
    requires Writes(s, i + CharLength(s, i), t, j + |PieceText(s, i, flags)|, flags.solidus, UPPER_HEX)
    ensures Writes(s, i, t, j, flags.solidus, UPPER_HEX)
  {
    hide WrittenAs, Writes, ControlText, AsciiText, PieceText, WellFormed, CharLength, Escaped, IsAtText;
    UnitIs(s, i, flags);
    TextIsSlice(t, j, PieceText(s, i, flags));
    if s[i] < 128 {
      AsciiByte(s[i], flags);
      WritesMore(s, i, t, j, |PieceText(s, i, flags)|, flags.solidus, UPPER_HEX);
    } else {
      HighChar(s, i);
      CopyWrites(s, i, CharLength(s, i), t, j, flags.solidus, UPPER_HEX);
    }
  }

  lemma {:induction false} EscapedWrites(s: bytes, i: nat, flags: Flags, t: bytes, j: nat)
    requires !flags.utf8Char && i <= |s| && WellFormed(s, i) && j <= |t| && t[j..] == Escaped(s, i, flags)
    ensures Writes(s, i, t, j, flags.solidus, UPPER_HEX)
    decreases |s| - i
  {
    hide WrittenAs, Writes, ControlText, AsciiText, PieceText, WellFormed, CharLength, IsAtText;
    if i < |s| {
      var n := CharLength(s, i);
      var head := PieceText(s, i, flags);
      UnitIs(s, i, flags);
      hide Escaped;
      SplitSuffix(t, j, head, Escaped(s, i + n, flags));
      TextIsSlice(t, j, head);
      EscapedWrites(s, i + n, flags, t, j + |head|);
      UnitWrites(s, i, flags, t, j);
    } else {
      NothingWrites(s, i, t, j, flags.solidus, UPPER_HEX);
    }
  }

  lemma HighChar(s: bytes, i: nat)
    requires i < |s| && s[i] >= 128 && CharLength(s, i) > 0
    ensures i + CharLength(s, i) <= |s| && forall k :: i <= k < i + CharLength(s, i) ==> s[k] >= 128
  {
  }

  lemma {:induction false} SimpleWrites(s: bytes, i: nat, flags: Flags)
    requires TakesShortcut(s, flags) && i <= |s|
    ensures Writes(s, i, s, i, flags.solidus, UPPER_HEX)
    decreases |s| - i
  {
    hide WrittenAs, Writes;
    if i < |s| {
      SimpleWrites(s, i + 1, flags);
      SimpleByte(s, i, flags);
      assert s[i..i + 1] == [s[i]];
      WritesMore(s, i, s, i, 1, flags.solidus, UPPER_HEX);
    } else {
      NothingWrites(s, i, s, i, flags.solidus, UPPER_HEX);
    }
  }

  lemma SimpleByte(s: bytes, i: nat, flags: Flags)
    requires TakesShortcut(s, flags) && i < |s|
    ensures WrittenAs(s[i], [s[i]], flags.solidus, UPPER_HEX)
  {
    Letters(s[i], flags.solidus);
  }

  /** `escapeString` without FLAG_ESCAPE_UTF8CHAR, on every well-formed string. */
  lemma EscapeWritesByTable(s: bytes, flags: Flags)
    requires WellFormed(s, 0) && !flags.utf8Char
    ensures Writes(s, 0, EscapeResult(s, flags), 0, flags.solidus, UPPER_HEX)
  {
    hide Writes, Escaped, WellFormed, TakesShortcut;
    EscapeRoundTrip.RoundTrip(s, flags);
    if TakesShortcut(s, flags) {
      SimpleWrites(s, 0, flags);
    } else {
      var t := Escaped(s, 0, flags);
      assert t[0..] == t;
      EscapedWrites(s, 0, flags, t, 0);
    }
  }
}

/** Escaping and unescaping undo each other. */
module EscapeRoundTrip {
  import opened Bytes
  import opened Unicode
  import opened Escape
  import opened Unescape
  import Hex

  lemma ReadShort(e: bytes, j: nat, c: byte)
    requires IsAtText(e, j, ShortEscape(c)) && IsShort(c)
    ensures StepAt(e, j) == Good(2, [ShortMeaning(c)])
  {
    ByteOfText(e, j, ShortEscape(c), 0);
    ByteOfText(e, j, ShortEscape(c), 1);
  }

  lemma ReadFour(e: bytes, j: nat, code: uint16)
    requires IsAtText(e, j, [BACKSLASH, LETTER_U] + Hex.Text16(code))
    ensures e[j] == BACKSLASH && e[j + 1] == LETTER_U && e[j + 2] != PLUS
    ensures Hex.FourAt(e, j + 2) == Hex.Value(code)
  {
    var t := [BACKSLASH, LETTER_U] + Hex.Text16(code);
    forall k | 0 <= k < 6
      ensures e[j + k] == t[k]
    {
      ByteOfText(e, j, t, k);
    }
    assert t[2] == Hex.Text16(code)[0] && t[3] == Hex.Text16(code)[1] && t[4] == Hex.Text16(code)[2]
           && t[5] == Hex.Text16(code)[3];
    assert e[j + 2] == t[2] && e[j + 3] == t[3] && e[j + 4] == t[4] && e[j + 5] == t[5];
    Hex.Text16RoundTrip(code);
  }

  lemma ReadCode(e: bytes, j: nat, code: uint32)
    requires IsScalar(code) && IsAtText(e, j, CodeText(code))
    ensures StepAt(e, j) == Good(|CodeText(code)|, BytesOf(code))
  {
    if code < 0x1_0000 {
      ReadFour(e, j, code);
    } else {
      var high, low := HighSurrogate(code), LowSurrogate(code);
      assert CodeText(code)[..6] == [BACKSLASH, LETTER_U] + Hex.Text16(high);
      assert CodeText(code)[6..] == [BACKSLASH, LETTER_U] + Hex.Text16(low);
      assert e[j..j + 6] == e[j..j + 12][..6] && e[j + 6..j + 12] == e[j..j + 12][6..];
      ReadFour(e, j, high);
      ReadFour(e, j + 6, low);
      SurrogateRoundTrip(code);
    }
  }

  lemma SplitSlice(s: bytes, i: nat, n: nat)
    requires i + n <= |s|
    ensures s[i..] == s[i..i + n] + s[i + n..]
  {
  }

  /** Bytes other than the backslash stand for themselves. */
  lemma {:induction false} ReadPlain(e: bytes, j: nat, n: nat, tail: bytes)
    requires j + n <= |e| && forall k :: j <= k < j + n ==> e[k] != BACKSLASH
    requires Unescaped(e, j + n) == Text(tail)
    ensures Unescaped(e, j) == Text(e[j..j + n] + tail)
    decreases n
  {
    hide UnicodeStep;
    if n == 0 {
      assert e[j..j] + tail == tail;
    } else {
      ReadPlain(e, j + 1, n - 1, tail);
      assert [e[j]] + (e[j + 1..j + n] + tail) == e[j..j + n] + tail;
    }
  }

  lemma ReadControl(e: bytes, j: nat, a: byte)
    requires a < 32 && IsAtText(e, j, ControlText(a))
    ensures StepAt(e, j) == Good(|ControlText(a)|, [a])
  {
    if a == 8 { ReadShort(e, j, 0x62); }
    else if a == 12 { ReadShort(e, j, 0x66); }
    else if a == 10 { ReadShort(e, j, 0x6E); }
    else if a == 13 { ReadShort(e, j, 0x72); }
    else if a == 9 { ReadShort(e, j, 0x74); }
    else { ReadFour(e, j, a); }
  }

  lemma ReadStep(e: bytes, j: nat, used: nat, head: bytes, tail: bytes)
    requires j < |e| && StepAt(e, j) == Good(used, head)
    requires Unescaped(e, j + used) == Text(tail)
    ensures Unescaped(e, j) == Text(head + tail)
  {
  }

  /** What is written for the character at position i reads back as that character. */
  lemma ReadPiece(s: bytes, i: nat, flags: Flags, e: bytes, j: nat, tail: bytes)
    requires CharLength(s, i) > 0 && IsAtText(e, j, PieceText(s, i, flags))
    requires Unescaped(e, j + |PieceText(s, i, flags)|) == Text(tail)
    ensures Unescaped(e, j) == Text(s[i..i + CharLength(s, i)] + tail)
  {
    hide StepAt, CodeText, ControlText, CodeOf, BytesOf;
    CharRoundTrip(s, i);
    var n := CharLength(s, i);
    var t := PieceText(s, i, flags);
    var c := s[i..i + n];
    if s[i] < 32 {
      assert c == [s[i]];
      ReadControl(e, j, s[i]);
      ReadStep(e, j, |t|, c, tail);
    } else if s[i] < 128 && t != [s[i]] {
      assert c == [s[i]];
      ReadShort(e, j, s[i]);
      ReadStep(e, j, 2, c, tail);
    } else if s[i] < 128 || !flags.utf8Char {
      assert t == c;
      forall k | j <= k < j + n
        ensures e[k] != BACKSLASH
      {
        ByteOfText(e, j, t, k - j);
      }
      ReadPlain(e, j, n, tail);
    } else {
      ReadCode(e, j, CodeOf(s, i));
      ReadStep(e, j, |t|, c, tail);
    }
  }

  lemma {:induction false} ReadBack(s: bytes, i: nat, flags: Flags, e: bytes, j: nat)
    requires i <= |s| && WellFormed(s, i)
    requires j <= |e| && e[j..] == Escaped(s, i, flags)
    ensures Unescaped(e, j) == Text(s[i..])
    decreases |s| - i
  {
    hide StepAt, PieceText;
    if i < |s| {
      var n := CharLength(s, i);
      CharRoundTrip(s, i);
      SplitSuffix(e, j, PieceText(s, i, flags), Escaped(s, i + n, flags));
      SplitSlice(s, i, n);
      ReadBack(s, i + n, flags, e, j + |PieceText(s, i, flags)|);
      ReadPiece(s, i, flags, e, j, s[i + n..]);
    }
  }

  /** For every well-formed UTF-8 string and all flags: unescaping the escaped string succeeds and gives it back. */
  lemma RoundTrip(s: bytes, flags: Flags)
    requires WellFormed(s, 0)
    ensures Unescaped(EscapeResult(s, flags), 0) == Text(s)
    ensures TakesShortcut(s, flags) || EscapeResult(s, flags) == Escaped(s, 0, flags)
  {
    assert s[0..] == s;
    var e := Escaped(s, 0, flags);
    if TakesShortcut(s, flags) {
      PlainText(s, 0);
    } else {
      assert e[0..] == e;
      ReadBack(s, 0, flags, e, 0);
      if |e| == |s| {
        EscapesShrink(e, 0);
        PlainText(e, 0);
      }
    }
  }

  /** The two bytes between the halves of a surrogate pair are not looked at: whatever they are, the pair is read. */
  lemma SeparatorIgnored(code: uint32, x: byte, y: byte)
    requires 0x1_0000 <= code <= 0x10_FFFF
    ensures var e := [BACKSLASH, LETTER_U] + Hex.Text16(HighSurrogate(code)) + [x, y] + Hex.Text16(LowSurrogate(code));
            StepAt(e, 0) == Good(12, BytesOf(code))
  {
    hide Hex.Text16, BytesOf, HighSurrogate, LowSurrogate, PairToCode, IsAtText;
    var high, low := HighSurrogate(code), LowSurrogate(code);
    var e := [BACKSLASH, LETTER_U] + Hex.Text16(high) + [x, y] + Hex.Text16(low);
    StartStands([BACKSLASH, LETTER_U] + Hex.Text16(high), [x, y] + Hex.Text16(low), e);
    ReadFour(e, 0, high);
    Hex.Text16RoundTrip(low);
    LastFour([BACKSLASH, LETTER_U] + Hex.Text16(high) + [x, y], Hex.Text16(low));
    SurrogateRoundTrip(code);
  }

  lemma StartStands(head: bytes, tail: bytes, e: bytes)
    requires e == head + tail
    ensures IsAtText(e, 0, head)
  {
  }

  lemma LastFour(head: bytes, t: bytes)
    requires |t| == 4
    ensures Hex.FourAt(head + t, |head|) == Hex.FourAt(t, 0)
  {
  }
}

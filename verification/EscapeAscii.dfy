/** What the two flags of `escapeString` promise about its output. FLAG_ESCAPE_UTF8CHAR asks for pure ASCII; the
    shortcut for simple strings does not look at that flag. */
module EscapeAscii {
  import opened Bytes
  import opened Unicode
  import opened Escape
  import opened Sequences
  import EscapeRoundTrip
  import Hex

  predicate AllAscii(t: bytes) {
    forall k :: 0 <= k < |t| ==> t[k] < 128
  }

  lemma HexAscii(code: uint16)
    ensures AllAscii([BACKSLASH, 0x75] + Hex.Text16(code))
  {
  }

  lemma CodeAscii(code: uint32)
    ensures AllAscii(CodeText(code))
  {
    hide Hex.Text16, HighSurrogate, LowSurrogate;
    if code < 0x1_0000 {
      HexAscii(code);
    } else if code < 0x20_0000 {
      HexAscii(HighSurrogate(code));
      HexAscii(LowSurrogate(code));
      AsciiConcat([BACKSLASH, 0x75] + Hex.Text16(HighSurrogate(code)),
                  [BACKSLASH, 0x75] + Hex.Text16(LowSurrogate(code)));
      assert CodeText(code) == ([BACKSLASH, 0x75] + Hex.Text16(HighSurrogate(code)))
                               + ([BACKSLASH, 0x75] + Hex.Text16(LowSurrogate(code)));
    } else {
      HexAscii(code / 0x1_0000);
      HexAscii(code % 0x1_0000);
      Digits(code / 0x1_0000);
      Digits(code % 0x1_0000);
      assert AllAscii(Hex.Text32(code));
    }
  }

  lemma Digits(code: uint16)
    ensures AllAscii(Hex.Text16(code))
  {
  }

  lemma AsciiConcat(a: bytes, b: bytes)
    ensures AllAscii(a + b) <==> AllAscii(a) && AllAscii(b)
  {
    assert forall k :: 0 <= k < |a| ==> (a + b)[k] == a[k];
    assert forall k :: 0 <= k < |b| ==> (a + b)[|a| + k] == b[k];
  }

  lemma {:induction false} MarksAscii(n: nat)
    ensures AllAscii(Repeat(QUESTION, n))
    decreases n
  {
    if n > 0 {
      MarksAscii(n - 1);
    }
  }

  /** A byte that no sequence starts with, where a unit starts. */
  predicate IsStray(b: byte) {
    b >= 128 && SequenceLength(b) == 0
  }

  predicate NoStray(s: bytes, i: nat)
    decreases |s| - i
  {
    i >= |s| || (!IsStray(s[i]) && NoStray(s, i + Claim(s[i])))
  }

  /** A unit is written as ASCII exactly if it is not a stray byte: that is copied. */
  lemma PieceAscii(s: bytes, i: nat, flags: Flags)
    requires i < |s| && flags.utf8Char
    ensures AllAscii(PieceText(s, i, flags)) <==> !IsStray(s[i])
  {
    hide CodeText, CodeOf, Hex.Text16;
    if s[i] < 32 {
      HexAscii(s[i]);
    } else if s[i] < 128 {
    } else if i + Claim(s[i]) > |s| {
      MarksAscii(Claim(s[i]));
    } else if SequenceLength(s[i]) != 0 {
      CodeAscii(CodeOf(s, i));
    } else {
      assert s[i..i + 1][0] == s[i];
    }
  }

  lemma {:induction false} EscapedAscii(s: bytes, i: nat, flags: Flags)
    requires flags.utf8Char
    ensures AllAscii(Escaped(s, i, flags)) <==> NoStray(s, i)
    decreases |s| - i
  {
    hide PieceText, AllAscii, IsStray;
    if i < |s| {
      PieceAscii(s, i, flags);
      EscapedAscii(s, i + Claim(s[i]), flags);
      AsciiConcat(PieceText(s, i, flags), Escaped(s, i + Claim(s[i]), flags));
    } else {
      NothingAscii();
    }
  }

  lemma NothingAscii()
    ensures AllAscii([])
  {
  }

  /** One of the two shortcuts of `escapeString` returns the input. */
  predicate ReturnsInput(s: bytes, flags: Flags) {
    TakesShortcut(s, flags) || |Escaped(s, 0, flags)| == |s|
  }

  /** With the flag set, for every byte string: where a shortcut returns the input, the output is ASCII exactly if the
      input is; otherwise exactly if no unit of the input is a stray byte. */
  lemma AsciiExactly(s: bytes, flags: Flags)
    requires flags.utf8Char
    ensures AllAscii(EscapeResult(s, flags)) <==> if ReturnsInput(s, flags) then AllAscii(s) else NoStray(s, 0)
  {
    hide TakesShortcut, Escaped, AllAscii;
    EscapedAscii(s, 0, flags);
  }

  lemma {:induction false} NoneStray(s: bytes, i: nat)
    requires i <= |s| && WellFormed(s, i)
    ensures NoStray(s, i)
    decreases |s| - i
  {
    if i < |s| {
      CharRoundTrip(s, i);
      NoneStray(s, i + CharLength(s, i));
    }
  }

  /** For a well-formed string that is: exactly if the shortcut is not taken or the input is ASCII already. */
  lemma AsciiWellFormed(s: bytes, flags: Flags)
    requires WellFormed(s, 0) && flags.utf8Char
    ensures AllAscii(EscapeResult(s, flags)) <==> !TakesShortcut(s, flags) || AllAscii(s)
  {
    hide TakesShortcut, Escaped, AllAscii, WellFormed, NoStray;
    EscapeRoundTrip.RoundTrip(s, flags);
    NoneStray(s, 0);
    EscapedAscii(s, 0, flags);
    if TakesShortcut(s, flags) {
      ShortcutCopies(s, flags);
    }
  }

  lemma ShortcutCopies(s: bytes, flags: Flags)
    requires TakesShortcut(s, flags)
    ensures EscapeResult(s, flags) == s
  {
  }

  /** The two bytes of U+00E9 come out as they are. */
  lemma FlagIgnored()
    ensures var s: bytes := [0xC3, 0xA9];
            WellFormed(s, 0) && EscapeResult(s, Flags(false, true)) == s && !AllAscii(s)
  {
  }

  /** No control character, and with FLAG_ESCAPE_SOLIDUS no solidus without a backslash before it. */
  predicate Clean(t: bytes, flags: Flags) {
    forall k :: 0 <= k < |t| ==> CleanAt(t, k, flags)
  }

  predicate CleanAt(t: bytes, k: nat, flags: Flags)
    requires k < |t|
  {
    t[k] >= 32 && (flags.solidus && t[k] == SOLIDUS ==> k > 0 && t[k - 1] == BACKSLASH)
  }

  lemma CleanConcat(a: bytes, b: bytes, flags: Flags)
    requires Clean(a, flags) && Clean(b, flags)
    ensures Clean(a + b, flags)
  {
    forall k | 0 <= k < |a + b|
      ensures CleanAt(a + b, k, flags)
    {
      if k >= |a| {
        assert CleanAt(b, k - |a|, flags);
      } else {
        assert CleanAt(a, k, flags);
      }
    }
  }

  lemma HexClean(code: uint16, flags: Flags)
    ensures Clean([BACKSLASH, 0x75] + Hex.Text16(code), flags)
  {
  }

  lemma CodeClean(code: uint32, flags: Flags)
    requires IsScalar(code)
    ensures Clean(CodeText(code), flags)
  {
  }

  lemma PieceClean(s: bytes, i: nat, flags: Flags)
    requires CharLength(s, i) > 0
    ensures Clean(PieceText(s, i, flags), flags)
  {
    hide CodeText, CodeOf, BytesOf, Hex.Text16;
    CharRoundTrip(s, i);
    if s[i] < 32 {
      HexClean(s[i], flags);
    } else if s[i] >= 128 && flags.utf8Char {
      CodeClean(CodeOf(s, i), flags);
    }
  }

  lemma {:induction false} EscapedClean(s: bytes, i: nat, flags: Flags)
    requires i <= |s| && WellFormed(s, i)
    ensures Clean(Escaped(s, i, flags), flags)
    decreases |s| - i
  {
    hide PieceText, Clean;
    if i < |s| {
      CharRoundTrip(s, i);
      PieceClean(s, i, flags);
      EscapedClean(s, i + CharLength(s, i), flags);
      CleanConcat(PieceText(s, i, flags), Escaped(s, i + CharLength(s, i), flags), flags);
    } else {
      NothingClean(flags);
    }
  }

  lemma NothingClean(flags: Flags)
    ensures Clean([], flags)
  {
  }

  /** The escaped form of a well-formed string has no control character, as section 7 of RFC 8259 asks, and with
      FLAG_ESCAPE_SOLIDUS every solidus is escaped. */
  lemma OutputClean(s: bytes, flags: Flags)
    requires WellFormed(s, 0)
    ensures Clean(EscapeResult(s, flags), flags)
  {
    hide Escaped, WellFormed;
    EscapeRoundTrip.RoundTrip(s, flags);
    if TakesShortcut(s, flags) {
      ShortcutCopies(s, flags);
      SimpleClean(s, flags);
    } else {
      EscapedClean(s, 0, flags);
    }
  }

  lemma SimpleClean(s: bytes, flags: Flags)
    requires TakesShortcut(s, flags)
    ensures Clean(s, flags)
  {
  }
}

/** The escaped form of a string as the inside of a literal, section 7 of RFC 8259. `escapeString` looks at the lead
    byte of a sequence only: the other bytes it claims are copied whatever they are. */
module EscapeLegal {
  import opened Bytes
  import opened Unicode
  import opened Escape
  import opened Literals
  import opened Sequences
  import opened StringGrammar
  import opened Unescape
  import EscapeRoundTrip
  import Hex

  /** Legal text in front of legal text. */
  lemma {:induction false} LegalConcat(a: bytes, k: nat, b: bytes)
    requires k <= |a| && Legal(a, k) && Legal(b, 0)
    ensures Legal(a + b, k)
    decreases |a| - k
  {
    if k == |a| {
      LegalLater(a, b, 0);
    } else {
      var n := if a[k] != BACKSLASH then k + 1 else if k + 1 < |a| && IsShort(a[k + 1]) then k + 2 else k + 6;
      LegalConcat(a, n, b);
      assert forall j :: k <= j < n ==> (a + b)[j] == a[j];
    }
  }

  lemma {:induction false} LegalLater(a: bytes, b: bytes, k: nat)
    requires k <= |b| && Legal(b, k)
    ensures Legal(a + b, |a| + k)
    decreases |b| - k
  {
    if k < |b| {
      var n := if b[k] != BACKSLASH then k + 1 else if k + 1 < |b| && IsShort(b[k + 1]) then k + 2 else k + 6;
      LegalLater(a, b, n);
      assert forall j :: k <= j < n ==> (a + b)[|a| + j] == b[j];
    }
  }

  lemma {:induction false} PlainBody(s: bytes, from: nat)
    requires from <= |s| && forall k :: from <= k < |s| ==> IsUnescaped(s[k])
    ensures Legal(s, from)
    decreases |s| - from
  {
    if from < |s| {
      PlainBody(s, from + 1);
    }
  }

  lemma HexBody(code: uint16)
    ensures Legal([BACKSLASH, LETTER_U] + Hex.Text16(code), 0)
  {
    var t := [BACKSLASH, LETTER_U] + Hex.Text16(code);
    assert IsAtText(t, 0, t);
    EscapeRoundTrip.ReadFour(t, 0, code);
    NothingLegal(t);
  }

  lemma ShortBody(c: byte)
    requires IsShort(c)
    ensures Legal(ShortEscape(c), 0)
  {
    NothingLegal(ShortEscape(c));
  }

  lemma ControlBody(a: byte)
    requires a < 32
    ensures Legal(ControlText(a), 0)
  {
    hide Legal, ShortEscape;
    if a == 8 { ShortBody(0x62); }
    else if a == 12 { ShortBody(0x66); }
    else if a == 10 { ShortBody(0x6E); }
    else if a == 13 { ShortBody(0x72); }
    else if a == 9 { ShortBody(0x74); }
    else { HexBody(a); }
  }

  lemma CodeBody(code: uint32)
    requires IsScalar(code)
    ensures Legal(CodeText(code), 0)
  {
    hide Hex.Text16, HighSurrogate, LowSurrogate, Legal;
    if code < 0x1_0000 {
      HexBody(code);
    } else {
      var high := [BACKSLASH, LETTER_U] + Hex.Text16(HighSurrogate(code));
      var low := [BACKSLASH, LETTER_U] + Hex.Text16(LowSurrogate(code));
      HexBody(HighSurrogate(code));
      HexBody(LowSurrogate(code));
      LegalConcat(high, 0, low);
      assert high + low == CodeText(code);
    }
  }

  lemma PieceBody(s: bytes, i: nat, flags: Flags)
    requires CharLength(s, i) > 0
    ensures Legal(PieceText(s, i, flags), 0)
  {
    hide CodeText, ControlText, CodeOf, BytesOf, Legal;
    CharRoundTrip(s, i);
    var t := PieceText(s, i, flags);
    if s[i] < 32 {
      ControlBody(s[i]);
    } else if s[i] < 128 {
      AsciiBody(s[i], flags);
    } else if !flags.utf8Char {
      PlainBody(t, 0);
    } else {
      CodeBody(CodeOf(s, i));
    }
  }

  lemma AsciiBody(a: byte, flags: Flags)
    requires a >= 32
    ensures Legal(AsciiText(a, flags), 0)
  {
    if AsciiText(a, flags) == ShortEscape(a) {
      ShortBody(a);
    } else {
      PlainBody([a], 0);
    }
  }

  /** The escaped form of a well-formed string is the inside of a literal by RFC 8259, section 7. */
  lemma {:induction false} EscapedBody(s: bytes, i: nat, flags: Flags)
    requires i <= |s| && WellFormed(s, i)
    ensures Legal(Escaped(s, i, flags), 0)
    decreases |s| - i
  {
    hide PieceText, Legal;
    if i < |s| {
      var n := CharLength(s, i);
      CharRoundTrip(s, i);
      EscapedBody(s, i + n, flags);
      PieceBody(s, i, flags);
      LegalConcat(PieceText(s, i, flags), 0, Escaped(s, i + n, flags));
    } else {
      PlainBody([], 0);
    }
  }

  // ----- Any bytes, without FLAG_ESCAPE_UTF8CHAR -----

  predicate AllUnescaped(t: bytes) {
    forall k :: 0 <= k < |t| ==> IsUnescaped(t[k])
  }

  /** The bytes of complete sequences, lead bytes aside, may stand for themselves in a literal. */
  predicate ClaimsPlain(s: bytes, i: nat)
    decreases |s| - i
  {
    if i >= |s| || i + Claim(s[i]) > |s| then true
    else AllUnescaped(s[i + 1..i + Claim(s[i])]) && ClaimsPlain(s, i + Claim(s[i]))
  }

  lemma ClaimPlain(s: bytes, i: nat)
    requires i < |s| && s[i] >= 128 && i + Claim(s[i]) <= |s| && ClaimsPlain(s, i)
    ensures AllUnescaped(s[i..i + Claim(s[i])])
  {
    var whole, rest := s[i..i + Claim(s[i])], s[i + 1..i + Claim(s[i])];
    forall k | 0 <= k < |whole|
      ensures IsUnescaped(whole[k])
    {
      assert k > 0 ==> whole[k] == rest[k - 1];
    }
  }

  lemma {:induction false} MarksPlain(n: nat)
    ensures AllUnescaped(Repeat(QUESTION, n))
    decreases n
  {
    if n > 0 {
      MarksPlain(n - 1);
    }
  }

  lemma PlainPiece(s: bytes, i: nat, flags: Flags)
    requires i < |s| && ClaimsPlain(s, i) && !flags.utf8Char
    ensures Legal(PieceText(s, i, flags), 0)
  {
    hide ControlText, AsciiText, Legal, ClaimsPlain;
    if s[i] < 32 {
      ControlBody(s[i]);
    } else if s[i] < 128 {
      AsciiBody(s[i], flags);
    } else if i + Claim(s[i]) > |s| {
      MarksPlain(Claim(s[i]));
      PlainBody(PieceText(s, i, flags), 0);
    } else {
      ClaimPlain(s, i);
      PlainBody(PieceText(s, i, flags), 0);
    }
  }

  lemma NextPlain(s: bytes, i: nat)
    requires i < |s| && ClaimsPlain(s, i)
    ensures ClaimsPlain(s, i + Claim(s[i]))
  {
  }

  lemma {:induction false} PlainEscaped(s: bytes, i: nat, flags: Flags)
    requires ClaimsPlain(s, i) && !flags.utf8Char
    ensures Legal(Escaped(s, i, flags), 0)
    decreases |s| - i
  {
    hide PieceText, Legal, ClaimsPlain;
    if i < |s| {
      NextPlain(s, i);
      PlainEscaped(s, i + Claim(s[i]), flags);
      PlainPiece(s, i, flags);
      LegalConcat(PieceText(s, i, flags), 0, Escaped(s, i + Claim(s[i]), flags));
    } else {
      PlainBody([], 0);
    }
  }

  /** What is left of s from position i on when it has been escaped and unescaped: a sequence that the end cuts short
      has become question marks. */
  function Kept(s: bytes, i: nat): bytes
    requires i <= |s|
  {
    s[i..SafeSize(s, i)] + (if SafeSize(s, i) < |s| then Repeat(QUESTION, Claim(s[SafeSize(s, i)])) else [])
  }

  /** Plain bytes at the end of a text stand for themselves. */
  lemma {:induction false} PlainReads(e: bytes, j: nat, t: bytes, tail: bytes)
    requires IsAtText(e, j, t) && AllUnescaped(t)
    requires Unescaped(e, j + |t|) == Text(tail)
    ensures Unescaped(e, j) == Text(t + tail)
  {
    forall k | j <= k < j + |t|
      ensures e[k] != BACKSLASH
    {
      ByteOfText(e, j, t, k - j);
    }
    EscapeRoundTrip.ReadPlain(e, j, |t|, tail);
    TextIsSlice(e, j, t);
  }

  /** What is written for a complete unit reads back as that unit. */
  lemma UnitReads(s: bytes, i: nat, flags: Flags, e: bytes, j: nat, tail: bytes)
    requires i < |s| && i + Claim(s[i]) <= |s| && ClaimsPlain(s, i) && !flags.utf8Char
    requires IsAtText(e, j, PieceText(s, i, flags))
    requires Unescaped(e, j + |PieceText(s, i, flags)|) == Text(tail)
    ensures Unescaped(e, j) == Text(s[i..i + Claim(s[i])] + tail)
  {
    hide StepAt, ControlText, ClaimsPlain, Unescaped;
    var t := PieceText(s, i, flags);
    if s[i] < 32 {
      EscapeRoundTrip.ReadControl(e, j, s[i]);
      EscapeRoundTrip.ReadStep(e, j, |t|, [s[i]], tail);
    } else if s[i] < 128 && t != [s[i]] {
      EscapeRoundTrip.ReadShort(e, j, s[i]);
      EscapeRoundTrip.ReadStep(e, j, 2, [s[i]], tail);
    } else if s[i] < 128 {
      PlainReads(e, j, t, tail);
    } else {
      ClaimPlain(s, i);
      PlainReads(e, j, t, tail);
    }
    if s[i] < 128 {
      assert s[i..i + 1] == [s[i]];
    }
  }

  lemma {:induction false} BytesRead(s: bytes, i: nat, flags: Flags, e: bytes, j: nat)
    requires i <= |s| && ClaimsPlain(s, i) && !flags.utf8Char
    requires j <= |e| && e[j..] == Escaped(s, i, flags)
    ensures Unescaped(e, j) == Text(Kept(s, i))
    decreases |s| - i
  {
    hide StepAt, PieceText, ClaimsPlain, Unescaped;
    if i == |s| {
      EndReads(e, j);
    } else if i + Claim(s[i]) > |s| {
      CutOffText(s, i, flags);
      CutOffSize(s, i, flags);
      var marks := Repeat(QUESTION, Claim(s[i]));
      assert marks == marks + [];
      SplitSuffix(e, j, marks, []);
      EndReads(e, |e|);
      MarksPlain(Claim(s[i]));
      PlainReads(e, j, marks, []);
      assert s[i..i] + marks == marks;
    } else {
      var n := i + Claim(s[i]);
      var t := PieceText(s, i, flags);
      SplitSuffix(e, j, t, Escaped(s, n, flags));
      NextPlain(s, i);
      BytesRead(s, n, flags, e, j + |t|);
      UnitReads(s, i, flags, e, j, Kept(s, n));
      KeptParts(s, i, n);
    }
  }

  lemma EndReads(e: bytes, j: nat)
    requires j >= |e|
    ensures Unescaped(e, j) == Text([])
  {
  }

  lemma CutOffSize(s: bytes, i: nat, flags: Flags)
    requires i < |s| && i + Claim(s[i]) > |s|
    ensures |Escaped(s, i, flags)| == Claim(s[i]) && SafeSize(s, i) == i
  {
    assert s[i] >= 128;
    assert Escaped(s, i + Claim(s[i]), flags) == [];
  }

  lemma KeptParts(s: bytes, i: nat, n: nat)
    requires i < |s| && n == i + Claim(s[i]) <= |s|
    ensures s[i..n] + Kept(s, n) == Kept(s, i)
  {
    assert SafeSize(s, i) == SafeSize(s, n);
    assert s[i..n] + s[n..SafeSize(s, n)] == s[i..SafeSize(s, n)];
  }

  /** Escaping never shortens, and a sequence that is cut off makes the escaped form longer. */
  lemma {:induction false} EscapedSize(s: bytes, i: nat, flags: Flags)
    requires i <= |s| && !flags.utf8Char
    ensures |Escaped(s, i, flags)| >= |s| - i
    ensures SafeSize(s, i) < |s| ==> |Escaped(s, i, flags)| > |s| - i
    decreases |s| - i
  {
    hide ControlText, AsciiText;
    if i < |s| {
      PieceSize(s, i, flags);
      if i + Claim(s[i]) <= |s| {
        hide PieceText;
        EscapedSize(s, i + Claim(s[i]), flags);
      }
    }
  }

  lemma PieceSize(s: bytes, i: nat, flags: Flags)
    requires i < |s| && !flags.utf8Char
    ensures |PieceText(s, i, flags)| >= Claim(s[i])
  {
  }

  /** For every byte string whose claimed bytes may stand bare: the output is legal; and it reads back as the input if
      and only if no sequence is cut off at the end or the shortcut for simple strings is taken. */
  lemma BytesRoundTrip(s: bytes, flags: Flags)
    requires ClaimsPlain(s, 0) && !flags.utf8Char
    ensures Legal(EscapeResult(s, flags), 0)
    ensures Unescaped(EscapeResult(s, flags), 0) == Text(s) <==> SafeSize(s, 0) == |s| || TakesShortcut(s, flags)
  {
    hide Escaped, ClaimsPlain, Legal, SafeSize, StepAt;
    var e := Escaped(s, 0, flags);
    if TakesShortcut(s, flags) {
      assert s[0..] == s;
      PlainBody(s, 0);
      PlainText(s, 0);
    } else {
      assert e[0..] == e;
      PlainEscaped(s, 0, flags);
      BytesRead(s, 0, flags, e, 0);
      EscapedSize(s, 0, flags);
      KeptIsInput(s);
      if |e| == |s| {
        SameSize(s, e);
      }
    }
  }

  /** Only a cut-off sequence is lost. */
  lemma KeptIsInput(s: bytes)
    ensures Kept(s, 0) == s <==> SafeSize(s, 0) == |s|
  {
    hide SafeSize;
    SafeSizeStops(s, 0);
    assert s[0..|s|] + [] == s;
  }

  /** An escaped form of the length of what it reads back as is that itself. */
  lemma SameSize(s: bytes, e: bytes)
    requires Unescaped(e, 0) == Text(s) && |e| == |s|
    ensures e == s
  {
    assert e[0..] == e;
    EscapesShrink(e, 0);
    PlainText(e, 0);
  }

  /** Where a sequence claims a quote, the quote comes out bare: the printed literal would end at it. */
  lemma SwallowedQuote()
    ensures var s: bytes := [0xC3, QUOTE];
            && EscapeResult(s, Flags(false, false)) == s && !IsBody(s, 0, |s|)
            && ClosingQuote([QUOTE] + s + [QUOTE], 1) == At(2)
  {
    var s: bytes := [0xC3, QUOTE];
    assert Escaped(s, 2, Flags(false, false)) == [];
    assert Escaped(s, 0, Flags(false, false)) == s[0..2] + [] == s;
    assert !IsBody(s, 1, |s|);
    var text := [QUOTE] + s + [QUOTE];
    assert text[1] == 0xC3 && text[2] == QUOTE;
  }
}

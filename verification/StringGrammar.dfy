/** The inside of a string literal by RFC 8259, section 7, and exactly how far `unescapeString` agrees with it. */
module StringGrammar {
  import opened Bytes
  import opened Literals
  import opened Unescape
  import Hex
  import Unicode

  /** A byte that may stand for itself. */
  predicate IsUnescaped(b: byte) {
    b >= 0x20 && b != QUOTE && b != BACKSLASH
  }

  /** A backslash, a u and four hexadecimal digits. */
  predicate IsUnicodeEscape(s: bytes, i: nat) {
    i + 6 <= |s| && s[i] == BACKSLASH && s[i + 1] == LETTER_U && Hex.FourAt(s, i + 2).Value?
  }

  predicate IsHighEscape(s: bytes, i: nat) {
    IsUnicodeEscape(s, i) && IsHigh(Hex.FourAt(s, i + 2).code)
  }

  predicate IsLowEscape(s: bytes, i: nat) {
    IsUnicodeEscape(s, i) && IsLow(Hex.FourAt(s, i + 2).code)
  }

  /** The form `\u+` that the escaper of the source writes beyond U+10FFFF. */
  predicate IsPlusForm(s: bytes, i: nat) {
    i + 2 < |s| && s[i] == BACKSLASH && s[i + 1] == LETTER_U && s[i + 2] == PLUS
  }

  /** Section 7: unescaped bytes, two-character escapes, and `\u` with four digits. */
  predicate Legal(s: bytes, i: nat)
    requires i <= |s|
    decreases |s| - i
  {
    if i == |s| then true
    else if s[i] != BACKSLASH then IsUnescaped(s[i]) && Legal(s, i + 1)
    else if i + 1 < |s| && IsShort(s[i + 1]) then Legal(s, i + 2)
    else IsUnicodeEscape(s, i) && Legal(s, i + 6)
  }

  /** Where the unit at position i ends, for text that need not be legal. */
  function AfterUnit(s: bytes, i: nat): (r: nat)
    requires i < |s|
    ensures i < r
  {
    if s[i] != BACKSLASH then i + 1 else if IsUnicodeEscape(s, i) then i + 6 else i + 2
  }

  /** Every escape of a high surrogate is followed by one of a low surrogate. */
  predicate Paired(s: bytes, i: nat)
    decreases |s| - i
  {
    if i >= |s| then true
    else if IsHighEscape(s, i) then IsLowEscape(s, i + 6) && Paired(s, i + 12)
    else Paired(s, AfterUnit(s, i))
  }

  /** The four digits of a low surrogate, without regard to what stands before them. */
  predicate LowDigits(s: bytes, i: nat) {
    i + 4 <= |s| && Hex.FourAt(s, i).Value? && IsLow(Hex.FourAt(s, i).code)
  }

  /** Every escape of a high surrogate has, two bytes after it, the digits of a low surrogate. */
  predicate Answered(s: bytes, i: nat)
    decreases |s| - i
  {
    if i >= |s| then true
    else if IsHighEscape(s, i) then LowDigits(s, i + 8) && Answered(s, i + 12)
    else Answered(s, AfterUnit(s, i))
  }

  /** What may stand between the halves of a pair in legal text: the start of an escape, a two-character escape, or two
      bytes that stand for themselves. */
  predicate LegalGap(a: byte, b: byte) {
    (a == BACKSLASH && (b == LETTER_U || IsShort(b))) || (IsUnescaped(a) && IsUnescaped(b))
  }

  /** No bare control byte, no `\u+`, and between the halves of every pair only what may stand there. */
  predicate Regular(s: bytes, i: nat)
    decreases |s| - i
  {
    if i >= |s| then true
    else if s[i] != BACKSLASH then s[i] >= 0x20 && Regular(s, i + 1)
    else if IsHighEscape(s, i) && i + 12 <= |s| then LegalGap(s[i + 6], s[i + 7]) && Regular(s, i + 12)
    else !IsPlusForm(s, i) && Regular(s, AfterUnit(s, i))
  }

  /** No bare control byte, no `\u+`, and `\u` between the halves of every pair. */
  predicate Proper(s: bytes, i: nat)
    decreases |s| - i
  {
    if i >= |s| then true
    else if s[i] != BACKSLASH then s[i] >= 0x20 && Proper(s, i + 1)
    else if IsHighEscape(s, i) && i + 12 <= |s| then s[i + 6] == BACKSLASH && s[i + 7] == LETTER_U && Proper(s, i + 12)
    else !IsPlusForm(s, i) && Proper(s, AfterUnit(s, i))
  }

  // ----- Digits stand for themselves -----

  lemma HexStands(b: byte)
    requires Hex.IsHex(b)
    ensures IsUnescaped(b)
  {
  }

  lemma FourStand(s: bytes, i: nat)
    requires i + 4 <= |s| && Hex.FourAt(s, i).Value?
    ensures Legal(s, i) == Legal(s, i + 4)
    ensures IsBody(s, i, |s|) == IsBody(s, i + 4, |s|)
  {
    HexStands(s[i]);
    HexStands(s[i + 1]);
    HexStands(s[i + 2]);
    HexStands(s[i + 3]);
    assert Legal(s, i + 2) == Legal(s, i + 3) == Legal(s, i + 4);
    assert IsBody(s, i + 2, |s|) == IsBody(s, i + 3, |s|) == IsBody(s, i + 4, |s|);
  }

  lemma EightStand(s: bytes, i: nat)
    requires i + 8 <= |s| && Hex.EightAt(s, i).Value?
    ensures IsBody(s, i, |s|) == IsBody(s, i + 8, |s|)
  {
    FourStand(s, i);
    FourStand(s, i + 4);
  }

  /** The first digit of a low surrogate is a D. */
  lemma LowStartsWithD(s: bytes, i: nat)
    requires LowDigits(s, i)
    ensures s[i] == 0x44 || s[i] == 0x64
  {
    assert Hex.DigitValue(s[i]) == 13;
  }

  /** What stands between a high escape and the digits of a low surrogate. */
  lemma GapInLegal(s: bytes, i: nat)
    requires i + 6 <= |s| && LowDigits(s, i + 2)
    ensures Legal(s, i) <==> LegalGap(s[i], s[i + 1]) && Legal(s, i + 6)
  {
    LowStartsWithD(s, i + 2);
    FourStand(s, i + 2);
    if s[i] != BACKSLASH {
      assert Legal(s, i) <==> IsUnescaped(s[i]) && Legal(s, i + 1);
      assert Legal(s, i + 1) <==> IsUnescaped(s[i + 1]) && Legal(s, i + 2);
    }
  }

  lemma GapInBody(s: bytes, i: nat)
    requires i + 6 <= |s| && LowDigits(s, i + 2) && IsBody(s, i, |s|)
    ensures IsBody(s, i + 6, |s|)
  {
    LowStartsWithD(s, i + 2);
    FourStand(s, i + 2);
    if s[i] != BACKSLASH && s[i + 1] == BACKSLASH {
      assert IsBody(s, i + 3, |s|);
      ThreeStand(s, i + 3);
    }
  }

  lemma ThreeStand(s: bytes, i: nat)
    requires 0 < i && i + 3 <= |s| && Hex.FourAt(s, i - 1).Value?
    ensures IsBody(s, i, |s|) == IsBody(s, i + 3, |s|)
  {
    HexStands(s[i]);
    HexStands(s[i + 1]);
    HexStands(s[i + 2]);
    assert IsBody(s, i + 1, |s|) == IsBody(s, i + 2, |s|) == IsBody(s, i + 3, |s|);
  }

  // ----- Which legal texts are accepted -----

  lemma UnitOfLegal(s: bytes, i: nat)
    requires i < |s| && Legal(s, i)
    ensures AfterUnit(s, i) <= |s| && Legal(s, AfterUnit(s, i))
    ensures !IsHighEscape(s, i) ==> StepAt(s, i).Good? && i + StepAt(s, i).used == AfterUnit(s, i)
  {
    hide Unicode.BytesOf, Unicode.PairToCode, IsHigh;
    PlusIsNoDigit(s, i);
  }

  lemma PlusIsNoDigit(s: bytes, i: nat)
    requires i < |s|
    ensures IsUnicodeEscape(s, i) ==> s[i + 2] != PLUS && !IsShort(LETTER_U)
  {
  }

  lemma StepOfHigh(s: bytes, i: nat)
    requires i < |s| && IsHighEscape(s, i)
    ensures StepAt(s, i).Good? <==> LowDigits(s, i + 8)
    ensures StepAt(s, i).Good? ==> StepAt(s, i).used == 12
  {
    hide Unicode.BytesOf, Unicode.PairToCode, IsHigh, IsLow, Hex.FourAt;
    PlusIsNoDigit(s, i);
  }

  /** A legal text is accepted if and only if every escape of a high surrogate has the digits of a low one two bytes
      on. */
  lemma {:induction false} LegalAccepted(s: bytes, i: nat)
    requires i <= |s| && Legal(s, i)
    ensures Unescaped(s, i).Text? <==> Answered(s, i)
    decreases |s| - i
  {
    hide StepAt, IsHighEscape, LowDigits, Legal;
    if i < |s| {
      UnitOfLegal(s, i);
      if IsHighEscape(s, i) {
        StepOfHigh(s, i);
        if LowDigits(s, i + 8) {
          AfterHigh(s, i);
          LegalAccepted(s, i + 12);
        }
      } else {
        LegalAccepted(s, AfterUnit(s, i));
      }
    }
  }

  lemma AfterHigh(s: bytes, i: nat)
    requires i < |s| && Legal(s, i) && IsHighEscape(s, i) && LowDigits(s, i + 8)
    ensures i + 12 <= |s| && Legal(s, i + 12)
  {
    GapInLegal(s, i + 6);
  }

  /** Text with all its surrogates in pairs is accepted. */
  lemma {:induction false} PairedIsAnswered(s: bytes, i: nat)
    requires Paired(s, i)
    ensures Answered(s, i)
    decreases |s| - i
  {
    hide AfterUnit, IsHigh, IsLow;
    if i < |s| {
      PairedIsAnswered(s, if IsHighEscape(s, i) then i + 12 else AfterUnit(s, i));
    }
  }

  // ----- Which accepted texts are legal -----

  /** One accepted unit of a closed text: it moves to the end of a unit of the closed text. */
  lemma StepInBody(s: bytes, i: nat)
    requires i < |s| && IsBody(s, i, |s|) && StepAt(s, i).Good?
    ensures i + StepAt(s, i).used <= |s| && IsBody(s, i + StepAt(s, i).used, |s|)
  {
    hide Unicode.BytesOf, Unicode.PairToCode, IsHigh, IsLow, Hex.FourAt, Hex.EightAt;
    if s[i] == BACKSLASH && !IsShort(s[i + 1]) {
      assert IsBody(s, i + 2, |s|);
      if s[i + 2] == PLUS {
        assert IsBody(s, i + 3, |s|);
        EightStand(s, i + 3);
      } else {
        FourStand(s, i + 2);
        if StepAt(s, i).used == 12 {
          assert LowDigits(s, i + 8);
          GapInBody(s, i + 6);
        }
      }
    }
  }

  /** One accepted unit, seen by the grammar and by the two conditions. */
  lemma StepLegal(s: bytes, i: nat)
    requires i < |s| && IsBody(s, i, |s|) && StepAt(s, i).Good?
    ensures i + StepAt(s, i).used <= |s|
    ensures var n := i + StepAt(s, i).used;
            if s[i] != BACKSLASH then n == i + 1 && (Legal(s, i) <==> s[i] >= 0x20 && Legal(s, n))
            else if IsHighEscape(s, i) then
              n == i + 12 && LowDigits(s, i + 8) && (Legal(s, i) <==> LegalGap(s[i + 6], s[i + 7]) && Legal(s, n))
            else if IsPlusForm(s, i) then !Legal(s, i)
            else n == AfterUnit(s, i) && (Legal(s, i) <==> Legal(s, n))
  {
    hide Unicode.BytesOf, Unicode.PairToCode, IsHigh, IsLow, Hex.FourAt, Hex.EightAt;
    if s[i] == BACKSLASH && !IsShort(s[i + 1]) {
      PlusIsNoDigit(s, i);
      if IsHighEscape(s, i) {
        StepOfHigh(s, i);
        FourStand(s, i + 2);
        GapInLegal(s, i + 6);
      }
    }
  }

  /** An accepted closed text is legal if and only if it has no bare control byte, no `\u+`, and between the halves of a
      pair only what may stand there. */
  lemma {:induction false} AcceptedLegal(s: bytes, i: nat)
    requires i <= |s| && IsBody(s, i, |s|) && Unescaped(s, i).Text?
    ensures Legal(s, i) <==> Regular(s, i)
    decreases |s| - i
  {
    hide StepAt, IsHighEscape, LowDigits, Legal, IsBody, LegalGap, AfterUnit;
    if i < |s| {
      StepInBody(s, i);
      StepLegal(s, i);
      AcceptedLegal(s, i + StepAt(s, i).used);
    } else {
      NothingLegal(s);
    }
  }

  lemma NothingLegal(s: bytes)
    ensures Legal(s, |s|)
  {
  }

  /** It is legal with all its surrogates in pairs if and only if it has no bare control byte, no `\u+`, and `\u`
      between the halves of every pair. */
  lemma {:induction false} AcceptedPaired(s: bytes, i: nat)
    requires i <= |s| && IsBody(s, i, |s|) && Unescaped(s, i).Text?
    ensures Legal(s, i) && Paired(s, i) <==> Proper(s, i)
    decreases |s| - i
  {
    hide StepAt, IsHighEscape, LowDigits, Legal, IsBody, LegalGap, AfterUnit;
    if i < |s| {
      StepInBody(s, i);
      StepLegal(s, i);
      if s[i] != BACKSLASH {
        PlainUnit(s, i);
      } else if IsHighEscape(s, i) {
        GapOfPair(s, i + 6);
      }
      AcceptedPaired(s, i + StepAt(s, i).used);
    } else {
      NothingLegal(s);
    }
  }

  lemma GapOfPair(s: bytes, i: nat)
    requires i + 6 <= |s| && LowDigits(s, i + 2)
    ensures IsLowEscape(s, i) <==> s[i] == BACKSLASH && s[i + 1] == LETTER_U
    ensures IsLowEscape(s, i) ==> LegalGap(s[i], s[i + 1])
  {
  }

  lemma PlainUnit(s: bytes, i: nat)
    requires i < |s| && s[i] != BACKSLASH
    ensures !IsHighEscape(s, i) && AfterUnit(s, i) == i + 1
  {
  }

  /** Legal text is closed. */
  lemma {:induction false} LegalIsClosed(s: bytes, i: nat)
    requires i <= |s| && Legal(s, i)
    ensures IsBody(s, i, |s|)
    decreases |s| - i
  {
    if i < |s| {
      if s[i] != BACKSLASH {
        LegalIsClosed(s, i + 1);
      } else if i + 1 < |s| && IsShort(s[i + 1]) {
        LegalIsClosed(s, i + 2);
      } else {
        LegalIsClosed(s, i + 6);
        FourStand(s, i + 2);
      }
    }
  }

  /** The pair `\uD800xyDC00`: legal as it stands and accepted, but read as one character. */
  const ODD_PAIR: bytes := [BACKSLASH, LETTER_U, 0x44, 0x38, 0x30, 0x30, 0x78, 0x79, 0x44, 0x43, 0x30, 0x30]

  /** Legal, accepted and paired are not the same: the two bytes between the halves are not looked at. */
  lemma OddPair()
    ensures Legal(ODD_PAIR, 0) && Unescaped(ODD_PAIR, 0).Text? && !Paired(ODD_PAIR, 0)
  {
    hide Legal, Unescaped;
    var s := ODD_PAIR;
    assert |s| == 12 && Hex.FourAt(s, 2) == Hex.Value(0xD800) && Hex.FourAt(s, 8) == Hex.Value(0xDC00);
    NothingLegal(s);
    GapInLegal(s, 6);
    HighIsLegal(s, 0);
    assert Answered(s, 12);
    LegalAccepted(s, 0);
  }

  lemma HighIsLegal(s: bytes, i: nat)
    requires IsUnicodeEscape(s, i) && Legal(s, i + 6)
    ensures Legal(s, i)
  {
  }

  /** A lone high surrogate, `\ud800`, is legal and refused. */
  const LONE_HIGH: bytes := [BACKSLASH, LETTER_U, 0x64, 0x38, 0x30, 0x30]

  lemma LoneHigh()
    ensures Legal(LONE_HIGH, 0) && Unescaped(LONE_HIGH, 0).Failed?
  {
    hide Legal, Unescaped;
    var s := LONE_HIGH;
    assert |s| == 6 && Hex.FourAt(s, 2) == Hex.Value(0xD800);
    NothingLegal(s);
    HighIsLegal(s, 0);
    LegalAccepted(s, 0);
  }
}

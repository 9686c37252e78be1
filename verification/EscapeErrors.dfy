/** Which text `unescapeString` refuses, where, and with which error; and the form `\u+`. */
module EscapeErrors {
  import opened Bytes
  import opened Unescape
  import Hex
  import Unicode

  predicate DigitsAt(s: bytes, p: nat, n: nat) {
    p + n <= |s| && forall k :: p <= k < p + n ==> Hex.IsHex(s[k])
  }

  predicate NoDigitsAt(s: bytes, p: nat, n: nat) {
    p + n <= |s| && exists k :: p <= k < p + n && !Hex.IsHex(s[k])
  }

  function NumberAt(s: bytes, p: nat): int
    requires p + 4 <= |s|
  {
    Hex.NumberOf(s[p..p + 4])
  }

  /** A backslash at the end, before a letter that is none of the nine, or before a `u` with too little after it. */
  predicate Incomplete(s: bytes, i: nat) {
    i < |s| && s[i] == BACKSLASH
    && (i + 1 == |s|
        || (!IsShort(s[i + 1]) && s[i + 1] != LETTER_U)
        || (s[i + 1] == LETTER_U && i + 6 > |s|)
        || (s[i + 1] == LETTER_U && s[i + 2] == PLUS && i + 11 > |s|))
  }

  /** `\u` and something that is no digit where digits must stand: the four after it, the eight after a plus sign, or
      the four two bytes after a high surrogate. */
  predicate BadDigits(s: bytes, i: nat, at: nat) {
    i + 6 <= |s| && s[i] == BACKSLASH && s[i + 1] == LETTER_U
    && if s[i + 2] == PLUS then at == i + 3 && NoDigitsAt(s, at, 8)
       else || (at == i + 2 && NoDigitsAt(s, at, 4))
            || (at == i + 8 && DigitsAt(s, i + 2, 4) && IsHigh(NumberAt(s, i + 2)) && NoDigitsAt(s, at, 4))
  }

  /** A high surrogate with too little after it, or with digits two bytes on that are no low surrogate. */
  predicate Unanswered(s: bytes, i: nat) {
    i + 6 <= |s| && s[i] == BACKSLASH && s[i + 1] == LETTER_U && DigitsAt(s, i + 2, 4) && IsHigh(NumberAt(s, i + 2))
    && (i + 12 > |s| || (DigitsAt(s, i + 8, 4) && !IsLow(NumberAt(s, i + 8))))
  }

  /** What is wrong with the escape at position i. */
  predicate WrongAt(s: bytes, i: nat, error: nat, at: nat) {
    || (error == INVALID_ESCAPED_CHAR && at == i && Incomplete(s, i))
    || (error == UNKNOWN_SYMBOL && BadDigits(s, i, at))
    || (error == INVALID_SURROGATE_PAIR && at == i && Unanswered(s, i))
  }

  lemma FourIs(s: bytes, p: nat)
    requires p + 4 <= |s|
    ensures Hex.FourAt(s, p).Value? <==> DigitsAt(s, p, 4)
    ensures Hex.FourAt(s, p).Value? ==> Hex.FourAt(s, p).code == NumberAt(s, p)
    ensures Hex.FourAt(s, p).UnknownSymbol? <==> NoDigitsAt(s, p, 4)
  {
    Hex.ReadFourAt(s, p);
  }

  lemma EightIs(s: bytes, p: nat)
    requires p + 8 <= |s|
    ensures Hex.EightAt(s, p).UnknownSymbol? <==> NoDigitsAt(s, p, 8)
  {
    Hex.ReadEightAt(s, p);
  }

  lemma PlusIsNone(s: bytes, p: nat)
    requires p < |s|
    ensures s[p] == PLUS ==> !DigitsAt(s, p, 4)
  {
  }

  lemma StepWrong(s: bytes, i: nat, error: nat, at: nat)
    requires i < |s|
    ensures StepAt(s, i) == Bad(error, at) <==> WrongAt(s, i, error, at)
  {
    hide DigitsAt, NoDigitsAt, NumberAt, Hex.FourAt, Hex.EightAt;
    if s[i] == BACKSLASH && i + 6 <= |s| && s[i + 1] == LETTER_U {
      FourIs(s, i + 2);
      PlusIsNone(s, i + 2);
      if i + 11 <= |s| {
        EightIs(s, i + 3);
      }
      if i + 12 <= |s| {
        FourIs(s, i + 8);
      }
      NoneOutside(s, i + 3, 8);
      NoneOutside(s, i + 8, 4);
    }
  }

  lemma NoneOutside(s: bytes, p: nat, n: nat)
    ensures p + n > |s| ==> !DigitsAt(s, p, n) && !NoDigitsAt(s, p, n)
  {
  }

  /** The escape at position k is wrong, and what stands before it is unescaped. */
  ghost predicate FirstWrong(s: bytes, i: nat, k: nat, error: nat, at: nat) {
    i <= k < |s| && WrongAt(s, k, error, at) && Unescaped(s[..k], i).Text?
  }

  /** What stands before the end of a prefix is read as in the whole, as long as it is read to that end. */
  lemma PrefixStep(s: bytes, i: nat, k: nat)
    requires i < k <= |s| && StepAt(s, i).Good? && i + StepAt(s, i).used <= k
    ensures StepAt(s[..k], i) == StepAt(s, i)
  {
    hide Hex.NumberOf, Unicode.BytesOf, Unicode.PairToCode;
    var t := s[..k];
    if s[i] == BACKSLASH && i + 6 <= k {
      assert Hex.FourAt(t, i + 2) == Hex.FourAt(s, i + 2);
      if i + 11 <= k {
        assert Hex.EightAt(t, i + 3) == Hex.EightAt(s, i + 3);
      }
      if i + 12 <= k {
        assert Hex.FourAt(t, i + 8) == Hex.FourAt(s, i + 8);
      }
    }
  }

  lemma {:induction false} FailsFirst(s: bytes, i: nat) returns (k: nat)
    requires i <= |s| && Unescaped(s, i).Failed?
    ensures FirstWrong(s, i, k, Unescaped(s, i).error, Unescaped(s, i).at)
    decreases |s| - i
  {
    hide StepAt, WrongAt;
    match StepAt(s, i)
    case Bad(error, at) =>
      StepWrong(s, i, error, at);
      k := i;
    case Good(used, text) =>
      k := FailsFirst(s, i + used);
      PrefixStep(s, i, k);
  }

  lemma {:induction false} FirstFails(s: bytes, i: nat, k: nat, error: nat, at: nat)
    requires FirstWrong(s, i, k, error, at)
    ensures Unescaped(s, i) == Failed(error, at)
    decreases |s| - i
  {
    hide StepAt, WrongAt;
    if i == k {
      StepWrong(s, i, error, at);
    } else {
      PrefixGood(s, i, k);
      FirstFails(s, i + StepAt(s, i).used, k, error, at);
    }
  }

  /** A unit of a prefix that can be read to the end is a unit of the whole. */
  lemma PrefixGood(s: bytes, i: nat, k: nat)
    requires i < k <= |s| && Unescaped(s[..k], i).Text?
    ensures StepAt(s, i).Good? && i + StepAt(s, i).used <= k && StepAt(s[..k], i) == StepAt(s, i)
    ensures Unescaped(s[..k], i + StepAt(s, i).used).Text?
  {
    hide Hex.NumberOf, Unicode.BytesOf, Unicode.PairToCode;
    var t := s[..k];
    assert StepAt(t, i).Good?;
    if s[i] == BACKSLASH && i + 6 <= k {
      assert Hex.FourAt(t, i + 2) == Hex.FourAt(s, i + 2);
      if i + 11 <= k {
        assert Hex.EightAt(t, i + 3) == Hex.EightAt(s, i + 3);
      }
      if i + 12 <= k {
        assert Hex.FourAt(t, i + 8) == Hex.FourAt(s, i + 8);
      }
    }
  }

  /** A text is refused with an error at a place if and only if that is what is wrong with its first wrong escape:
      everything before it is unescaped. */
  lemma RefusedExactly(s: bytes, error: nat, at: nat)
    ensures Unescaped(s, 0) == Failed(error, at) <==> exists k :: FirstWrong(s, 0, k, error, at)
  {
    hide Unescaped, FirstWrong;
    if Unescaped(s, 0) == Failed(error, at) {
      var k := FailsFirst(s, 0);
    }
    if k :| FirstWrong(s, 0, k, error, at) {
      FirstFails(s, 0, k, error, at);
    }
  }

  /** `\u+` and the eight digits of a code stand for the bytes of that code: for a well-formed character, for itself. */
  lemma PlusForm(s: bytes, i: nat, digits: bytes)
    requires i < |s| && Unicode.CharLength(s, i) > 0 && i + Unicode.ReadLength(s[i]) <= |s|
    requires |digits| == 8 && Hex.ReadSpec(digits) == Hex.Value(Unicode.CodeOf(s, i))
    ensures Unescaped([BACKSLASH, LETTER_U, PLUS] + digits, 0) == Text(s[i..i + Unicode.CharLength(s, i)])
  {
    hide Unicode.BytesOf, Unicode.CharLength, Unicode.CodeOf, Hex.ReadSpec, Hex.EightAt;
    var t := [BACKSLASH, LETTER_U, PLUS] + digits;
    Unicode.CharRoundTrip(s, i);
    Hex.ReadEightAt(t, 3);
    assert t[3..11] == digits;
    var c := s[i..i + Unicode.CharLength(s, i)];
    assert c + [] == c;
  }
}

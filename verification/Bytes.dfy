/** Bytes and the character classes the JSON layer tests them against. */
module Bytes {

  type byte = b: int | 0 <= b < 256
  type bytes = seq<byte>

  const QUOTE: byte := 0x22
  const BACKSLASH: byte := 0x5C
  const SOLIDUS: byte := 0x2F
  const COMMA: byte := 0x2C
  const COLON: byte := 0x3A
  const LBRACE: byte := 0x7B
  const RBRACE: byte := 0x7D
  const LBRACKET: byte := 0x5B
  const RBRACKET: byte := 0x5D
  const QUESTION: byte := 0x3F
  const PLUS: byte := 0x2B
  const MINUS: byte := 0x2D
  const SPACE: byte := 0x20
  const NUL: byte := 0

  const NULL_TEXT: bytes := [0x6E, 0x75, 0x6C, 0x6C]
  const TRUE_TEXT: bytes := [0x74, 0x72, 0x75, 0x65]
  const FALSE_TEXT: bytes := [0x66, 0x61, 0x6C, 0x73, 0x65]

  /** CC_WS of the lookup table, and the set `Caret::skipBlankChars` tests by hand. */
  predicate IsBlank(b: byte) {
    b == 0x20 || b == 0x09 || b == 0x0A || b == 0x0C || b == 0x0D
  }

  predicate IsDigit(b: byte) {
    0x30 <= b <= 0x39
  }

  /** CC_STRUCT: the quote and the backslash carry it as well. */
  predicate IsStruct(b: byte) {
    b == LBRACE || b == RBRACE || b == LBRACKET || b == RBRACKET || b == COLON || b == COMMA || b == QUOTE
      || b == BACKSLASH
  }

  /** CC_ESCAPE | CC_CONTROL: control characters, the quote and the backslash. */
  predicate NeedsEscape(b: byte) {
    b < 0x20 || b == QUOTE || b == BACKSLASH
  }

  predicate AllBlank(s: bytes) {
    forall i :: 0 <= i < |s| ==> IsBlank(s[i])
  }

  /** text stands at position i of data. */
  predicate IsAtText(data: bytes, i: nat, text: bytes) {
    i + |text| <= |data| && data[i..i + |text|] == text
  }

  lemma SplitText(data: bytes, p: nat, a: bytes, b: bytes)
    requires IsAtText(data, p, a + b)
    ensures IsAtText(data, p, a) && IsAtText(data, p + |a|, b)
  {
    assert data[p..p + |a|] == data[p..p + |a + b|][..|a|];
    assert data[p + |a|..p + |a| + |b|] == data[p..p + |a + b|][|a|..];
  }

  lemma JoinText(data: bytes, p: nat, a: bytes, b: bytes)
    requires IsAtText(data, p, a) && IsAtText(data, p + |a|, b)
    ensures IsAtText(data, p, a + b)
  {
    assert data[p..p + |a + b|] == data[p..p + |a|] + data[p + |a|..p + |a| + |b|];
  }

  lemma ByteOfText(data: bytes, p: nat, t: bytes, k: nat)
    requires IsAtText(data, p, t) && k < |t|
    ensures p + k < |data| && data[p + k] == t[k]
  {
  }

  lemma TextIsSlice(data: bytes, i: nat, t: bytes)
    requires IsAtText(data, i, t)
    ensures i + |t| <= |data| && data[i..i + |t|] == t
  {
  }

  /** What stands at the start of a suffix. */
  lemma SplitSuffix(data: bytes, i: nat, t: bytes, rest: bytes)
    requires i <= |data| && data[i..] == t + rest
    ensures IsAtText(data, i, t) && data[i + |t|..] == rest
  {
  }
}

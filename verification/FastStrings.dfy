/** `serializeJsonString` of FastSerializer.cpp and the literal reader of FastDeserializer.cpp. */
module FastStrings {
  import opened Bytes
  import opened SimpleString
  import opened Unescape
  import opened Literals
  import opened Stream
  import Hex

  const LOWER_DIGITS: bytes :=
    [0x30, 0x31, 0x32, 0x33, 0x34, 0x35, 0x36, 0x37, 0x38, 0x39, 0x61, 0x62, 0x63, 0x64, 0x65, 0x66]

  predicate MustEscape(c: byte, solidus: bool) {
    c < 32 || c == QUOTE || c == BACKSLASH || (c == SOLIDUS && solidus)
  }

  /** What the switch writes for a byte that must be escaped. */
  function EscapeText(c: byte): (t: bytes)
    ensures |t| == 2 || |t| == 6
  {
    if c == 8 then [BACKSLASH, 0x62]
    else if c == 12 then [BACKSLASH, 0x66]
    else if c == 10 then [BACKSLASH, 0x6E]
    else if c == 13 then [BACKSLASH, 0x72]
    else if c == 9 then [BACKSLASH, 0x74]
    else if c < 32 then [BACKSLASH, LETTER_U, 0x30, 0x30, LOWER_DIGITS[c / 16], LOWER_DIGITS[c % 16]]
    else [BACKSLASH, c]
  }

  function ByteText(c: byte, solidus: bool): bytes {
    if MustEscape(c, solidus) then EscapeText(c) else [c]
  }

  /** The literal's inside for s from position i on. */
  function Inside(s: bytes, i: nat, solidus: bool): bytes
    decreases |s| - i
  {
    if i >= |s| then [] else ByteText(s[i], solidus) + Inside(s, i + 1, solidus)
  }

  lemma {:induction false} PlainSegment(s: bytes, i: nat, n: nat, solidus: bool)
    requires i + n <= |s| && forall k :: i <= k < i + n ==> !MustEscape(s[k], solidus)
    ensures Inside(s, i, solidus) == s[i..i + n] + Inside(s, i + n, solidus)
    decreases n
  {
    hide EscapeText, MustEscape, Inside;
    if n == 0 {
      assert s[i..i] + Inside(s, i, solidus) == Inside(s, i, solidus);
    } else {
      PlainSegment(s, i + 1, n - 1, solidus);
      PlainFirst(s, i, solidus);
      SegmentFirst(s, i, n, Inside(s, i + n, solidus));
    }
  }

  lemma PlainFirst(s: bytes, i: nat, solidus: bool)
    requires i < |s| && !MustEscape(s[i], solidus)
    ensures Inside(s, i, solidus) == [s[i]] + Inside(s, i + 1, solidus)
  {
  }

  lemma SegmentFirst(s: bytes, i: nat, n: nat, rest: bytes)
    requires 0 < n && i + n <= |s|
    ensures s[i..i + n] + rest == [s[i]] + (s[i + 1..i + n] + rest)
  {
  }

  /** The inner loop: the end of the segment that can be written as it is. */
  method FindSegmentEnd(data: bytes, seg: nat, solidus: bool) returns (i: nat)
    requires seg <= |data|
    ensures seg <= i <= |data|
    ensures i < |data| ==> MustEscape(data[i], solidus)
    ensures Inside(data, seg, solidus) == data[seg..i] + Inside(data, i, solidus)
  {
    i := seg;
    while i < |data| && !MustEscape(data[i], solidus)
      invariant seg <= i <= |data|
      invariant forall k :: seg <= k < i ==> !MustEscape(data[k], solidus)
    {
      i := i + 1;
    }
    PlainSegment(data, seg, i - seg, solidus);
  }

  lemma SimpleInside(s: bytes, solidus: bool)
    requires IsSimple(s) && (!solidus || SOLIDUS !in s)
    ensures Inside(s, 0, solidus) == s
  {
    PlainSegment(s, 0, |s|, solidus);
    assert s[0..|s|] + [] == s;
  }

  lemma EscapedByte(s: bytes, i: nat, solidus: bool, done: bytes)
    requires i < |s| && MustEscape(s[i], solidus)
    ensures (done + EscapeText(s[i])) + Inside(s, i + 1, solidus) == done + Inside(s, i, solidus)
  {
  }

  method SerializeJsonString(stream: OutputStream, data: bytes, solidus: bool)
    modifies stream
    ensures stream.data == old(stream.data) + [QUOTE] + Inside(data, 0, solidus) + [QUOTE]
  {
    hide EscapeText, Inside, MustEscape;
    stream.WriteSimple([QUOTE]);
    ghost var start := stream.data;
    var size := |data|;
    var simple := IsSimpleString(data);
    if simple && (!solidus || SOLIDUS !in data) {
      stream.WriteSimple(data);
      stream.WriteSimple([QUOTE]);
      SimpleInside(data, solidus);
      return;
    }
    ghost var done := [];
    var i := 0;
    while i < size
      invariant 0 <= i <= size
      invariant done + Inside(data, i, solidus) == Inside(data, 0, solidus)
      invariant stream.data == start + done
    {
      var seg := i;
      i := FindSegmentEnd(data, seg, solidus);
      assert (done + data[seg..i]) + Inside(data, i, solidus) == done + Inside(data, seg, solidus);
      done := done + data[seg..i];
      if i > seg {
        stream.WriteSimple(data[seg..i]);
      }
      if i < size {
        EscapedByte(data, i, solidus, done);
        done := done + EscapeText(data[i]);
        stream.WriteSimple(EscapeText(data[i]));
        i := i + 1;
      }
    }
    InsideEnd(data, solidus);
    stream.WriteSimple([QUOTE]);
  }

  lemma InsideEnd(s: bytes, solidus: bool)
    ensures Inside(s, |s|, solidus) == []
  {
  }

  /** `parseStringFromRange`: the meaning of data[start..end]. */
  method ParseStringFromRange(data: bytes, start: nat, end: nat) returns (r: Result)
    requires start <= end <= |data|
    ensures r == Unescaped(data[start..end], 0)
  {
    var raw := data[start..end];
    if BACKSLASH !in raw {
      assert raw[0..] == raw;
      PlainText(raw, 0);
      return Text(raw);
    }
    r := UnescapeString(raw);
  }

  lemma LowerDigit(n: int)
    requires 0 <= n < 16
    ensures Hex.IsHex(LOWER_DIGITS[n]) && Hex.DigitValue(LOWER_DIGITS[n]) == n
  {
  }

  lemma ReadHexByte(e: bytes, j: nat, c: byte)
    requires c < 32 && IsAtText(e, j, [BACKSLASH, LETTER_U, 0x30, 0x30, LOWER_DIGITS[c / 16], LOWER_DIGITS[c % 16]])
    ensures StepAt(e, j) == Good(6, [c])
  {
    LowerDigit(c / 16);
    LowerDigit(c % 16);
    var t := [BACKSLASH, LETTER_U, 0x30, 0x30, LOWER_DIGITS[c / 16], LOWER_DIGITS[c % 16]];
    assert e[j + 0] == t[0] && e[j + 1] == t[1] && e[j + 2] == t[2] && e[j + 3] == t[3] && e[j + 4] == t[4]
           && e[j + 5] == t[5];
    assert Hex.FourAt(e, j + 2) == Hex.Value(c);
  }

  /** One written byte reads back as itself. */
  lemma ReadByte(e: bytes, j: nat, c: byte, solidus: bool)
    requires IsAtText(e, j, ByteText(c, solidus))
    ensures StepAt(e, j) == Good(|ByteText(c, solidus)|, [c])
  {
    hide UnicodeStep;
    var t := ByteText(c, solidus);
    assert e[j + 0] == t[0];
    if MustEscape(c, solidus) {
      assert e[j + 1] == t[1];
      if |t| == 6 {
        ReadHexByte(e, j, c);
      }
    }
  }

  lemma ByteIsBody(e: bytes, j: nat, c: byte, solidus: bool)
    requires IsAtText(e, j, ByteText(c, solidus))
    requires IsBody(e, j + |ByteText(c, solidus)|, |e|)
    ensures IsBody(e, j, |e|)
  {
    var t := ByteText(c, solidus);
    assert e[j + 0] == t[0];
    if |t| == 6 {
      assert e[j + 2] == t[2] && e[j + 3] == t[3] && e[j + 4] == t[4] && e[j + 5] == t[5];
      assert IsBody(e, j + 5, |e|);
      assert IsBody(e, j + 4, |e|);
      assert IsBody(e, j + 3, |e|);
      assert IsBody(e, j + 2, |e|);
    }
  }

  lemma {:induction false} ReadInside(s: bytes, i: nat, solidus: bool, e: bytes, j: nat)
    requires i <= |s| && j <= |e| && e[j..] == Inside(s, i, solidus)
    ensures Unescaped(e, j) == Text(s[i..])
    ensures IsBody(e, j, |e|)
    decreases |s| - i
  {
    hide StepAt, ByteText;
    if i < |s| {
      var t := ByteText(s[i], solidus);
      SplitSuffix(e, j, t, Inside(s, i + 1, solidus));
      ReadByte(e, j, s[i], solidus);
      ReadInside(s, i + 1, solidus, e, j + |t|);
      ByteIsBody(e, j, s[i], solidus);
      assert s[i..] == [s[i]] + s[i + 1..];
    }
  }

  /** For every byte string: the written literal, at any place in any text, is found again with its closing quote, and
      its content reads back as the original bytes. */
  lemma LiteralRoundTrip(s: bytes, solidus: bool, before: bytes, after: bytes)
    ensures var inside := Inside(s, 0, solidus);
            var text := before + [QUOTE] + inside + [QUOTE] + after;
            var end := |before| + 1 + |inside|;
            && ClosingQuote(text, |before| + 1) == At(end)
            && text[|before| + 1..end] == inside
            && Unescaped(inside, 0) == Text(s)
  {
    hide Inside, StepAt, Unescaped, IsBody, ClosingQuote;
    var inside := Inside(s, 0, solidus);
    var start, end := |before| + 1, |before| + 1 + |inside|;
    assert inside[0..] == inside && s[0..] == s;
    ReadInside(s, 0, solidus, inside, 0);
    var text := before + [QUOTE] + inside + [QUOTE] + after;
    LiteralParts(before, inside, after);
    BodyInText(inside, 0, text, start);
    BodyThenQuote(text, start, end);
  }

  lemma LiteralParts(before: bytes, inside: bytes, after: bytes)
    ensures var text := before + [QUOTE] + inside + [QUOTE] + after; var start := |before| + 1;
            var end := start + |inside|;
            end < |text| && text[start..end] == inside && text[end] == QUOTE
  {
  }

  lemma {:induction false} BodyInText(body: bytes, k: nat, text: bytes, start: nat)
    requires k <= |body| && IsBody(body, k, |body|)
    requires start + |body| <= |text| && text[start..start + |body|] == body
    ensures IsBody(text, start + k, start + |body|)
    decreases |body| - k
  {
    if k < |body| {
      assert text[start + k] == text[start..start + |body|][k];
      BodyInText(body, if body[k] == BACKSLASH then k + 2 else k + 1, text, start);
    }
  }
}

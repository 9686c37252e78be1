/** `Utils::escapeString` and its sizing pass, src/oatpp/json/Utils.cpp. */
module Escape {
  import opened Bytes
  import opened Unicode
  import opened Sequences
  import opened SimpleString
  import Hex

  /** FLAG_ESCAPE_SOLIDUS and FLAG_ESCAPE_UTF8CHAR. */
  datatype Flags = Flags(solidus: bool, utf8Char: bool)

  function ShortEscape(c: byte): bytes {
    [BACKSLASH, c]
  }

  function ControlText(a: byte): bytes
    requires a < 32
  {
    if a == 8 then ShortEscape(0x62)
    else if a == 12 then ShortEscape(0x66)
    else if a == 10 then ShortEscape(0x6E)
    else if a == 13 then ShortEscape(0x72)
    else if a == 9 then ShortEscape(0x74)
    else [BACKSLASH, 0x75] + Hex.Text16(a)
  }

  function AsciiText(a: byte, flags: Flags): bytes {
    if a == QUOTE || a == BACKSLASH || (a == SOLIDUS && flags.solidus) then ShortEscape(a) else [a]
  }

  /** `escapeUtf8Char`. The last branch writes its digits over the place of the '+' and leaves the eleventh byte
      zero. */
  function CodeText(code: uint32): bytes {
    if code < 0x1_0000 then [BACKSLASH, 0x75] + Hex.Text16(code)
    else if code < 0x20_0000 then
      [BACKSLASH, 0x75] + Hex.Text16(HighSurrogate(code)) + [BACKSLASH, 0x75] + Hex.Text16(LowSurrogate(code))
    else [BACKSLASH, 0x75] + Hex.Text32(code) + [NUL]
  }

  /** How many bytes a unit that starts with b claims: those of its lead byte, and 1 for a stray byte. */
  function Claim(b: byte): (n: nat)
    ensures n >= 1
  {
    if SequenceLength(b) == 0 then 1 else SequenceLength(b)
  }

  /** What the unit at position i is written as. A sequence that the end of s cuts short becomes question marks. */
  function PieceText(s: bytes, i: nat, flags: Flags): bytes
    requires i < |s|
  {
    if s[i] < 32 then ControlText(s[i])
    else if s[i] < 128 then AsciiText(s[i], flags)
    else if i + Claim(s[i]) > |s| then Repeat(QUESTION, Claim(s[i]))
    else if !flags.utf8Char || SequenceLength(s[i]) == 0 then s[i..i + Claim(s[i])]
    else CodeText(CodeOf(s, i))
  }

  /** The escaped form of s from position i on, before the shortcuts of `escapeString`. */
  function Escaped(s: bytes, i: nat, flags: Flags): bytes
    decreases |s| - i
  {
    if i >= |s| then [] else PieceText(s, i, flags) + Escaped(s, i + Claim(s[i]), flags)
  }

  /** The length of s up to a multi-byte sequence that its end cuts short. */
  function SafeSize(s: bytes, i: nat): (n: nat)
    requires i <= |s|
    ensures i <= n <= |s|
    decreases |s| - i
  {
    if i == |s| || i + Claim(s[i]) > |s| then i else SafeSize(s, i + Claim(s[i]))
  }

  predicate TakesShortcut(s: bytes, flags: Flags) {
    IsSimple(s) && (!flags.solidus || SOLIDUS !in s)
  }

  /** `escapeString` with its two shortcuts. */
  function EscapeResult(s: bytes, flags: Flags): bytes {
    if TakesShortcut(s, flags) then s
    else if |Escaped(s, 0, flags)| == |s| then s
    else Escaped(s, 0, flags)
  }

  method EscapeUtf8CharSize(s: bytes, i: nat) returns (size: nat)
    requires i < |s| && 0 < SequenceLength(s[i]) && i + SequenceLength(s[i]) <= |s|
    ensures size == |CodeText(CodeOf(s, i))|
  {
    var code, _ := EncodeUtf8Char(s, i, 0);
    if code < 0x1_0000 {
      size := 6;
    } else if code < 0x20_0000 {
      size := 12;
    } else {
      size := 11;
    }
  }

  method AsciiSize(a: byte, flags: Flags) returns (size: nat)
    requires a < 128
    ensures size == if a < 32 then |ControlText(a)| else |AsciiText(a, flags)|
  {
    if a < 32 {
      if a == 8 || a == 12 || a == 10 || a == 13 || a == 9 {
        size := 2;
      } else {
        size := 6;
      }
    } else if a == QUOTE || a == BACKSLASH {
      size := 2;
    } else if a == SOLIDUS {
      size := 1;
      if flags.solidus {
        size := size + 1;
      }
    } else {
      size := 1;
    }
  }

  /** One turn of the sizing loop: how far it moves and what it adds. */
  method MeasurePiece(s: bytes, i: nat, flags: Flags) returns (used: nat, size: nat)
    requires i < |s|
    ensures used == Claim(s[i])
    ensures size == |PieceText(s, i, flags)|
  {
    var a := s[i];
    used := 1;
    size := 1;
    if a < 128 {
      size := AsciiSize(a, flags);
    } else {
      var charSize := SequenceLength(a);
      if charSize != 0 {
        used := charSize;
        if !flags.utf8Char {
          size := charSize;
        } else if i + charSize <= |s| {
          size := EscapeUtf8CharSize(s, i);
        } else {
          size := charSize;
        }
      }
    }
  }

  method CalcEscapedStringSize(data: bytes, flags: Flags) returns (result: nat, safeSize: nat)
    ensures result == |Escaped(data, 0, flags)|
    ensures safeSize == SafeSize(data, 0)
  {
    hide PieceText;
    var size := |data|;
    result := 0;
    safeSize := size;
    var i := 0;
    while i < size
      invariant 0 <= i
      invariant result + |Escaped(data, i, flags)| == |Escaped(data, 0, flags)|
      invariant if i <= size then safeSize == size && SafeSize(data, i) == SafeSize(data, 0)
                else safeSize == SafeSize(data, 0)
      decreases size - i
    {
      var used, n := MeasurePiece(data, i, flags);
      if i + used > size {
        safeSize := i;
      }
      i := i + used;
      result := result + n;
    }
  }

  /** Overwrite buffer[pos..pos + |text|] with text. */
  method Put(buffer: array<byte>, pos: nat, text: bytes)
    requires pos + |text| <= buffer.Length
    modifies buffer
    ensures buffer[..pos + |text|] == old(buffer[..pos]) + text
    ensures buffer[pos + |text|..] == old(buffer[pos + |text|..])
  {
    forall k | 0 <= k < |text| {
      buffer[pos + k] := text[k];
    }
  }

  predicate ZeroFrom(buffer: array<byte>, pos: nat)
    reads buffer
  {
    forall k :: pos <= k < buffer.Length ==> buffer[k] == 0
  }

  /** `escapeUtf8Char`: the last branch counts eleven bytes and writes ten, into a buffer that starts out zero. */
  method EscapeUtf8Char(s: bytes, i: nat, buffer: array<byte>, pos: nat) returns (size: nat)
    requires i < |s| && 0 < SequenceLength(s[i]) && i + SequenceLength(s[i]) <= |s|
    requires pos + |CodeText(CodeOf(s, i))| <= buffer.Length && ZeroFrom(buffer, pos)
    modifies buffer
    ensures size == |CodeText(CodeOf(s, i))|
    ensures buffer[..pos + size] == old(buffer[..pos]) + CodeText(CodeOf(s, i))
    ensures ZeroFrom(buffer, pos + size)
  {
    var code, _ := EncodeUtf8Char(s, i, 0);
    if code < 0x1_0000 {
      Put(buffer, pos, [BACKSLASH, 0x75] + Hex.Text16(code));
      size := 6;
    } else if code < 0x20_0000 {
      Put(buffer, pos, [BACKSLASH, 0x75] + Hex.Text16(HighSurrogate(code)) + [BACKSLASH, 0x75]
          + Hex.Text16(LowSurrogate(code)));
      size := 12;
    } else {
      Put(buffer, pos, [BACKSLASH, 0x75] + Hex.Text32(code));
      size := 11;
      assert buffer[pos + 10..][0] == 0;
      assert buffer[..pos + 11] == buffer[..pos + 10] + [0];
    }
    assert forall k :: pos + size <= k < buffer.Length ==> buffer[k] == old(buffer[k]);
  }

  /** One turn of the writing loop. */
  method WritePiece(s: bytes, i: nat, flags: Flags, buffer: array<byte>, pos: nat) returns (used: nat, size: nat)
    requires i < |s| && i + Claim(s[i]) <= |s|
    requires pos + |PieceText(s, i, flags)| <= buffer.Length && ZeroFrom(buffer, pos)
    modifies buffer
    ensures used == Claim(s[i]) && size == |PieceText(s, i, flags)|
    ensures buffer[..pos + size] == old(buffer[..pos]) + PieceText(s, i, flags)
    ensures ZeroFrom(buffer, pos + size)
  {
    var a := s[i];
    used := 1;
    ghost var before := buffer[..];
    if a < 32 {
      var text := ControlText(a);
      Put(buffer, pos, text);
      size := |text|;
    } else if a < 128 {
      var text := AsciiText(a, flags);
      Put(buffer, pos, text);
      size := |text|;
    } else {
      var charSize := SequenceLength(a);
      if charSize != 0 {
        used := charSize;
        if !flags.utf8Char {
          Put(buffer, pos, s[i..i + charSize]);
          size := charSize;
        } else {
          size := EscapeUtf8Char(s, i, buffer, pos);
          return;
        }
      } else {
        Put(buffer, pos, [a]);
        size := 1;
      }
    }
    assert forall k :: pos + size <= k < buffer.Length ==> buffer[k] == buffer[pos + size..][k - pos - size];
    assert forall k :: pos + size <= k < buffer.Length ==> before[k] == before[pos + size..][k - pos - size];
  }

  lemma {:induction false} SafeSizeStops(s: bytes, i: nat)
    requires i <= |s|
    ensures var n := SafeSize(s, i); n < |s| ==> n + Claim(s[n]) > |s|
    decreases |s| - i
  {
    if i < |s| && i + Claim(s[i]) <= |s| {
      SafeSizeStops(s, i + Claim(s[i]));
    }
  }

  lemma {:induction false} RepeatAt(b: byte, n: nat, k: nat)
    requires k < n
    ensures Repeat(b, n)[k] == b
  {
    if k > 0 {
      RepeatAt(b, n - 1, k - 1);
    }
  }

  /** The place of a cut-off sequence is filled with question marks. */
  method FillQuestionMarks(buffer: array<byte>, pos: nat)
    requires pos <= buffer.Length
    modifies buffer
    ensures buffer[..] == old(buffer[..pos]) + Repeat(QUESTION, buffer.Length - pos)
  {
    for k := pos to buffer.Length
      invariant buffer[..pos] == old(buffer[..pos])
      invariant forall m :: pos <= m < k ==> buffer[m] == QUESTION
    {
      buffer[k] := QUESTION;
    }
    ghost var marks := Repeat(QUESTION, buffer.Length - pos);
    forall k | 0 <= k < |marks|
      ensures marks[k] == QUESTION
    {
      RepeatAt(QUESTION, |marks|, k);
    }
    assert buffer[pos..] == marks;
    assert buffer[..] == buffer[..pos] + buffer[pos..];
  }

  lemma CutOffText(s: bytes, i: nat, flags: Flags)
    requires i < |s| && i + Claim(s[i]) > |s|
    ensures Escaped(s, i, flags) == Repeat(QUESTION, |Escaped(s, i, flags)|)
  {
  }

  lemma OneMorePiece(s: bytes, i: nat, flags: Flags, done: bytes, safeSize: nat)
    requires i < safeSize <= |s| && SafeSize(s, i) == safeSize
    ensures var text := PieceText(s, i, flags); var n := i + Claim(s[i]);
            && n <= safeSize && SafeSize(s, n) == safeSize
            && |Escaped(s, i, flags)| == |text| + |Escaped(s, n, flags)|
            && done + Escaped(s, i, flags) == (done + text) + Escaped(s, n, flags)
  {
    hide PieceText;
  }

  /** The writing pass: the buffer sized by the first pass is filled exactly. */
  method WriteEscaped(data: bytes, flags: Flags, escapedSize: nat, safeSize: nat) returns (result: bytes)
    requires escapedSize == |Escaped(data, 0, flags)| && safeSize == SafeSize(data, 0)
    ensures result == Escaped(data, 0, flags)
  {
    hide PieceText, Escaped;
    var buffer := new byte[escapedSize](_ => 0);
    var pos := 0;
    var i := 0;
    ghost var done := [];
    while i < safeSize
      invariant 0 <= i <= safeSize && SafeSize(data, i) == safeSize
      invariant done + Escaped(data, i, flags) == Escaped(data, 0, flags)
      invariant pos == |done| && pos + |Escaped(data, i, flags)| == buffer.Length
      invariant buffer[..pos] == done
      invariant ZeroFrom(buffer, pos)
    {
      ghost var text := PieceText(data, i, flags);
      OneMorePiece(data, i, flags, done, safeSize);
      var used, size := WritePiece(data, i, flags, buffer, pos);
      done := done + text;
      pos := pos + size;
      i := i + used;
    }
    FinishEscaped(data, i, flags, buffer, pos);
    result := buffer[..];
  }

  /** After the last whole unit: question marks for a cut-off sequence, if there is one. */
  method FinishEscaped(data: bytes, i: nat, flags: Flags, buffer: array<byte>, pos: nat)
    requires i <= |data| && SafeSize(data, i) == i && pos + |Escaped(data, i, flags)| == buffer.Length
    modifies buffer
    ensures buffer[..] == old(buffer[..pos]) + Escaped(data, i, flags)
  {
    hide PieceText;
    SafeSizeStops(data, i);
    if |data| > i {
      CutOffText(data, i, flags);
      FillQuestionMarks(buffer, pos);
    } else {
      assert buffer[..] == buffer[..pos] + [];
    }
  }

  method EscapeString(data: bytes, flags: Flags) returns (result: bytes)
    ensures result == EscapeResult(data, flags)
  {
    var simple := IsSimpleString(data);
    if simple {
      if !flags.solidus || SOLIDUS !in data {
        return data;
      }
    }
    var escapedSize, safeSize := CalcEscapedStringSize(data, flags);
    if escapedSize == |data| {
      return data;
    }
    result := WriteEscaped(data, flags, escapedSize, safeSize);
  }
}

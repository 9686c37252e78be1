/** `Utils::unescapeString`: a sizing pass that finds every error and a writing pass that checks nothing,
    src/oatpp/json/Utils.cpp. */
module Unescape {
  import opened Bytes
  import opened Unicode
  import Hex

  const INVALID_ESCAPED_CHAR := 1
  const INVALID_SURROGATE_PAIR := 2
  const UNKNOWN_SYMBOL := 1

  const LETTER_U: byte := 0x75

  datatype Step = Good(used: nat, text: bytes) | Bad(error: nat, at: nat)
  datatype Result = Text(text: bytes) | Failed(error: nat, at: nat)

  predicate IsShort(b: byte) {
    b == QUOTE || b == BACKSLASH || b == SOLIDUS || b == 0x62 || b == 0x66 || b == 0x6E || b == 0x72 || b == 0x74
  }

  function ShortMeaning(b: byte): byte {
    if b == 0x62 then 8
    else if b == 0x66 then 12
    else if b == 0x6E then 10
    else if b == 0x72 then 13
    else if b == 0x74 then 9
    else b
  }

  predicate IsHigh(code: int) {
    0xD800 <= code <= 0xDBFF
  }

  predicate IsLow(code: int) {
    0xDC00 <= code <= 0xDFFF
  }

  /** The `\u` forms. The two bytes between the halves of a surrogate pair are not looked at. */
  function UnicodeStep(s: bytes, i: nat): (r: Step)
    requires i + 6 <= |s|
    ensures r.Good? ==> 6 <= r.used && i + r.used <= |s| && |r.text| < r.used
    ensures r.Bad? ==> r.error != 0
  {
    if s[i + 2] == PLUS then
      if i + 11 > |s| then Bad(INVALID_ESCAPED_CHAR, i)
      else match Hex.EightAt(s, i + 3)
        case UnknownSymbol => Bad(UNKNOWN_SYMBOL, i + 3)
        case Value(code) => Good(11, BytesOf(code))
    else match Hex.FourAt(s, i + 2)
      case UnknownSymbol => Bad(UNKNOWN_SYMBOL, i + 2)
      case Value(code) =>
        if !IsHigh(code) then Good(6, BytesOf(code))
        else if i + 12 > |s| then Bad(INVALID_SURROGATE_PAIR, i)
        else match Hex.FourAt(s, i + 8)
          case UnknownSymbol => Bad(UNKNOWN_SYMBOL, i + 8)
          case Value(low) =>
            if IsLow(low) then Good(12, BytesOf(PairToCode(code, low))) else Bad(INVALID_SURROGATE_PAIR, i)
  }

  /** The unit at position i: what it stands for, or the error and where it is reported. */
  function StepAt(s: bytes, i: nat): (r: Step)
    requires i < |s|
    ensures r.Good? ==> 1 <= r.used && i + r.used <= |s| && |r.text| <= r.used
    ensures r.Good? && s[i] == BACKSLASH ==> |r.text| < r.used
    ensures r.Bad? ==> r.error != 0
  {
    if s[i] != BACKSLASH then Good(1, [s[i]])
    else if i + 1 == |s| then Bad(INVALID_ESCAPED_CHAR, i)
    else if IsShort(s[i + 1]) then Good(2, [ShortMeaning(s[i + 1])])
    else if s[i + 1] != LETTER_U || i + 6 > |s| then Bad(INVALID_ESCAPED_CHAR, i)
    else UnicodeStep(s, i)
  }

  function Prepend(head: bytes, r: Result): Result {
    match r
    case Text(t) => Text(head + t)
    case Failed(_, _) => r
  }

  /** The meaning of s from position i on. */
  function Unescaped(s: bytes, i: nat): (r: Result)
    ensures r.Failed? ==> r.error != 0
    decreases |s| - i
  {
    if i >= |s| then Text([])
    else match StepAt(s, i)
      case Bad(error, at) => Failed(error, at)
      case Good(used, text) => Prepend(text, Unescaped(s, i + used))
  }

  method MeasureUnicode(s: bytes, i: nat) returns (used: nat, size: nat, error: nat, at: nat)
    requires i + 6 <= |s|
    ensures match UnicodeStep(s, i)
            case Good(n, text) => error == 0 && used == n && size == |text|
            case Bad(e, p) => error == e && at == p
  {
    hide BytesOf, Hex.ReadSpec, Hex.FourAt, Hex.EightAt;
    used, size, error, at := 0, 0, 0, 0;
    if s[i + 2] == PLUS {
      if i + 11 > |s| {
        error, at := INVALID_ESCAPED_CHAR, i;
        return;
      }
      Hex.ReadEightAt(s, i + 3);
      var r := Hex.ReadDigits(s[i + 3..i + 11]);
      if r.UnknownSymbol? {
        error, at := UNKNOWN_SYMBOL, i + 3;
        return;
      }
      used, size := 11, LengthForCode(r.code);
    } else {
      Hex.ReadFourAt(s, i + 2);
      var r := Hex.ReadDigits(s[i + 2..i + 6]);
      if r.UnknownSymbol? {
        error, at := UNKNOWN_SYMBOL, i + 2;
        return;
      }
      if 0xD800 <= r.code <= 0xDBFF {
        if i + 12 > |s| {
          error, at := INVALID_SURROGATE_PAIR, i;
          return;
        }
        Hex.ReadFourAt(s, i + 8);
        var low := Hex.ReadDigits(s[i + 8..i + 12]);
        if low.UnknownSymbol? {
          error, at := UNKNOWN_SYMBOL, i + 8;
          return;
        }
        if 0xDC00 <= low.code <= 0xDFFF {
          used, size := 12, LengthForCode(PairToCode(r.code, low.code));
        } else {
          error, at := INVALID_SURROGATE_PAIR, i;
        }
      } else {
        used, size := 6, LengthForCode(r.code);
      }
    }
  }

  method MeasureStep(s: bytes, i: nat) returns (used: nat, size: nat, error: nat, at: nat)
    requires i < |s|
    ensures match StepAt(s, i)
            case Good(n, text) => error == 0 && used == n && size == |text|
            case Bad(e, p) => error == e && at == p
  {
    hide UnicodeStep;
    used, size, error, at := 1, 1, 0, 0;
    if s[i] == BACKSLASH {
      if i + 1 == |s| {
        error, at := INVALID_ESCAPED_CHAR, i;
        return;
      }
      var b := s[i + 1];
      if IsShort(b) {
        used, size := 2, 1;
      } else if b == LETTER_U {
        if i + 6 > |s| {
          error, at := INVALID_ESCAPED_CHAR, i;
          return;
        }
        used, size, error, at := MeasureUnicode(s, i);
      } else {
        error, at := INVALID_ESCAPED_CHAR, i;
      }
    }
  }

  method CalcUnescapedStringSize(data: bytes) returns (result: nat, errorCode: nat, errorPosition: nat)
    ensures match Unescaped(data, 0)
            case Text(t) => errorCode == 0 && result == |t|
            case Failed(e, p) => errorCode == e && errorPosition == p && result == 0
  {
    hide StepAt;
    errorCode, errorPosition := 0, 0;
    result := 0;
    var i := 0;
    ghost var done := [];
    while i < |data|
      invariant i <= |data| && errorCode == 0
      invariant result == |done|
      invariant Unescaped(data, 0) == Prepend(done, Unescaped(data, i))
      decreases |data| - i
    {
      ghost var step := StepAt(data, i);
      ghost var rest := if step.Good? then Unescaped(data, i + step.used) else Text([]);
      var used, size, error, at := MeasureStep(data, i);
      if error != 0 {
        return 0, error, at;
      }
      assert Prepend(done, Prepend(step.text, rest)) == Prepend(done + step.text, rest) by {
        if rest.Text? {
          assert done + (step.text + rest.text) == (done + step.text) + rest.text;
        }
      }
      done := done + step.text;
      i := i + used;
      result := result + size;
    }
  }

  /** The `\u` forms in the writing pass. */
  method WriteUnicode(s: bytes, i: nat, buffer: array<byte>, pos: nat) returns (used: nat, size: nat)
    requires i + 6 <= |s| && UnicodeStep(s, i).Good?
    requires pos + |UnicodeStep(s, i).text| <= buffer.Length
    modifies buffer
    ensures used == UnicodeStep(s, i).used && size == |UnicodeStep(s, i).text|
    ensures buffer[..pos + size] == old(buffer[..pos]) + UnicodeStep(s, i).text
  {
    hide BytesOf, Hex.ReadSpec, Hex.FourAt, Hex.EightAt;
    if s[i + 2] == PLUS {
      var r := Hex.ReadDigits(s[i + 3..i + 11]);
      Hex.ReadEightAt(s, i + 3);
      used := 11;
      size := DecodeUtf8Char(r.code, buffer, pos);
    } else {
      var r := Hex.ReadDigits(s[i + 2..i + 6]);
      Hex.ReadFourAt(s, i + 2);
      if r.code >= 0xD800 && r.code <= 0xDBFF {
        var low := Hex.ReadDigits(s[i + 8..i + 12]);
        Hex.ReadFourAt(s, i + 8);
        size := DecodeUtf8Char(PairToCode(r.code, low.code), buffer, pos);
        used := 12;
      } else {
        size := DecodeUtf8Char(r.code, buffer, pos);
        used := 6;
      }
    }
  }

  /** One turn of the writing pass. It checks nothing: that the reads and writes stay inside is what acceptance
      gives. */
  method WriteStep(s: bytes, i: nat, buffer: array<byte>, pos: nat) returns (used: nat, size: nat)
    requires i < |s| && StepAt(s, i).Good?
    requires pos + |StepAt(s, i).text| <= buffer.Length
    modifies buffer
    ensures used == StepAt(s, i).used && size == |StepAt(s, i).text|
    ensures buffer[..pos + size] == old(buffer[..pos]) + StepAt(s, i).text
  {
    hide UnicodeStep;
    var a := s[i];
    if a == BACKSLASH {
      var b := s[i + 1];
      if b != LETTER_U {
        buffer[pos] := ShortMeaning(b);
        size := 1;
        used := 2;
      } else {
        used, size := WriteUnicode(s, i, buffer, pos);
      }
    } else {
      buffer[pos] := a;
      size := 1;
      used := 1;
    }
  }

  /** On every input the sizing pass accepts, the writing pass ends exactly at the computed size. */
  method UnescapeStringToBuffer(data: bytes, buffer: array<byte>)
    requires Unescaped(data, 0).Text? && buffer.Length == |Unescaped(data, 0).text|
    modifies buffer
    ensures buffer[..] == Unescaped(data, 0).text
  {
    hide StepAt;
    var i := 0;
    var pos := 0;
    ghost var done := [];
    while i < |data|
      invariant i <= |data|
      invariant pos == |done|
      invariant Unescaped(data, i).Text?
      invariant done + Unescaped(data, i).text == Unescaped(data, 0).text
      invariant buffer[..pos] == done
      decreases |data| - i
    {
      ghost var step := StepAt(data, i);
      ghost var rest := Unescaped(data, i + step.used);
      assert done + (step.text + rest.text) == (done + step.text) + rest.text;
      var used, size := WriteStep(data, i, buffer, pos);
      done := done + step.text;
      i := i + used;
      pos := pos + size;
    }
    assert buffer[..] == buffer[..pos];
  }

  lemma {:induction false} PlainText(s: bytes, i: nat)
    requires i <= |s| && BACKSLASH !in s[i..]
    ensures Unescaped(s, i) == Text(s[i..])
    decreases |s| - i
  {
    if i < |s| {
      assert s[i..][0] == s[i] && s[i..] == [s[i]] + s[i + 1..];
      PlainText(s, i + 1);
    }
  }

  /** An accepted string gets shorter exactly when it has an escape in it. */
  lemma {:induction false} EscapesShrink(s: bytes, i: nat)
    requires i <= |s| && Unescaped(s, i).Text?
    ensures |Unescaped(s, i).text| <= |s| - i
    ensures |Unescaped(s, i).text| == |s| - i <==> BACKSLASH !in s[i..]
    decreases |s| - i
  {
    if i < |s| {
      var used := StepAt(s, i).used;
      EscapesShrink(s, i + used);
      assert s[i..] == s[i..i + used] + s[i + used..];
      assert s[i..][0] == s[i];
    }
  }

  method UnescapeString(data: bytes) returns (r: Result)
    ensures r == Unescaped(data, 0)
  {
    if BACKSLASH !in data {
      assert data[0..] == data;
      PlainText(data, 0);
      return Text(data);
    }
    var size, errorCode, errorPosition := CalcUnescapedStringSize(data);
    if errorCode != 0 {
      return Failed(errorCode, errorPosition);
    }
    if size == |data| {
      // The source copies the input here; with a backslash in it the sizes differ, so this branch is never taken.
      EscapesShrink(data, 0);
      assert false;
    }
    var buffer := new byte[size](_ => 0);
    UnescapeStringToBuffer(data, buffer);
    r := Text(buffer[..]);
  }
}

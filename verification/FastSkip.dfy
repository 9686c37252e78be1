/** `deserializeValueCursor` of FastDeserializer.cpp for an unknown value: a cursor that steps over one JSON value by
    counting one kind of bracket. */
module FastSkip {
  import opened Bytes
  import opened Literals
  import opened JsonDocument
  import opened DeserializerSpec
  import opened Reading
  import opened ReadingProof
  import DeserializerProof
  import JsonTexts
  import FastStrings

  datatype Brackets = Brackets(open: byte, close: byte)

  const BRACES := Brackets(LBRACE, RBRACE)
  const SQUARE := Brackets(LBRACKET, RBRACKET)

  predicate EndsValue(c: byte) {
    IsBlank(c) || IsStruct(c)
  }

  /** `findValueEnd` */
  function ValueEnd(data: bytes, pos: nat): (r: nat)
    ensures r >= pos && (pos <= |data| ==> r <= |data|)
    decreases |data| - pos
  {
    if pos < |data| && !EndsValue(data[pos]) then ValueEnd(data, pos + 1) else pos
  }

  /** The inner loop over a string: its end, looking back past the start of the string if need be. */
  function StringEnd(data: bytes, pos: nat): (r: nat)
    requires pos <= |data|
    ensures pos <= r <= |data|
    decreases |data| - pos
  {
    if pos < |data| && !IsBareQuote(data, 0, pos) then StringEnd(data, pos + 1) else pos
  }

  /** The loop that skips by depth. At an unterminated string it ends one past the text. */
  function SkipFrom(data: bytes, pos: nat, depth: nat, b: Brackets): (r: nat)
    ensures r >= pos
    decreases |data| - pos
  {
    if pos >= |data| || depth == 0 then pos
    else if data[pos] == b.open then SkipFrom(data, pos + 1, depth + 1, b)
    else if data[pos] == b.close then SkipFrom(data, pos + 1, depth - 1, b)
    else if data[pos] == QUOTE then SkipFrom(data, StringEnd(data, pos + 1) + 1, depth, b)
    else SkipFrom(data, pos + 1, depth, b)
  }

  datatype Skip = Past(pos: nat) | Refused

  /** `deserializePrimitiveValueCursor` with no type. */
  function SkipPrimitive(data: bytes, pos: nat): Skip {
    var c := CharAt(data, pos);
    if pos >= |data| then Refused
    else if c == QUOTE then
      match ClosingQuote(data, pos + 1)
      case At(end) => Past(end + 1)
      case Nowhere => Refused
    else if c == NULL_TEXT[0] || c == TRUE_TEXT[0] then Past(pos + 4)
    else if c == FALSE_TEXT[0] then Past(pos + 5)
    else if ValueEnd(data, pos) == pos then Refused
    else Past(ValueEnd(data, pos))
  }

  /** `deserializeValueCursor` with no type. */
  function SkipValue(data: bytes, i: nat): Skip {
    var pos := SkipBlanks(data, i);
    if pos >= |data| then Refused
    else if data[pos] == LBRACE then Past(SkipFrom(data, pos + 1, 1, BRACES))
    else if data[pos] == LBRACKET then Past(SkipFrom(data, pos + 1, 1, SQUARE))
    else SkipPrimitive(data, pos)
  }

  method SkipWhitespace(data: bytes, i: nat) returns (pos: nat)
    ensures pos == SkipBlanks(data, i)
  {
    pos := i;
    while pos < |data|
      invariant SkipBlanks(data, pos) == SkipBlanks(data, i)
      decreases |data| - pos
    {
      if !IsBlank(data[pos]) {
        break;
      }
      pos := pos + 1;
    }
  }

  method FindValueEnd(data: bytes, i: nat) returns (pos: nat)
    ensures pos == ValueEnd(data, i)
  {
    pos := i;
    while pos < |data|
      invariant ValueEnd(data, pos) == ValueEnd(data, i)
      decreases |data| - pos
    {
      if EndsValue(data[pos]) {
        break;
      }
      pos := pos + 1;
    }
  }

  method SkipString(data: bytes, i: nat) returns (pos: nat)
    requires i <= |data|
    ensures pos == StringEnd(data, i)
  {
    pos := i;
    while pos < |data|
      invariant pos <= |data| && StringEnd(data, pos) == StringEnd(data, i)
    {
      if data[pos] == QUOTE {
        var bs := CountBackslashes(data, 0, pos);
        if bs % 2 == 0 {
          break;
        }
      }
      pos := pos + 1;
    }
  }

  method SkipByDepth(data: bytes, i: nat, b: Brackets) returns (pos: nat)
    ensures pos == SkipFrom(data, i, 1, b)
  {
    pos := i;
    var depth := 1;
    while pos < |data| && depth > 0
      invariant depth >= 0 && SkipFrom(data, pos, depth, b) == SkipFrom(data, i, 1, b)
      decreases |data| - pos
    {
      if data[pos] == b.open {
        depth := depth + 1;
      } else if data[pos] == b.close {
        depth := depth - 1;
      } else if data[pos] == QUOTE {
        pos := SkipString(data, pos + 1);
      }
      pos := pos + 1;
    }
  }

  method DeserializePrimitiveValueCursor(data: bytes, i: nat) returns (ok: bool, pos: nat)
    ensures match SkipPrimitive(data, SkipBlanks(data, i))
            case Past(p) => ok && pos == p
            case Refused => !ok
  {
    hide SkipBlanks, ClosingQuote, ValueEnd;
    pos := SkipWhitespace(data, i);
    if pos >= |data| {
      return false, pos;
    }
    var firstChar := data[pos];
    if firstChar == QUOTE {
      var end := FindStringRange(data, pos);
      if end == Nowhere {
        return false, pos;
      }
      return true, end.index + 1;
    }
    if firstChar == NULL_TEXT[0] {
      return true, pos + 4;
    }
    if firstChar == TRUE_TEXT[0] || firstChar == FALSE_TEXT[0] {
      return true, pos + (if firstChar == TRUE_TEXT[0] then 4 else 5);
    }
    var end := FindValueEnd(data, pos);
    if end == pos {
      return false, pos;
    }
    return true, end;
  }

  method DeserializeValueCursor(data: bytes, i: nat) returns (ok: bool, pos: nat)
    ensures match SkipValue(data, i)
            case Past(p) => ok && pos == p
            case Refused => !ok
  {
    hide SkipBlanks, SkipPrimitive, SkipFrom;
    pos := SkipWhitespace(data, i);
    if pos >= |data| {
      return false, pos;
    }
    if data[pos] == LBRACE {
      pos := SkipByDepth(data, pos + 1, BRACES);
      return true, pos;
    }
    if data[pos] == LBRACKET {
      pos := SkipByDepth(data, pos + 1, SQUARE);
      return true, pos;
    }
    DeserializerProof.BlanksStay(data, i);
    ok, pos := DeserializePrimitiveValueCursor(data, pos);
  }

  // ----- Looking back to the start of the text is as good as looking back to the start of the string -----

  lemma {:induction false} RunStopsAtQuote(data: bytes, start: nat, k: nat)
    requires 0 < start <= k <= |data| && data[start - 1] == QUOTE
    ensures BackslashRun(data, 0, k) == BackslashRun(data, start, k)
    decreases k
  {
    if k > start && data[k - 1] == BACKSLASH {
      RunStopsAtQuote(data, start, k - 1);
    }
  }

  lemma {:induction false} StringEndIs(data: bytes, start: nat, pos: nat, end: nat)
    requires 0 < start <= pos <= end < |data| && data[start - 1] == QUOTE
    requires IsBareQuote(data, start, end) && forall k :: pos <= k < end ==> !IsBareQuote(data, start, k)
    ensures StringEnd(data, pos) == end
    decreases end - pos
  {
    RunStopsAtQuote(data, start, pos);
    assert IsBareQuote(data, 0, pos) == IsBareQuote(data, start, pos);
    if pos < end {
      StringEndIs(data, start, pos + 1, end);
    }
  }

  /** A string literal is stepped over, whatever comes before it. */
  lemma LiteralEnd(data: bytes, p: nat, body: bytes)
    requires Closed(body) && IsAtText(data, p, Quoted(body))
    ensures StringEnd(data, p + 1) == p + 1 + |body|
    ensures ClosingQuote(data, p + 1) == At(p + 1 + |body|)
    ensures p + |Quoted(body)| <= |data| && data[p] == QUOTE
  {
    hide IsBody, ClosingQuote, IsAtText, StringEnd;
    var start, end := p + 1, p + 1 + |body|;
    assert Quoted(body) == [QUOTE] + (body + [QUOTE]);
    SplitText(data, p, [QUOTE], body + [QUOTE]);
    SplitText(data, start, body, [QUOTE]);
    ByteOfText(data, p, [QUOTE], 0);
    ByteOfText(data, end, [QUOTE], 0);
    TextIsSlice(data, start, body);
    FastStrings.BodyInText(body, 0, data, start);
    BodyThenQuote(data, start, end);
    ForwardMeetsParity(data, start, start);
    StringEndIs(data, start, start, end);
  }

  // ----- Texts that the depth count does not notice -----

  predicate Keeps(data: bytes, p: nat, n: nat, depth: nat, b: Brackets) {
    SkipFrom(data, p, depth, b) == SkipFrom(data, p + n, depth, b)
  }

  predicate Counted(b: Brackets) {
    b == BRACES || b == SQUARE
  }

  lemma {:induction false} SkipPlain(data: bytes, p: nat, t: bytes, depth: nat, b: Brackets)
    requires Counted(b) && depth > 0 && IsAtText(data, p, t)
    requires forall k :: 0 <= k < |t| ==> t[k] != b.open && t[k] != b.close && t[k] != QUOTE
    ensures Keeps(data, p, |t|, depth, b)
    decreases |t|
  {
    if t != [] {
      ByteOfText(data, p, t, 0);
      assert t == [t[0]] + t[1..];
      SplitText(data, p, [t[0]], t[1..]);
      SkipPlain(data, p + 1, t[1..], depth, b);
    }
  }

  lemma SolidSkipped(data: bytes, p: nat, t: bytes, depth: nat, b: Brackets)
    requires Counted(b) && depth > 0 && IsAtText(data, p, t) && Solid(t)
    ensures Keeps(data, p, |t|, depth, b)
  {
    SkipPlain(data, p, t, depth, b);
  }

  lemma SkipBlank(data: bytes, p: nat, t: bytes, depth: nat, b: Brackets)
    requires Counted(b) && depth > 0 && IsAtText(data, p, t) && AllBlank(t)
    ensures Keeps(data, p, |t|, depth, b)
  {
    SkipPlain(data, p, t, depth, b);
  }

  lemma SkipLiteral(data: bytes, p: nat, body: bytes, depth: nat, b: Brackets)
    requires Counted(b) && depth > 0 && IsAtText(data, p, Quoted(body)) && Closed(body)
    ensures Keeps(data, p, |Quoted(body)|, depth, b)
  {
    hide StringEnd, IsAtText, IsBody;
    LiteralEnd(data, p, body);
  }

  /** A bracket of either kind, opening or closing. */
  lemma SkipBracket(data: bytes, p: nat, c: byte, depth: nat, b: Brackets)
    requires Counted(b) && depth > 0 && IsAtText(data, p, [c]) && c != QUOTE
    ensures SkipFrom(data, p, depth, b)
            == SkipFrom(data, p + 1, if c == b.open then depth + 1 else if c == b.close then depth - 1 else depth, b)
  {
  }

  /** A whole value inside brackets leaves the depth as it was. */
  lemma {:induction false} SkipDoc(d: Doc, data: bytes, p: nat, depth: nat, b: Brackets)
    requires Loose(d) && Counted(b) && depth > 0 && IsAtText(data, p, Text(d))
    ensures Keeps(data, p, |Text(d)|, depth, b)
    decreases d, 2
  {
    hide IsAtText, SkipFrom, ItemsText, EntriesText, Closed;
    match d
    case DArray(items) => SkipArray(items, data, p, depth, b);
    case DObject(entries) => SkipObject(entries, data, p, depth, b);
    case DEmptyArray(pad) => SkipEmpty(data, p, LBRACKET, RBRACKET, pad, depth, b);
    case DEmptyObject(pad) => SkipEmpty(data, p, LBRACE, RBRACE, pad, depth, b);
    case DString(body) => SkipLiteral(data, p, body, depth, b);
    case _ =>
      ScalarIsSolid(d);
      SolidSkipped(data, p, Text(d), depth, b);
  }

  /** No byte of t ends a value. */
  predicate Solid(t: bytes) {
    forall k :: 0 <= k < |t| ==> !EndsValue(t[k])
  }

  lemma SolidConcat(a: bytes, b: bytes)
    requires Solid(a) && Solid(b)
    ensures Solid(a + b)
  {
  }

  lemma DigitsSolid(digits: bytes)
    requires AllDigits(digits)
    ensures Solid(digits)
  {
  }

  lemma ExponentSolid(e: Exponent)
    requires ValidExponent(e)
    ensures Solid(ExponentText(e))
  {
  }

  lemma SolidConstants()
    ensures Solid(NULL_TEXT) && Solid(TRUE_TEXT) && Solid(FALSE_TEXT) && Solid([]) && Solid([MINUS])
  {
  }

  lemma FractionSolid(f: Fraction)
    requires LooseFraction(f)
    ensures Solid(FractionText(f))
  {
  }

  lemma ScalarIsSolid(d: Doc)
    requires Loose(d) && (d.DNull? || d.DBool? || IsNumber(d))
    ensures Solid(Text(d))
  {
    hide Solid, EndsValue, AllDigits, ExponentText, FractionText, ValidExponent, LooseFraction;
    SolidConstants();
    if IsNumber(d) {
      DigitsSolid(d.digits);
      SolidConcat(Sign(d.negative), d.digits);
      if d.DFloat? {
        FractionSolid(d.fraction);
        ExponentSolid(d.exponent);
        SolidConcat(Sign(d.negative) + d.digits, FractionText(d.fraction));
        SolidConcat(Sign(d.negative) + d.digits + FractionText(d.fraction), ExponentText(d.exponent));
      }
    }
  }

  lemma SkipEmpty(data: bytes, p: nat, open: byte, close: byte, pad: bytes, depth: nat, b: Brackets)
    requires (open == LBRACKET && close == RBRACKET) || (open == LBRACE && close == RBRACE)
    requires AllBlank(pad) && Counted(b) && depth > 0 && IsAtText(data, p, [open] + pad + [close])
    ensures Keeps(data, p, |[open] + pad + [close]|, depth, b)
  {
    hide IsAtText, SkipFrom, AllBlank;
    assert [open] + pad + [close] == [open] + (pad + [close]);
    SplitText(data, p, [open], pad + [close]);
    SplitText(data, p + 1, pad, [close]);
    SkipBracket(data, p, open, depth, b);
    var inner := if open == b.open then depth + 1 else depth;
    SkipBlank(data, p + 1, pad, inner, b);
    SkipBracket(data, p + 1 + |pad|, close, inner, b);
  }

  lemma {:induction false} SkipArray(items: Items, data: bytes, p: nat, depth: nat, b: Brackets)
    requires LooseItems(items) && Counted(b) && depth > 0 && IsAtText(data, p, Text(DArray(items)))
    ensures Keeps(data, p, |Text(DArray(items))|, depth, b)
    decreases items, 3
  {
    hide IsAtText, SkipFrom, ItemsText;
    var inside := ItemsText(items);
    assert Text(DArray(items)) == [LBRACKET] + (inside + [RBRACKET]);
    SplitText(data, p, [LBRACKET], inside + [RBRACKET]);
    SplitText(data, p + 1, inside, [RBRACKET]);
    SkipBracket(data, p, LBRACKET, depth, b);
    var inner := if b == SQUARE then depth + 1 else depth;
    SkipItems(items, data, p + 1, inner, b);
    SkipBracket(data, p + 1 + |inside|, RBRACKET, inner, b);
  }

  lemma SkipComma(data: bytes, p: nat, comma: bool, depth: nat, b: Brackets)
    requires Counted(b) && depth > 0 && IsAtText(data, p, CommaText(comma))
    ensures Keeps(data, p, |CommaText(comma)|, depth, b)
  {
    SkipPlain(data, p, CommaText(comma), depth, b);
  }

  lemma {:induction false} SkipItems(items: Items, data: bytes, p: nat, depth: nat, b: Brackets)
    requires LooseItems(items) && Counted(b) && depth > 0 && IsAtText(data, p, ItemsText(items))
    ensures Keeps(data, p, |ItemsText(items)|, depth, b)
    decreases items, 2
  {
    hide IsAtText, SkipFrom, Text, AllBlank, Loose, ItemsText, CommaText;
    var v := p + |items.before|;
    var e := v + |Text(items.value)|;
    var n := e + |items.after| + |CommaText(items.comma)|;
    SplitItemsText(items, data, p);
    SkipBlank(data, p, items.before, depth, b);
    SkipDoc(items.value, data, v, depth, b);
    SkipBlank(data, e, items.after, depth, b);
    SkipComma(data, e + |items.after|, items.comma, depth, b);
    if items.MoreItems? {
      SkipItems(items.rest, data, n, depth, b);
    }
  }

  lemma SplitItemsText(items: Items, data: bytes, p: nat)
    requires IsAtText(data, p, ItemsText(items))
    ensures var v := p + |items.before|; var e := v + |Text(items.value)|; var q := e + |items.after|;
            var n := q + |CommaText(items.comma)|;
            && IsAtText(data, p, items.before) && IsAtText(data, v, Text(items.value)) && IsAtText(data, e, items.after)
            && IsAtText(data, q, CommaText(items.comma))
            && (if items.MoreItems? then
                  IsAtText(data, n, ItemsText(items.rest)) && p + |ItemsText(items)| == n + |ItemsText(items.rest)|
                else p + |ItemsText(items)| == n)
  {
    hide IsAtText, Text, CommaText;
    var value, rest := Text(items.value), if items.MoreItems? then ItemsText(items.rest) else [];
    SplitText(data, p, items.before, value + (items.after + (CommaText(items.comma) + rest)));
    JsonTexts.SplitValue(data, p + |items.before|, value, items.after, CommaText(items.comma), rest);
  }

  lemma {:induction false} SkipObject(entries: Entries, data: bytes, p: nat, depth: nat, b: Brackets)
    requires LooseEntries(entries) && Counted(b) && depth > 0 && IsAtText(data, p, Text(DObject(entries)))
    ensures Keeps(data, p, |Text(DObject(entries))|, depth, b)
    decreases entries, 3
  {
    hide IsAtText, SkipFrom, EntriesText;
    var inside := EntriesText(entries);
    assert Text(DObject(entries)) == [LBRACE] + (inside + [RBRACE]);
    SplitText(data, p, [LBRACE], inside + [RBRACE]);
    SplitText(data, p + 1, inside, [RBRACE]);
    SkipBracket(data, p, LBRACE, depth, b);
    var inner := if b == BRACES then depth + 1 else depth;
    SkipEntries(entries, data, p + 1, inner, b);
    SkipBracket(data, p + 1 + |inside|, RBRACE, inner, b);
  }

  lemma {:induction false} SkipEntries(entries: Entries, data: bytes, p: nat, depth: nat, b: Brackets)
    requires LooseEntries(entries) && Counted(b) && depth > 0 && IsAtText(data, p, EntriesText(entries))
    ensures Keeps(data, p, |EntriesText(entries)|, depth, b)
    decreases entries, 2
  {
    hide IsAtText, SkipFrom, Text, AllBlank, Loose, Quoted, Closed, EntriesText, CommaText;
    var start := p + |entries.before| + |Quoted(entries.key)| + |entries.gap| + 1 + |entries.lead|;
    var e := start + |Text(entries.value)|;
    var n := e + |entries.after| + |CommaText(entries.comma)|;
    SplitEntriesText(entries, data, p);
    SkipKey(data, p, entries, depth, b);
    SkipDoc(entries.value, data, start, depth, b);
    SkipBlank(data, e, entries.after, depth, b);
    SkipComma(data, e + |entries.after|, entries.comma, depth, b);
    if entries.MoreEntries? {
      SkipEntries(entries.rest, data, n, depth, b);
    }
  }

  /** The parts of an entry up to its value stand at position p. */
  predicate KeyStands(entries: Entries, data: bytes, p: nat) {
    var k := p + |entries.before|;
    var g := k + |Quoted(entries.key)|;
    var c := g + |entries.gap|;
    && IsAtText(data, p, entries.before) && IsAtText(data, k, Quoted(entries.key)) && IsAtText(data, g, entries.gap)
    && IsAtText(data, c, [COLON]) && IsAtText(data, c + 1, entries.lead)
  }

  lemma SplitEntriesText(entries: Entries, data: bytes, p: nat)
    requires IsAtText(data, p, EntriesText(entries))
    ensures KeyStands(entries, data, p)
    ensures var start := p + |entries.before| + |Quoted(entries.key)| + |entries.gap| + 1 + |entries.lead|;
            var e := start + |Text(entries.value)|; var q := e + |entries.after|;
            var n := q + |CommaText(entries.comma)|;
            && IsAtText(data, start, Text(entries.value)) && IsAtText(data, e, entries.after)
            && IsAtText(data, q, CommaText(entries.comma))
            && (if entries.MoreEntries? then
                  && IsAtText(data, n, EntriesText(entries.rest))
                  && p + |EntriesText(entries)| == n + |EntriesText(entries.rest)|
                else p + |EntriesText(entries)| == n)
  {
    hide IsAtText, Text, CommaText, Quoted;
    var value, rest := Text(entries.value), if entries.MoreEntries? then EntriesText(entries.rest) else [];
    var tail := value + (entries.after + (CommaText(entries.comma) + rest));
    JsonTexts.SplitKey(data, p, entries.before, Quoted(entries.key), entries.gap, entries.lead, tail);
    var start := p + |entries.before| + |Quoted(entries.key)| + |entries.gap| + 1 + |entries.lead|;
    JsonTexts.SplitValue(data, start, value, entries.after, CommaText(entries.comma), rest);
  }

  lemma SkipKey(data: bytes, p: nat, entries: Entries, depth: nat, b: Brackets)
    requires LooseEntries(entries) && Counted(b) && depth > 0 && KeyStands(entries, data, p)
    ensures Keeps(data, p, |entries.before| + |Quoted(entries.key)| + |entries.gap| + 1 + |entries.lead|, depth, b)
  {
    hide IsAtText, SkipFrom, AllBlank, Quoted, Closed, Loose;
    var g := p + |entries.before| + |Quoted(entries.key)|;
    SkipBlank(data, p, entries.before, depth, b);
    SkipLiteral(data, p + |entries.before|, entries.key, depth, b);
    SkipBlank(data, g, entries.gap, depth, b);
    SkipBracket(data, g + |entries.gap|, COLON, depth, b);
    SkipBlank(data, g + |entries.gap| + 1, entries.lead, depth, b);
  }

  // ----- The main result -----

  lemma {:induction false} ValueEndOver(data: bytes, p: nat, t: bytes)
    requires IsAtText(data, p, t) && Solid(t)
    ensures ValueEnd(data, p) == ValueEnd(data, p + |t|)
    decreases |t|
  {
    if t != [] {
      ByteOfText(data, p, t, 0);
      assert t == [t[0]] + t[1..];
      SplitText(data, p, [t[0]], t[1..]);
      ValueEndOver(data, p + 1, t[1..]);
    }
  }

  /** A number is stepped over exactly if what follows ends it. */
  predicate Ended(data: bytes, i: nat) {
    i >= |data| || EndsValue(data[i])
  }

  lemma NumberSkipped(d: Doc, data: bytes, i: nat, p: nat)
    requires IsNumber(d) && Loose(d) && SkipBlanks(data, i) == p && IsAtText(data, p, Text(d))
    ensures SkipValue(data, i) == Past(ValueEnd(data, p + |Text(d)|))
    ensures SkipValue(data, i) == Past(p + |Text(d)|) <==> Ended(data, p + |Text(d)|)
  {
    hide SkipBlanks, SkipFrom, ClosingQuote, Text;
    FirstByte(d);
    ByteOfText(data, p, Text(d), 0);
    ScalarIsSolid(d);
    ValueEndOver(data, p, Text(d));
  }

  lemma KeywordSkipped(d: Doc, data: bytes, i: nat, p: nat)
    requires (d.DNull? || d.DBool?) && SkipBlanks(data, i) == p && IsAtText(data, p, Text(d))
    ensures SkipValue(data, i) == Past(p + |Text(d)|)
  {
  }

  lemma StringSkipped(body: bytes, data: bytes, i: nat, p: nat)
    requires Closed(body) && SkipBlanks(data, i) == p && IsAtText(data, p, Quoted(body))
    ensures SkipValue(data, i) == Past(p + |Quoted(body)|)
  {
    hide SkipBlanks, SkipFrom, ClosingQuote, ValueEnd, IsBody, IsAtText;
    LiteralEnd(data, p, body);
  }

  /** From an opening bracket over text that keeps the depth to the closing one. */
  lemma NestSkipped(data: bytes, i: nat, p: nat, inside: bytes, b: Brackets)
    requires Counted(b) && SkipBlanks(data, i) == p
    requires IsAtText(data, p, [b.open] + (inside + [b.close]))
    requires Keeps(data, p + 1, |inside|, 1, b)
    ensures SkipValue(data, i) == Past(p + |inside| + 2)
  {
    hide SkipBlanks, SkipFrom, ClosingQuote, ValueEnd, IsAtText;
    SplitText(data, p, [b.open], inside + [b.close]);
    SplitText(data, p + 1, inside, [b.close]);
    ByteOfText(data, p, [b.open], 0);
    SkipBracket(data, p + 1 + |inside|, b.close, 1, b);
    DepthZero(data, p + |inside| + 2, b);
  }

  lemma DepthZero(data: bytes, p: nat, b: Brackets)
    ensures SkipFrom(data, p, 0, b) == p
  {
  }

  lemma InsideStands(data: bytes, p: nat, c: byte, inside: bytes, e: byte)
    requires IsAtText(data, p, [c] + inside + [e])
    ensures IsAtText(data, p, [c] + (inside + [e])) && IsAtText(data, p + 1, inside)
  {
    hide IsAtText;
    assert [c] + inside + [e] == [c] + (inside + [e]);
    SplitText(data, p, [c], inside + [e]);
    SplitText(data, p + 1, inside, [e]);
  }

  /** Whatever follows it, the cursor ends exactly one past a valid value that is not a number; past a number exactly if
      a blank, a structural character or the end follows. */
  lemma UnknownValueSkipped(d: Doc, data: bytes, i: nat, p: nat)
    requires Loose(d) && SkipBlanks(data, i) == p && IsAtText(data, p, Text(d))
    ensures SkipValue(data, i) == Past(p + |Text(d)|) <==> (IsNumber(d) ==> Ended(data, p + |Text(d)|))
  {
    hide SkipBlanks, SkipFrom, ClosingQuote, ValueEnd, IsAtText, SkipValue, ItemsText, EntriesText, Closed, Ended;
    match d
    case DNull => KeywordSkipped(d, data, i, p);
    case DBool(_) => KeywordSkipped(d, data, i, p);
    case DString(body) => StringSkipped(body, data, i, p);
    case DEmptyArray(pad) =>
      InsideStands(data, p, LBRACKET, pad, RBRACKET);
      SkipBlank(data, p + 1, pad, 1, SQUARE);
      NestSkipped(data, i, p, pad, SQUARE);
    case DEmptyObject(pad) =>
      InsideStands(data, p, LBRACE, pad, RBRACE);
      SkipBlank(data, p + 1, pad, 1, BRACES);
      NestSkipped(data, i, p, pad, BRACES);
    case DArray(items) =>
      InsideStands(data, p, LBRACKET, ItemsText(items), RBRACKET);
      SkipItems(items, data, p + 1, 1, SQUARE);
      NestSkipped(data, i, p, ItemsText(items), SQUARE);
    case DObject(entries) =>
      InsideStands(data, p, LBRACE, EntriesText(entries), RBRACE);
      SkipEntries(entries, data, p + 1, 1, BRACES);
      NestSkipped(data, i, p, EntriesText(entries), BRACES);
    case _ => NumberSkipped(d, data, i, p);
  }

  /** The skipper ends where the deserializer finds the end of the document: always, but for a number that is not
      ended. */
  lemma SkipsWhatIsFound(data: bytes, i: nat)
    requires i <= |data| && DocAt(data, i).Found?
    ensures SkipValue(data, i) == Past(DocAt(data, i).end)
            <==> (IsNumber(DocAt(data, i).doc) ==> Ended(data, DocAt(data, i).end))
  {
    hide SkipValue, DocAt, SkipBlanks, Stands, Loose, Text, Ended, IsAtText;
    DocSound(data, i);
    JsonTexts.StandsAsText(DocAt(data, i).doc, data, SkipBlanks(data, i));
    UnknownValueSkipped(DocAt(data, i).doc, data, i, SkipBlanks(data, i));
  }

  /** Wherever the deserializer parses a value, the skipper ends at the same position, but for a number that is not
      ended. */
  lemma SkipsWhatIsRead(data: bytes, i: nat)
    requires i <= |data| && Value(data, i).Parsed?
    ensures DocAt(data, i).Found?
    ensures SkipValue(data, i) == Past(Value(data, i).pos)
            <==> (IsNumber(DocAt(data, i).doc) ==> Ended(data, Value(data, i).pos))
  {
    hide SkipValue, DocAt, Value, Ended;
    DeserializerProof.ValueMeans(data, i);
    SkipsWhatIsFound(data, i);
  }

  predicate Unterminated(data: bytes, start: nat) {
    forall k :: start <= k < |data| ==> !IsBareQuote(data, start, k)
  }

  /** What the skipper refuses, of all texts: nothing but blanks, a string that no quote ends, and a character that
      starts no value. An object or array that is not closed is skipped to the end. */
  lemma RefusedExactly(data: bytes, i: nat)
    requires i <= |data|
    ensures var p := SkipBlanks(data, i);
            SkipValue(data, i).Refused? <==>
              || p >= |data|
              || (data[p] == QUOTE && Unterminated(data, p + 1))
              || data[p] in {RBRACE, RBRACKET, COLON, COMMA, BACKSLASH}
  {
    hide SkipFrom, ClosingQuote, IsBareQuote;
    var p := SkipBlanks(data, i);
    DeserializerProof.BlanksStay(data, i);
    if p < |data| && data[p] == QUOTE {
      ForwardMeetsParity(data, p + 1, p + 1);
    }
  }
}

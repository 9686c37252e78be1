/** What `Deserializer::deserialize` and the caret operations under it compute, as functions of the text and a
    position. */
module DeserializerSpec {
  import opened Bytes
  import opened Literals
  import opened JsonDocument
  import Unescape

  /** A literal that cannot be read sets the error of the caret; everything else is pushed on the error stack. */
  datatype Failure = OnCaret | OnStack

  datatype Outcome = Parsed(tree: Tree, pos: nat) | Failed(kind: Failure)

  /** The byte under the caret; the text is followed by a zero. */
  function CharAt(data: bytes, i: nat): byte {
    if i < |data| then data[i] else NUL
  }

  function SkipBlanks(data: bytes, i: nat): (r: nat)
    ensures i <= |data| ==> i <= r <= |data|
    ensures i <= r
    decreases |data| - i
  {
    if i < |data| && IsBlank(data[i]) then SkipBlanks(data, i + 1) else i
  }

  function DigitsEnd(data: bytes, i: nat): (r: nat)
    requires i <= |data|
    ensures i <= r <= |data|
    decreases |data| - i
  {
    if i < |data| && IsDigit(data[i]) then DigitsEnd(data, i + 1) else i
  }

  /** `findDecimalSeparatorInCurrentNumber` */
  predicate HasSeparator(data: bytes, i: nat)
    decreases |data| - i
  {
    if i >= |data| then false
    else if data[i] == POINT || data[i] == LOWER_E || data[i] == UPPER_E then true
    else if !IsDigit(data[i]) && data[i] != MINUS then false
    else HasSeparator(data, i + 1)
  }

  function AfterSign(data: bytes, i: nat): (r: nat)
    requires i <= |data|
    ensures i <= r <= |data|
  {
    if i < |data| && data[i] == MINUS then i + 1 else i
  }

  /** Past a decimal point and the digits after it, if the caret is at a decimal point. */
  function FractionEnd(data: bytes, i: nat): (r: nat)
    requires i <= |data|
    ensures i <= r <= |data|
  {
    if i < |data| && data[i] == POINT then DigitsEnd(data, i + 1) else i
  }

  /** Past an exponent, if a complete one is under the caret. */
  function ExponentEnd(data: bytes, i: nat): (r: nat)
    requires i <= |data|
    ensures i <= r <= |data|
  {
    if i < |data| && (data[i] == LOWER_E || data[i] == UPPER_E) then
      var j := if i + 1 < |data| && (data[i + 1] == PLUS || data[i + 1] == MINUS) then i + 2 else i + 1;
      if DigitsEnd(data, j) > j then DigitsEnd(data, j) else i
    else i
  }

  /** Where `strtod` stops on a decimal literal; i itself when there is none. */
  function FloatEnd(data: bytes, i: nat): (r: nat)
    requires i <= |data|
    ensures i <= r <= |data|
  {
    var start := AfterSign(data, i);
    var whole := DigitsEnd(data, start);
    var fraction := FractionEnd(data, whole);
    if whole == start && fraction <= whole + 1 then i else ExponentEnd(data, fraction)
  }

  function NumberValue(data: bytes, i: nat): (r: Outcome)
    requires i < |data|
    ensures r.Parsed? ==> i < r.pos <= |data|
  {
    if HasSeparator(data, i) then
      if FloatEnd(data, i) == i then Failed(OnCaret) else Parsed(Float(data[i..FloatEnd(data, i)]), FloatEnd(data, i))
    else
      var start := AfterSign(data, i);
      var end := DigitsEnd(data, start);
      if end == start then Failed(OnCaret) else Parsed(IntegerTree(data[i] == MINUS, NumberOf(data[start..end])), end)
  }

  datatype StringOutcome = ParsedString(text: bytes, pos: nat) | NoString

  /** `Utils::parseString` */
  function StringAt(data: bytes, i: nat): (r: StringOutcome)
    ensures r.ParsedString? ==> i + 1 < r.pos <= |data|
  {
    if CharAt(data, i) != QUOTE || i >= |data| then NoString
    else match ClosingQuote(data, i + 1)
      case Nowhere => NoString
      case At(end) =>
        match Unescape.Unescaped(data[i + 1..end], 0)
        case Failed(_, _) => NoString
        case Text(text) => ParsedString(text, end + 1)
  }

  function StringValue(data: bytes, i: nat): (r: Outcome)
    ensures r.Parsed? ==> i < r.pos <= |data|
  {
    match StringAt(data, i)
    case NoString => Failed(OnCaret)
    case ParsedString(text, pos) => Parsed(Str(text), pos)
  }

  function Keyword(data: bytes, i: nat, text: bytes, tree: Tree): Outcome {
    if IsAtText(data, i, text) then Parsed(tree, i + |text|) else Failed(OnStack)
  }

  predicate StartsNumber(c: byte) {
    c == MINUS || IsDigit(c)
  }

  /** `deserialize` */
  function Value(data: bytes, i: nat): (r: Outcome)
    requires i <= |data|
    ensures r.Parsed? ==> i < r.pos <= |data|
    decreases |data| - i, 1
  {
    var p := SkipBlanks(data, i);
    var c := CharAt(data, p);
    if c == NULL_TEXT[0] then Keyword(data, p, NULL_TEXT, Null)
    else if p < |data| && c == LBRACE then EntriesFrom(data, SkipBlanks(data, p + 1), [])
    else if p < |data| && c == LBRACKET then ItemsFrom(data, SkipBlanks(data, p + 1), [])
    else if c == QUOTE then StringValue(data, p)
    else if c == TRUE_TEXT[0] then Keyword(data, p, TRUE_TEXT, Bool(true))
    else if c == FALSE_TEXT[0] then Keyword(data, p, FALSE_TEXT, Bool(false))
    else if p < |data| && StartsNumber(c) then NumberValue(data, p)
    else Failed(OnStack)
  }

  /** Past a comma, if there is one: the source does not insist. */
  function AfterComma(data: bytes, i: nat): (r: nat)
    requires i <= |data|
    ensures i <= r <= |data|
  {
    if CharAt(data, i) == COMMA && i < |data| then i + 1 else i
  }

  /** The loop of `deserializeArray`, with the items read so far. */
  function ItemsFrom(data: bytes, i: nat, done: seq<Tree>): (r: Outcome)
    requires i <= |data|
    ensures r.Parsed? ==> i < r.pos <= |data|
    decreases |data| - i, 2
  {
    if i >= |data| then Failed(OnStack)
    else if data[i] == RBRACKET then Parsed(Vector(done), i + 1)
    else match Value(data, SkipBlanks(data, i))
      case Failed(_) => Failed(OnStack)
      case Parsed(tree, p) => ItemsFrom(data, AfterComma(data, SkipBlanks(data, p)), done + [tree])
  }

  /** The loop of `deserializeMap`, with the entries read so far. */
  function EntriesFrom(data: bytes, i: nat, done: seq<Pair>): (r: Outcome)
    requires i <= |data|
    ensures r.Parsed? ==> i < r.pos <= |data|
    decreases |data| - i, 2
  {
    if i >= |data| then Failed(OnStack)
    else if data[i] == RBRACE then Parsed(Map(done), i + 1)
    else match StringAt(data, SkipBlanks(data, i))
      case NoString => Failed(OnStack)
      case ParsedString(key, k) =>
        var colon := SkipBlanks(data, k);
        if colon >= |data| || data[colon] != COLON then Failed(OnStack)
        else match Value(data, SkipBlanks(data, colon + 1))
          case Failed(_) => Failed(OnStack)
          case Parsed(tree, p) => EntriesFrom(data, AfterComma(data, SkipBlanks(data, p)), PutAt(done, key, tree))
  }
}

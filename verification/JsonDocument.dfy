/** JSON documents, with their blanks and their escapes, and the tree each one denotes. `Valid` is the grammar of RFC
    8259, sections 2 to 7; `Loose` is the wider one that the deserializer reads: commas are optional, a number may start
    with zeros and leave out the digits on one side of its point, form feeds are blanks, and all that is asked of the
    inside of a literal is that its closing quote is the first bare one. */
module JsonDocument {
  import opened Bytes
  import opened Literals
  import StringGrammar
  import Unescape

  /** data::mapping::Tree, as far as the JSON text reaches. A map keeps the order in which its keys were added. */
  datatype Tree =
    | Undefined
    | Null
    | Bool(value: bool)
    | Integer(n: int)
    | UInt64(u: int)
    | Float(lexeme: bytes)
    | Str(text: bytes)
    | Vector(items: seq<Tree>)
    | Map(entries: seq<Pair>)

  datatype Pair = Pair(key: bytes, value: Tree)

  datatype Fraction = NoFraction | Fraction(digits: bytes)

  datatype Exponent = NoExponent | Exponent(letter: byte, sign: bytes, digits: bytes)

  datatype Doc =
    | DNull
    | DBool(value: bool)
    | DInteger(negative: bool, digits: bytes)
    | DFloat(negative: bool, digits: bytes, fraction: Fraction, exponent: Exponent)
    | DString(body: bytes)
    | DEmptyArray(pad: bytes)
    | DArray(items: Items)
    | DEmptyObject(pad: bytes)
    | DObject(entries: Entries)

  /** `comma` tells whether a comma follows the element. */
  datatype Items =
    | LastItem(before: bytes, value: Doc, after: bytes, comma: bool)
    | MoreItems(before: bytes, value: Doc, after: bytes, comma: bool, rest: Items)

  datatype Entries =
    | LastEntry(before: bytes, key: bytes, gap: bytes, lead: bytes, value: Doc, after: bytes, comma: bool)
    | MoreEntries(before: bytes, key: bytes, gap: bytes, lead: bytes, value: Doc, after: bytes, comma: bool,
                  rest: Entries)

  const POINT: byte := 0x2E
  const LOWER_E: byte := 0x65
  const UPPER_E: byte := 0x45

  const INT64_MIN := -0x8000_0000_0000_0000
  const INT64_MAX := 0x7FFF_FFFF_FFFF_FFFF
  const UINT64_MAX := 0xFFFF_FFFF_FFFF_FFFF

  predicate AllDigits(s: bytes) {
    forall k :: 0 <= k < |s| ==> IsDigit(s[k])
  }

  function Sign(negative: bool): bytes {
    if negative then [MINUS] else []
  }

  function ExponentText(e: Exponent): bytes {
    match e
    case NoExponent => []
    case Exponent(letter, sign, digits) => [letter] + sign + digits
  }

  function FractionText(fraction: Fraction): bytes {
    if fraction.Fraction? then [POINT] + fraction.digits else []
  }

  function CommaText(comma: bool): bytes {
    if comma then [COMMA] else []
  }

  function Quoted(body: bytes): bytes {
    [QUOTE] + body + [QUOTE]
  }

  function Text(d: Doc): bytes
    decreases d, 2
  {
    match d
    case DNull => NULL_TEXT
    case DBool(b) => if b then TRUE_TEXT else FALSE_TEXT
    case DInteger(negative, digits) => Sign(negative) + digits
    case DFloat(negative, digits, fraction, exponent) =>
      Sign(negative) + digits + FractionText(fraction) + ExponentText(exponent)
    case DString(body) => Quoted(body)
    case DEmptyArray(pad) => [LBRACKET] + pad + [RBRACKET]
    case DArray(items) => [LBRACKET] + ItemsText(items) + [RBRACKET]
    case DEmptyObject(pad) => [LBRACE] + pad + [RBRACE]
    case DObject(entries) => [LBRACE] + EntriesText(entries) + [RBRACE]
  }

  function ItemsText(items: Items): bytes
    decreases items, 1
  {
    items.before + ItemsTail(items)
  }

  /** The items from the first value on. */
  function ItemsTail(items: Items): bytes
    decreases items, 0
  {
    var rest := if items.MoreItems? then ItemsText(items.rest) else [];
    Text(items.value) + (items.after + (CommaText(items.comma) + rest))
  }

  function EntriesText(entries: Entries): bytes
    decreases entries, 1
  {
    entries.before + EntriesTail(entries)
  }

  /** The entries from the first key on. */
  function EntriesTail(entries: Entries): bytes
    decreases entries, 0
  {
    Quoted(entries.key) + (entries.gap + ([COLON] + (entries.lead + (Text(entries.value) + (entries.after
    + (CommaText(entries.comma) + (if entries.MoreEntries? then EntriesText(entries.rest) else [])))))))
  }

  // ----- The grammar of RFC 8259 -----

  /** ws of section 2. */
  predicate IsSpace(b: byte) {
    b == 0x20 || b == 0x09 || b == 0x0A || b == 0x0D
  }

  predicate AllSpace(s: bytes) {
    forall k :: 0 <= k < |s| ==> IsSpace(s[k])
  }

  /** int of section 6: no zero before another digit. */
  predicate IsInt(digits: bytes) {
    digits != [] && AllDigits(digits) && (digits[0] == 0x30 ==> |digits| == 1)
  }

  predicate ValidFraction(f: Fraction) {
    f.NoFraction? || (f.digits != [] && AllDigits(f.digits))
  }

  predicate ValidExponent(e: Exponent) {
    || e.NoExponent?
    || ((e.letter == LOWER_E || e.letter == UPPER_E) && (e.sign == [] || e.sign == [PLUS] || e.sign == [MINUS])
        && e.digits != [] && AllDigits(e.digits))
  }

  /** The inside of a string, section 7. */
  predicate ValidBody(body: bytes) {
    StringGrammar.Legal(body, 0)
  }

  predicate Valid(d: Doc) {
    match d
    case DNull => true
    case DBool(_) => true
    case DInteger(_, digits) => IsInt(digits)
    case DFloat(_, digits, fraction, exponent) =>
      IsInt(digits) && ValidFraction(fraction) && ValidExponent(exponent) && (fraction.Fraction? || exponent.Exponent?)
    case DString(body) => ValidBody(body)
    case DEmptyArray(pad) => AllSpace(pad)
    case DArray(items) => ValidItems(items)
    case DEmptyObject(pad) => AllSpace(pad)
    case DObject(entries) => ValidEntries(entries)
  }

  predicate ValidItems(items: Items) {
    && AllSpace(items.before) && Valid(items.value) && AllSpace(items.after)
    && items.comma == items.MoreItems?
    && (items.MoreItems? ==> ValidItems(items.rest))
  }

  predicate ValidEntries(entries: Entries) {
    && AllSpace(entries.before) && ValidBody(entries.key) && AllSpace(entries.gap) && AllSpace(entries.lead)
    && Valid(entries.value) && AllSpace(entries.after)
    && entries.comma == entries.MoreEntries?
    && (entries.MoreEntries? ==> ValidEntries(entries.rest))
  }

  // ----- The wider grammar -----

  /** No bare quote, and every backslash takes the next byte with it. */
  predicate Closed(body: bytes) {
    IsBody(body, 0, |body|)
  }

  predicate LooseFraction(f: Fraction) {
    f.Fraction? ==> AllDigits(f.digits)
  }

  /** Digits on one side of the point are enough; but a number starts with a minus sign or a digit. */
  predicate LooseFloat(negative: bool, digits: bytes, fraction: Fraction) {
    && AllDigits(digits) && LooseFraction(fraction)
    && (digits != [] || (negative && fraction.Fraction? && fraction.digits != []))
  }

  predicate Loose(d: Doc) {
    match d
    case DNull => true
    case DBool(_) => true
    case DInteger(_, digits) => digits != [] && AllDigits(digits)
    case DFloat(negative, digits, fraction, exponent) =>
      LooseFloat(negative, digits, fraction) && ValidExponent(exponent)
    case DString(body) => Closed(body)
    case DEmptyArray(pad) => AllBlank(pad)
    case DArray(items) => LooseItems(items)
    case DEmptyObject(pad) => AllBlank(pad)
    case DObject(entries) => LooseEntries(entries)
  }

  /** Where there is no comma, the blanks between two elements belong to the first. */
  predicate LooseItems(items: Items) {
    && AllBlank(items.before) && Loose(items.value) && AllBlank(items.after)
    && (items.MoreItems? ==> LooseItems(items.rest) && (items.comma || items.rest.before == []))
  }

  predicate LooseEntries(entries: Entries) {
    && AllBlank(entries.before) && Closed(entries.key) && AllBlank(entries.gap) && AllBlank(entries.lead)
    && Loose(entries.value) && AllBlank(entries.after)
    && (entries.MoreEntries? ==> LooseEntries(entries.rest) && (entries.comma || entries.rest.before == []))
  }

  // ----- The literals of a document -----

  /** The insides of all its string literals, keys included. */
  function Bodies(d: Doc): seq<bytes> {
    match d
    case DString(body) => [body]
    case DArray(items) => ItemsBodies(items)
    case DObject(entries) => EntriesBodies(entries)
    case _ => []
  }

  function ItemsBodies(items: Items): seq<bytes> {
    Bodies(items.value) + (if items.MoreItems? then ItemsBodies(items.rest) else [])
  }

  function EntriesBodies(entries: Entries): seq<bytes> {
    [entries.key] + Bodies(entries.value) + (if entries.MoreEntries? then EntriesBodies(entries.rest) else [])
  }

  predicate Accepted(body: bytes) {
    Unescape.Unescaped(body, 0).Text?
  }

  predicate AllAccepted(bodies: seq<bytes>) {
    forall body :: body in bodies ==> Accepted(body)
  }

  /** Every escape of a document has a meaning to the source. */
  predicate Readable(d: Doc) {
    AllAccepted(Bodies(d))
  }

  // ----- Meaning -----

  /** The number a digit string denotes. */
  function NumberOf(s: bytes): int {
    if s == [] then 0 else
      var last: int := s[|s| - 1];
      NumberOf(s[..|s| - 1]) * 10 + (last - 0x30)
  }

  /** What strtoll and strtoull return for a decimal literal: the number, held inside 64 bits. */
  function IntegerTree(negative: bool, magnitude: int): Tree {
    if negative then Integer(if -magnitude < INT64_MIN then INT64_MIN else -magnitude)
    else if magnitude > UINT64_MAX then UInt64(UINT64_MAX)
    else if magnitude > INT64_MAX then UInt64(magnitude)
    else Integer(magnitude)
  }

  function BodyMeaning(body: bytes): bytes {
    var r := Unescape.Unescaped(body, 0);
    if r.Text? then r.text else []
  }

  /** `map[key] = value`: an existing key keeps its place and gets the new value. */
  function PutAt(entries: seq<Pair>, key: bytes, value: Tree): seq<Pair> {
    if entries == [] then [Pair(key, value)]
    else if entries[0].key == key then [Pair(key, value)] + entries[1..]
    else [entries[0]] + PutAt(entries[1..], key, value)
  }

  /** The tree a document denotes. */
  function Meaning(d: Doc): Tree {
    match d
    case DNull => Null
    case DBool(b) => Bool(b)
    case DInteger(negative, digits) => IntegerTree(negative, NumberOf(digits))
    case DFloat(_, _, _, _) => Float(Text(d))
    case DString(body) => Str(BodyMeaning(body))
    case DEmptyArray(_) => Vector([])
    case DArray(items) => Vector(ItemsMeaning(items))
    case DEmptyObject(_) => Map([])
    case DObject(entries) => Map(EntriesMeaning(entries, []))
  }

  function ItemsMeaning(items: Items): seq<Tree> {
    [Meaning(items.value)] + (if items.MoreItems? then ItemsMeaning(items.rest) else [])
  }

  function EntriesMeaning(entries: Entries, done: seq<Pair>): seq<Pair> {
    var added := PutAt(done, BodyMeaning(entries.key), Meaning(entries.value));
    if entries.MoreEntries? then EntriesMeaning(entries.rest, added) else added
  }
}

/** The text the serializer prints for a tree, and the text its beautifier makes of it, are documents of the JSON
    grammar that denote the tree. */
module TreeDocument {
  import opened Bytes
  import opened Unicode
  import opened JsonDocument
  import opened JsonBeautifier
  import opened Serializer
  import opened EscapeLegal
  import opened StringGrammar
  import Escape
  import EscapeRoundTrip
  import Unescape

  predicate DistinctKeys(entries: seq<Pair>) {
    forall i, j :: 0 <= i < j < |entries| ==> entries[i].key != entries[j].key
  }

  /** The document of a number with a fraction or an exponent. */
  predicate IsFloat(d: Doc, lexeme: bytes) {
    d.DFloat? && Valid(d) && Text(d) == lexeme
  }

  ghost predicate IsFloatText(lexeme: bytes) {
    exists d :: IsFloat(d, lexeme)
  }

  ghost function FloatDoc(lexeme: bytes): (d: Doc)
    ensures IsFloatText(lexeme) ==> IsFloat(d, lexeme)
  {
    if IsFloatText(lexeme) then
      var d :| IsFloat(d, lexeme);
      d
    else DNull
  }

  /** Trees of null, bool, 64-bit integer, floating-point number whose text has a fraction or an exponent, well-formed
      UTF-8 string, vector and map. */
  ghost predicate Printable(t: Tree)
    decreases t
  {
    match t
    case Undefined => false
    case Null => true
    case Bool(_) => true
    case Integer(n) => INT64_MIN <= n <= INT64_MAX
    case UInt64(u) => 0 <= u <= UINT64_MAX
    case Float(lexeme) => IsFloatText(lexeme)
    case Str(text) => WellFormed(text, 0)
    case Vector(items) => forall k :: 0 <= k < |items| ==> Printable(items[k])
    case Map(entries) =>
      && DistinctKeys(entries)
      && forall k :: 0 <= k < |entries| ==> WellFormed(entries[k].key, 0) && Printable(entries[k].value)
  }

  /** The text does not tell an unsigned 64-bit node from a signed one: below 2^63 it reads as a signed one. */
  function Norm(t: Tree): Tree
    decreases t
  {
    match t
    case UInt64(u) => if u <= INT64_MAX then Integer(u) else t
    case Vector(items) => Vector(NormItems(items, 0))
    case Map(entries) => Map(NormEntries(entries, 0))
    case _ => t
  }

  function NormItems(items: seq<Tree>, index: nat): seq<Tree>
    decreases items, |items| - index
  {
    if index >= |items| then [] else [Norm(items[index])] + NormItems(items, index + 1)
  }

  function NormEntries(entries: seq<Pair>, index: nat): seq<Pair>
    decreases entries, |entries| - index
  {
    if index >= |entries| then []
    else [Pair(entries[index].key, Norm(entries[index].value))] + NormEntries(entries, index + 1)
  }

  /** How a document is laid out: compact, or indented from a level on. */
  datatype Layout = Compact | Indented(level: nat)

  function Gap(layout: Layout): bytes {
    if layout.Compact? then [] else IndentText(STYLE, layout.level)
  }

  function Deeper(layout: Layout): Layout {
    if layout.Compact? then Compact else Indented(layout.level + 1)
  }

  function Lead(layout: Layout): bytes {
    if layout.Compact? then [] else [SPACE]
  }

  function Body(text: bytes, config: Config): bytes {
    Escape.EscapeResult(text, config.flags)
  }

  function IntDoc(n: int): Doc {
    DInteger(n < 0, DecimalText(if n < 0 then -n else n))
  }

  ghost function DocOf(t: Tree, config: Config, layout: Layout): Doc
    decreases t
  {
    match t
    case Undefined => DNull
    case Null => DNull
    case Bool(b) => DBool(b)
    case Integer(n) => IntDoc(n)
    case UInt64(u) => IntDoc(u)
    case Float(lexeme) => FloatDoc(lexeme)
    case Str(text) => DString(Body(text, config))
    case Vector(items) => if items == [] then DEmptyArray([]) else DArray(ItemsOf(items, 0, config, layout))
    case Map(entries) => if entries == [] then DEmptyObject([]) else DObject(EntriesOf(entries, 0, config, layout))
  }

  ghost function ItemsOf(items: seq<Tree>, index: nat, config: Config, layout: Layout): Items
    requires index < |items|
    decreases items, |items| - index
  {
    var value := DocOf(items[index], config, Deeper(layout));
    if index + 1 == |items| then LastItem(Gap(Deeper(layout)), value, Gap(layout), false)
    else MoreItems(Gap(Deeper(layout)), value, [], true, ItemsOf(items, index + 1, config, layout))
  }

  ghost function EntriesOf(entries: seq<Pair>, index: nat, config: Config, layout: Layout): Entries
    requires index < |entries|
    decreases entries, |entries| - index
  {
    var key := Body(entries[index].key, config);
    var value := DocOf(entries[index].value, config, Deeper(layout));
    if index + 1 == |entries| then LastEntry(Gap(Deeper(layout)), key, [], Lead(layout), value, Gap(layout), false)
    else MoreEntries(Gap(Deeper(layout)), key, [], Lead(layout), value, [], true,
                     EntriesOf(entries, index + 1, config, layout))
  }

  // ----- Strings -----

  /** The escaped form of a well-formed string is a legal literal body that means the string. */
  lemma BodyOfText(text: bytes, config: Config)
    requires WellFormed(text, 0)
    ensures ValidBody(Body(text, config)) && Accepted(Body(text, config)) && BodyMeaning(Body(text, config)) == text
  {
    hide Escape.Escaped, Legal, Unescape.Unescaped, WellFormed;
    EscapeRoundTrip.RoundTrip(text, config.flags);
    if Escape.TakesShortcut(text, config.flags) {
      PlainBody(text, 0);
    } else {
      EscapedBody(text, 0, config.flags);
    }
  }
}

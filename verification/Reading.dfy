/** Which document of the wider grammar stands in a text: at most one, and `DocAt` finds it. */
module Reading {
  import opened Bytes
  import opened Literals
  import opened JsonDocument
  import opened DeserializerSpec

  predicate IsNumber(d: Doc) {
    d.DInteger? || d.DFloat?
  }

  // ----- Where a number ends -----

  predicate DigitAt(data: bytes, i: nat) {
    i < |data| && IsDigit(data[i])
  }

  predicate SignAt(data: bytes, i: nat) {
    i < |data| && (data[i] == PLUS || data[i] == MINUS)
  }

  predicate PointAt(data: bytes, i: nat) {
    i < |data| && data[i] == POINT
  }

  /** A complete exponent starts here. */
  predicate ExponentAt(data: bytes, i: nat) {
    i < |data| && (data[i] == LOWER_E || data[i] == UPPER_E)
      && (DigitAt(data, i + 1) || (SignAt(data, i + 1) && DigitAt(data, i + 2)))
  }

  /** What follows does not make the number longer. An integer is told from a floating-point number by looking ahead,
      past digits and minus signs, for a point or an exponent letter. */
  predicate NumberEnds(d: Doc, data: bytes, end: nat) {
    && !DigitAt(data, end)
    && match d
       case DFloat(_, _, fraction, exponent) =>
         || exponent.Exponent?
         || (!ExponentAt(data, end) && (fraction.Fraction? || (!PointAt(data, end) && HasSeparator(data, end))))
       case _ => !HasSeparator(data, end)
  }

  // ----- Where a document stands -----

  /** The document d stands at position p, and none of its numbers goes on behind its end. */
  predicate Stands(d: Doc, data: bytes, p: nat)
    decreases d, 0
  {
    match d
    case DInteger(_, _) => IsAtText(data, p, Text(d)) && NumberEnds(d, data, p + |Text(d)|)
    case DFloat(_, _, _, _) => IsAtText(data, p, Text(d)) && NumberEnds(d, data, p + |Text(d)|)
    case DArray(items) => IsAtText(data, p, [LBRACKET]) && ItemsStand(items, data, p + 1)
    case DObject(entries) => IsAtText(data, p, [LBRACE]) && EntriesStand(entries, data, p + 1)
    case _ => IsAtText(data, p, Text(d))
  }

  function ItemSize(before: bytes, value: Doc, after: bytes, comma: bool): nat {
    |before| + |Text(value)| + |after| + |CommaText(comma)|
  }

  /** One item, with its comma if it has one. */
  predicate ItemStands(before: bytes, value: Doc, after: bytes, comma: bool, data: bytes, p: nat)
    decreases value, 1
  {
    var v := p + |before|;
    var e := v + |Text(value)|;
    && IsAtText(data, p, before) && Stands(value, data, v)
    && IsAtText(data, e, after) && IsAtText(data, e + |after|, CommaText(comma))
  }

  /** The items up to and with the closing bracket. */
  predicate ItemsStand(items: Items, data: bytes, p: nat)
    decreases items, 2
  {
    var n := p + ItemSize(items.before, items.value, items.after, items.comma);
    && ItemStands(items.before, items.value, items.after, items.comma, data, p)
    && if items.MoreItems? then ItemsStand(items.rest, data, n) else IsAtText(data, n, [RBRACKET])
  }

  function EntrySize(before: bytes, key: bytes, gap: bytes, lead: bytes, value: Doc, after: bytes, comma: bool): nat {
    |before| + |Quoted(key)| + |gap| + 1 + |lead| + |Text(value)| + |after| + |CommaText(comma)|
  }

  /** One entry, with its comma if it has one. */
  predicate EntryStands(before: bytes, key: bytes, gap: bytes, lead: bytes, value: Doc, after: bytes, comma: bool,
                        data: bytes, p: nat)
    decreases value, 1
  {
    var k := p + |before|;
    var g := k + |Quoted(key)|;
    var c := g + |gap|;
    var v := c + 1 + |lead|;
    var e := v + |Text(value)|;
    && IsAtText(data, p, before) && IsAtText(data, k, Quoted(key))
    && IsAtText(data, g, gap) && IsAtText(data, c, [COLON]) && IsAtText(data, c + 1, lead)
    && Stands(value, data, v)
    && IsAtText(data, e, after) && IsAtText(data, e + |after|, CommaText(comma))
  }

  /** The entries up to and with the closing brace. */
  predicate EntriesStand(entries: Entries, data: bytes, p: nat)
    decreases entries, 2
  {
    var n := p + EntrySize(entries.before, entries.key, entries.gap, entries.lead, entries.value, entries.after,
                           entries.comma);
    && EntryStands(entries.before, entries.key, entries.gap, entries.lead, entries.value, entries.after, entries.comma,
                   data, p)
    && if entries.MoreEntries? then EntriesStand(entries.rest, data, n) else IsAtText(data, n, [RBRACE])
  }

  // ----- Finding it -----

  datatype Found = Found(doc: Doc, end: nat) | NoDoc
  datatype FoundItems = FoundItems(items: Items, end: nat) | NoItems
  datatype FoundEntries = FoundEntries(entries: Entries, end: nat) | NoEntries
  datatype FoundItem = FoundItem(before: bytes, value: Doc, after: bytes, comma: bool, end: nat) | NoItem
  datatype FoundEntry =
    | FoundEntry(before: bytes, key: bytes, gap: bytes, lead: bytes, value: Doc, after: bytes, comma: bool, end: nat)
    | NoEntry
  datatype FoundBody = FoundBody(body: bytes, end: nat) | NoBody

  function FractionAt(data: bytes, i: nat): (f: Fraction)
    requires i <= |data|
    ensures i + |FractionText(f)| == FractionEnd(data, i)
  {
    if PointAt(data, i) then Fraction(data[i + 1..DigitsEnd(data, i + 1)]) else NoFraction
  }

  function ExponentOf(data: bytes, i: nat): (e: Exponent)
    requires i <= |data|
    ensures i + |ExponentText(e)| == ExponentEnd(data, i)
  {
    if ExponentAt(data, i) then
      var j := if SignAt(data, i + 1) then i + 2 else i + 1;
      Exponent(data[i], data[i + 1..j], data[j..DigitsEnd(data, j)])
    else NoExponent
  }

  function NumberAt(data: bytes, i: nat): (r: Found)
    requires i < |data|
    ensures r.Found? ==> i < r.end <= |data| && IsNumber(r.doc)
  {
    var start := AfterSign(data, i);
    var whole := DigitsEnd(data, start);
    if HasSeparator(data, i) then
      if FloatEnd(data, i) == i then NoDoc
      else
        var exponent := ExponentOf(data, FractionEnd(data, whole));
        Found(DFloat(data[i] == MINUS, data[start..whole], FractionAt(data, whole), exponent), FloatEnd(data, i))
    else if whole == start then NoDoc
    else Found(DInteger(data[i] == MINUS, data[start..whole]), whole)
  }

  function BodyAt(data: bytes, i: nat): (r: FoundBody)
    ensures r.FoundBody? ==> i + 1 < r.end <= |data|
  {
    if CharAt(data, i) != QUOTE || i >= |data| then NoBody
    else match ClosingQuote(data, i + 1)
      case Nowhere => NoBody
      case At(end) => FoundBody(data[i + 1..end], end + 1)
  }

  function KeywordAt(data: bytes, i: nat, d: Doc): (r: Found) {
    if IsAtText(data, i, Text(d)) then Found(d, i + |Text(d)|) else NoDoc
  }

  function DocAt(data: bytes, i: nat): (r: Found)
    requires i <= |data|
    ensures r.Found? ==> i < r.end <= |data|
    decreases |data| - i, 1
  {
    var p := SkipBlanks(data, i);
    var c := CharAt(data, p);
    if c == NULL_TEXT[0] then KeywordAt(data, p, DNull)
    else if p < |data| && c == LBRACE then
      var s := SkipBlanks(data, p + 1);
      if s < |data| && data[s] == RBRACE then Found(DEmptyObject(data[p + 1..s]), s + 1)
      else (match EntriesAt(data, p + 1)
            case NoEntries => NoDoc
            case FoundEntries(entries, e) => Found(DObject(entries), e))
    else if p < |data| && c == LBRACKET then
      var s := SkipBlanks(data, p + 1);
      if s < |data| && data[s] == RBRACKET then Found(DEmptyArray(data[p + 1..s]), s + 1)
      else (match ItemsAt(data, p + 1)
            case NoItems => NoDoc
            case FoundItems(items, e) => Found(DArray(items), e))
    else if c == QUOTE then
      (match BodyAt(data, p) case NoBody => NoDoc case FoundBody(body, e) => Found(DString(body), e))
    else if c == TRUE_TEXT[0] then KeywordAt(data, p, DBool(true))
    else if c == FALSE_TEXT[0] then KeywordAt(data, p, DBool(false))
    else if p < |data| && StartsNumber(c) then NumberAt(data, p)
    else NoDoc
  }

  /** An item and what separates it from the next. */
  function ItemAt(data: bytes, i: nat): (r: FoundItem)
    requires i <= |data|
    ensures r.FoundItem? ==> i < r.end <= |data|
    decreases |data| - i, 2
  {
    match DocAt(data, i)
    case NoDoc => NoItem
    case Found(value, e) =>
      var q := SkipBlanks(data, e);
      var n := AfterComma(data, q);
      FoundItem(data[i..SkipBlanks(data, i)], value, data[e..q], n > q, n)
  }

  /** The items from position i on, at least one. */
  function ItemsAt(data: bytes, i: nat): (r: FoundItems)
    requires i <= |data|
    ensures r.FoundItems? ==> i < r.end <= |data|
    decreases |data| - i, 3
  {
    match ItemAt(data, i)
    case NoItem => NoItems
    case FoundItem(before, value, after, comma, n) =>
      if n < |data| && data[n] == RBRACKET then FoundItems(LastItem(before, value, after, comma), n + 1)
      else match ItemsAt(data, n)
        case NoItems => NoItems
        case FoundItems(rest, end) => FoundItems(MoreItems(before, value, after, comma, rest), end)
  }

  /** An entry and what separates it from the next. */
  function EntryAt(data: bytes, i: nat): (r: FoundEntry)
    requires i <= |data|
    ensures r.FoundEntry? ==> i < r.end <= |data|
    decreases |data| - i, 2
  {
    var k := SkipBlanks(data, i);
    match BodyAt(data, k)
    case NoBody => NoEntry
    case FoundBody(key, g) =>
      var c := SkipBlanks(data, g);
      if c >= |data| || data[c] != COLON then NoEntry
      else match DocAt(data, c + 1)
        case NoDoc => NoEntry
        case Found(value, e) =>
          var q := SkipBlanks(data, e);
          var n := AfterComma(data, q);
          FoundEntry(data[i..k], key, data[g..c], data[c + 1..SkipBlanks(data, c + 1)], value, data[e..q], n > q, n)
  }

  /** The entries from position i on, at least one. */
  function EntriesAt(data: bytes, i: nat): (r: FoundEntries)
    requires i <= |data|
    ensures r.FoundEntries? ==> i < r.end <= |data|
    decreases |data| - i, 3
  {
    match EntryAt(data, i)
    case NoEntry => NoEntries
    case FoundEntry(before, key, gap, lead, value, after, comma, n) =>
      if n < |data| && data[n] == RBRACE
        then FoundEntries(LastEntry(before, key, gap, lead, value, after, comma), n + 1)
      else match EntriesAt(data, n)
        case NoEntries => NoEntries
        case FoundEntries(rest, end) =>
          FoundEntries(MoreEntries(before, key, gap, lead, value, after, comma, rest), end)
  }
}

/** JSON texts and the deserializer: it reads a document of RFC 8259 exactly if the high surrogates among its escapes
    are answered, and a text it accepts is JSON exactly if the document it found is tidy. */
module JsonTexts {
  import opened Bytes
  import opened JsonDocument
  import opened DeserializerSpec
  import opened Reading
  import opened ReadingProof
  import opened DeserializerProof
  import opened StringGrammar

  // ----- JSON is part of the wider grammar -----

  lemma SpaceIsBlank(s: bytes)
    requires AllSpace(s)
    ensures AllBlank(s)
  {
  }

  lemma {:induction false} ValidIsLoose(d: Doc)
    requires Valid(d)
    ensures Loose(d)
    decreases d, 1
  {
    hide ValidBody, Closed, AllBlank, AllSpace;
    match d
    case DString(body) => LegalClosed(body);
    case DEmptyArray(pad) => SpaceIsBlank(pad);
    case DEmptyObject(pad) => SpaceIsBlank(pad);
    case DArray(items) => ValidItemsAreLoose(items);
    case DObject(entries) => ValidEntriesAreLoose(entries);
    case _ =>
  }

  lemma LegalClosed(body: bytes)
    requires ValidBody(body)
    ensures Closed(body)
  {
    LegalIsClosed(body, 0);
  }

  lemma {:induction false} ValidItemsAreLoose(items: Items)
    requires ValidItems(items)
    ensures LooseItems(items)
    decreases items, 1
  {
    hide Valid, Loose, AllBlank, AllSpace;
    SpaceIsBlank(items.before);
    SpaceIsBlank(items.after);
    ValidIsLoose(items.value);
    if items.MoreItems? {
      ValidItemsAreLoose(items.rest);
    }
  }

  lemma {:induction false} ValidEntriesAreLoose(entries: Entries)
    requires ValidEntries(entries)
    ensures LooseEntries(entries)
    decreases entries, 1
  {
    hide Valid, Loose, AllBlank, AllSpace, ValidBody, Closed;
    SpaceIsBlank(entries.before);
    LegalClosed(entries.key);
    SpaceIsBlank(entries.gap);
    SpaceIsBlank(entries.lead);
    SpaceIsBlank(entries.after);
    ValidIsLoose(entries.value);
    if entries.MoreEntries? {
      ValidEntriesAreLoose(entries.rest);
    }
  }

  // ----- The text of a JSON document stands as the document -----

  /** What may follow a number: the end, a blank, a comma or a closing bracket. */
  predicate Delimited(data: bytes, i: nat) {
    i >= |data| || IsBlank(data[i]) || data[i] == COMMA || data[i] == RBRACKET || data[i] == RBRACE
  }

  lemma DelimiterEnds(d: Doc, data: bytes, e: nat)
    requires Delimited(data, e) && IsNumber(d) && Valid(d)
    ensures NumberEnds(d, data, e)
  {
  }

  /** Blanks after an element, its comma, and what follows. */
  lemma AfterDelimits(data: bytes, e: nat, after: bytes, comma: bool, closer: byte)
    requires AllSpace(after) && (closer == RBRACKET || closer == RBRACE)
    requires IsAtText(data, e, after) && IsAtText(data, e + |after|, CommaText(comma))
    requires !comma ==> IsAtText(data, e + |after|, [closer])
    ensures Delimited(data, e)
  {
    if after != [] {
      ByteOfText(data, e, after, 0);
    } else if comma {
      ByteOfText(data, e, CommaText(comma), 0);
    } else {
      ByteOfText(data, e, [closer], 0);
    }
  }

  /** Where the text of a JSON document is, the document stands; a number has to be delimited. */
  lemma {:induction false} ValidStands(d: Doc, data: bytes, p: nat)
    requires Valid(d) && IsAtText(data, p, Text(d)) && (IsNumber(d) ==> Delimited(data, p + |Text(d)|))
    ensures Stands(d, data, p)
    decreases d, 1
  {
    hide IsAtText, Delimited, NumberEnds, ItemsStand, EntriesStand, ItemsText, EntriesText, ValidBody, ValidItems,
         ValidEntries;
    match d
    case DArray(items) =>
      assert [LBRACKET] + ItemsText(items) + [RBRACKET] == [LBRACKET] + (ItemsText(items) + [RBRACKET]);
      SplitText(data, p, [LBRACKET], ItemsText(items) + [RBRACKET]);
      ValidItemsStand(items, data, p + 1);
    case DObject(entries) =>
      assert [LBRACE] + EntriesText(entries) + [RBRACE] == [LBRACE] + (EntriesText(entries) + [RBRACE]);
      SplitText(data, p, [LBRACE], EntriesText(entries) + [RBRACE]);
      ValidEntriesStand(entries, data, p + 1);
    case DInteger(_, _) => DelimiterEnds(d, data, p + |Text(d)|);
    case DFloat(_, _, _, _) => DelimiterEnds(d, data, p + |Text(d)|);
    case _ =>
  }

  /** A value with what comes after it. */
  lemma SplitValue(data: bytes, v: nat, value: bytes, after: bytes, comma: bytes, rest: bytes)
    requires IsAtText(data, v, value + (after + (comma + rest)))
    ensures var e := v + |value|; var q := e + |after|;
            IsAtText(data, v, value) && IsAtText(data, e, after) && IsAtText(data, q, comma)
              && IsAtText(data, q + |comma|, rest)
  {
    hide IsAtText;
    SplitText(data, v, value, after + (comma + rest));
    SplitText(data, v + |value|, after, comma + rest);
    SplitText(data, v + |value| + |after|, comma, rest);
  }

  lemma {:induction false} ValidItemsStand(items: Items, data: bytes, p: nat)
    requires ValidItems(items) && IsAtText(data, p, ItemsText(items) + [RBRACKET])
    ensures ItemsStand(items, data, p)
    decreases items, 1
  {
    hide IsAtText, Delimited, Text, ItemsText, Stands, Valid, AllSpace, CommaText, IsNumber;
    var rest := (if items.MoreItems? then ItemsText(items.rest) else []) + [RBRACKET];
    var v := p + |items.before|;
    var e := v + |Text(items.value)|;
    ItemsAssoc(items, rest);
    SplitText(data, p, items.before, Text(items.value) + (items.after + (CommaText(items.comma) + rest)));
    SplitValue(data, v, Text(items.value), items.after, CommaText(items.comma), rest);
    if items.MoreItems? {
      ValidItemsStand(items.rest, data, e + |items.after| + |CommaText(items.comma)|);
    } else {
      LastRest(items.comma, RBRACKET, rest);
    }
    AfterDelimits(data, e, items.after, items.comma, RBRACKET);
    ValidStands(items.value, data, v);
  }

  lemma LastRest(comma: bool, closer: byte, rest: bytes)
    requires !comma && rest == [] + [closer]
    ensures rest == [closer] && |CommaText(comma)| == 0
  {
  }

  lemma ItemsAssoc(items: Items, rest: bytes)
    requires rest == (if items.MoreItems? then ItemsText(items.rest) else []) + [RBRACKET]
    ensures ItemsText(items) + [RBRACKET]
            == items.before + (Text(items.value) + (items.after + (CommaText(items.comma) + rest)))
  {
    hide Text, CommaText;
  }

  /** A key with what comes before and after it. */
  lemma SplitKey(data: bytes, p: nat, before: bytes, key: bytes, gap: bytes, lead: bytes, tail: bytes)
    requires IsAtText(data, p, before + (key + (gap + ([COLON] + (lead + tail)))))
    ensures var g := p + |before| + |key|; var c := g + |gap|;
            && IsAtText(data, p, before) && IsAtText(data, p + |before|, key) && IsAtText(data, g, gap)
            && IsAtText(data, c, [COLON]) && IsAtText(data, c + 1, lead) && IsAtText(data, c + 1 + |lead|, tail)
  {
    hide IsAtText;
    var g := p + |before| + |key|;
    SplitText(data, p, before, key + (gap + ([COLON] + (lead + tail))));
    SplitText(data, p + |before|, key, gap + ([COLON] + (lead + tail)));
    SplitText(data, g, gap, [COLON] + (lead + tail));
    SplitText(data, g + |gap|, [COLON], lead + tail);
    SplitText(data, g + |gap| + 1, lead, tail);
  }

  lemma {:induction false} ValidEntriesStand(entries: Entries, data: bytes, p: nat)
    requires ValidEntries(entries) && IsAtText(data, p, EntriesText(entries) + [RBRACE])
    ensures EntriesStand(entries, data, p)
    decreases entries, 1
  {
    hide IsAtText, Delimited, Text, EntriesText, Stands, Valid, AllSpace, CommaText, IsNumber, Quoted, ValidBody;
    var rest := (if entries.MoreEntries? then EntriesText(entries.rest) else []) + [RBRACE];
    var tail := Text(entries.value) + (entries.after + (CommaText(entries.comma) + rest));
    var v := p + |entries.before| + |Quoted(entries.key)| + |entries.gap| + 1 + |entries.lead|;
    var e := v + |Text(entries.value)|;
    EntriesAssoc(entries, rest);
    SplitKey(data, p, entries.before, Quoted(entries.key), entries.gap, entries.lead, tail);
    SplitValue(data, v, Text(entries.value), entries.after, CommaText(entries.comma), rest);
    if entries.MoreEntries? {
      ValidEntriesStand(entries.rest, data, e + |entries.after| + |CommaText(entries.comma)|);
    } else {
      LastRest(entries.comma, RBRACE, rest);
    }
    AfterDelimits(data, e, entries.after, entries.comma, RBRACE);
    ValidStands(entries.value, data, v);
  }

  lemma EntriesAssoc(entries: Entries, rest: bytes)
    requires rest == (if entries.MoreEntries? then EntriesText(entries.rest) else []) + [RBRACE]
    ensures EntriesText(entries) + [RBRACE]
            == entries.before + (Quoted(entries.key) + (entries.gap + ([COLON] + (entries.lead
               + (Text(entries.value) + (entries.after + (CommaText(entries.comma) + rest)))))))
  {
    hide Text, CommaText, Quoted;
  }

  // ----- Which JSON documents are read -----

  /** Every escape of a high surrogate in the document has the digits of a low one two bytes on. */
  predicate AllAnswered(d: Doc) {
    forall body :: body in Bodies(d) ==> Answered(body, 0)
  }

  predicate AllValid(bodies: seq<bytes>) {
    forall body :: body in bodies ==> ValidBody(body)
  }

  lemma {:induction false} BodiesOfValid(d: Doc)
    requires Valid(d)
    ensures AllValid(Bodies(d))
    decreases d, 1
  {
    hide ValidBody, AllSpace;
    match d
    case DArray(items) => BodiesOfItems(items);
    case DObject(entries) => BodiesOfEntries(entries);
    case _ =>
  }

  lemma {:induction false} BodiesOfItems(items: Items)
    requires ValidItems(items)
    ensures AllValid(ItemsBodies(items))
    decreases items, 0
  {
    hide ValidBody, AllSpace;
    BodiesOfValid(items.value);
    if items.MoreItems? {
      BodiesOfItems(items.rest);
    }
  }

  lemma {:induction false} BodiesOfEntries(entries: Entries)
    requires ValidEntries(entries)
    ensures AllValid(EntriesBodies(entries))
    decreases entries, 0
  {
    hide ValidBody, AllSpace;
    BodiesOfValid(entries.value);
    if entries.MoreEntries? {
      BodiesOfEntries(entries.rest);
    }
  }

  lemma ReadableExactly(d: Doc)
    requires Valid(d)
    ensures Readable(d) <==> AllAnswered(d)
  {
    hide Valid, Bodies, Answered;
    BodiesOfValid(d);
    forall body | body in Bodies(d)
      ensures Accepted(body) <==> Answered(body, 0)
    {
      LegalAccepted(body, 0);
    }
  }

  /** A JSON document, whatever follows it, is read to its end with the tree it denotes if all its high surrogates are
      answered; otherwise it is refused. A number has to be delimited. */
  lemma ReadValue(d: Doc, data: bytes, i: nat, p: nat)
    requires Valid(d)
    requires SkipBlanks(data, i) == p && i <= |data| && IsAtText(data, p, Text(d))
    requires IsNumber(d) ==> Delimited(data, p + |Text(d)|)
    ensures AllAnswered(d) ==> Value(data, i) == Parsed(Meaning(d), p + |Text(d)|)
    ensures !AllAnswered(d) ==> Value(data, i).Failed?
  {
    hide Value, Valid, Loose, Stands, DocAt, Text, Meaning, SkipBlanks, IsAtText, Readable, AllAnswered, Delimited;
    ValidIsLoose(d);
    ValidStands(d, data, p);
    DocOnly(d, data, i);
    ValueMeans(data, i);
    ReadableExactly(d);
  }

  lemma WholeText(before: bytes, t: bytes, after: bytes)
    requires AllSpace(before) && AllSpace(after) && t != [] && !IsBlank(t[0])
    ensures var data := before + t + after; var p := |before|;
            SkipBlanks(data, 0) == p && IsAtText(data, p, t) && Delimited(data, p + |t|)
  {
    hide SkipBlanks;
    var data := before + t + after;
    assert data[..|before|] == before;
    assert data[|before|] == t[0];
    SkipOver(data, 0, before);
  }

  /** A JSON text, that is, a JSON document between blanks, is consumed whole and its tree is built if and only if every
      escape of a high surrogate in it has the digits of a low one two bytes on. */
  lemma ReadDocument(before: bytes, d: Doc, after: bytes)
    requires AllSpace(before) && Valid(d) && AllSpace(after)
    ensures Value(before + Text(d) + after, 0) == Parsed(Meaning(d), |before| + |Text(d)|) <==> AllAnswered(d)
    ensures !AllAnswered(d) ==> Value(before + Text(d) + after, 0).Failed?
  {
    hide Value, Valid, Loose, Text, Meaning, SkipBlanks, AllSpace, IsAtText, Delimited, AllAnswered;
    ValidIsLoose(d);
    FirstByte(d);
    WholeText(before, Text(d), after);
    ReadValue(d, before + Text(d) + after, 0, |before|);
  }

  // ----- Which accepted texts are JSON -----

  predicate IsJsonAs(text: bytes, before: bytes, d: Doc, after: bytes) {
    AllSpace(before) && Valid(d) && AllSpace(after) && text == before + Text(d) + after
  }

  /** A text of RFC 8259. */
  ghost predicate IsJson(text: bytes) {
    exists before, d, after :: IsJsonAs(text, before, d, after)
  }

  const FORM_FEED: byte := 0x0C

  predicate NoZeroFirst(digits: bytes) {
    |digits| > 1 ==> digits[0] != 0x30
  }

  /** A comma after every element but the last and none after that one; digits on both sides of a point and no zero
      before other digits; no form feed among the blanks; in the literals no bare control byte, no `\u+`, and between
      the halves of a surrogate pair only what may stand there. */
  predicate Tidy(d: Doc) {
    match d
    case DNull => true
    case DBool(_) => true
    case DInteger(_, digits) => NoZeroFirst(digits)
    case DFloat(_, digits, fraction, exponent) =>
      && digits != [] && NoZeroFirst(digits) && (fraction.Fraction? ==> fraction.digits != [])
      && (fraction.Fraction? || exponent.Exponent?)
    case DString(body) => Regular(body, 0)
    case DEmptyArray(pad) => FORM_FEED !in pad
    case DArray(items) => TidyItems(items)
    case DEmptyObject(pad) => FORM_FEED !in pad
    case DObject(entries) => TidyEntries(entries)
  }

  predicate TidyItems(items: Items) {
    && FORM_FEED !in items.before && Tidy(items.value) && FORM_FEED !in items.after
    && items.comma == items.MoreItems?
    && (items.MoreItems? ==> TidyItems(items.rest))
  }

  predicate TidyEntries(entries: Entries) {
    && FORM_FEED !in entries.before && Regular(entries.key, 0) && FORM_FEED !in entries.gap
    && FORM_FEED !in entries.lead
    && Tidy(entries.value) && FORM_FEED !in entries.after
    && entries.comma == entries.MoreEntries?
    && (entries.MoreEntries? ==> TidyEntries(entries.rest))
  }

  lemma BlankIsSpace(s: bytes)
    requires AllBlank(s)
    ensures AllSpace(s) <==> FORM_FEED !in s
  {
    if FORM_FEED !in s {
      assert forall k :: 0 <= k < |s| ==> s[k] in s && IsBlank(s[k]);
    }
  }

  lemma BodyLegal(body: bytes)
    requires Closed(body) && Accepted(body)
    ensures ValidBody(body) <==> Regular(body, 0)
  {
    AcceptedLegal(body, 0);
  }

  /** Among the documents the deserializer reads, the tidy ones are those of RFC 8259. */
  lemma {:induction false} TidyIsValid(d: Doc)
    requires Loose(d) && Readable(d)
    ensures Valid(d) <==> Tidy(d)
    decreases d, 1
  {
    hide ValidBody, Closed, AllBlank, AllSpace, Regular, Accepted;
    match d
    case DString(body) =>
      AcceptedOne(body);
      BodyLegal(body);
    case DEmptyArray(pad) => BlankIsSpace(pad);
    case DEmptyObject(pad) => BlankIsSpace(pad);
    case DArray(items) => TidyItemsAreValid(items);
    case DObject(entries) => TidyEntriesAreValid(entries);
    case _ =>
  }

  lemma {:induction false} TidyItemsAreValid(items: Items)
    requires LooseItems(items) && AllAccepted(ItemsBodies(items))
    ensures ValidItems(items) <==> TidyItems(items)
    decreases items, 1
  {
    hide Valid, Tidy, Loose, AllBlank, AllSpace, AllAccepted;
    ItemsParts(items);
    BlankIsSpace(items.before);
    BlankIsSpace(items.after);
    TidyIsValid(items.value);
    if items.MoreItems? {
      TidyItemsAreValid(items.rest);
    }
  }

  lemma {:induction false} TidyEntriesAreValid(entries: Entries)
    requires LooseEntries(entries) && AllAccepted(EntriesBodies(entries))
    ensures ValidEntries(entries) <==> TidyEntries(entries)
    decreases entries, 1
  {
    hide Valid, Tidy, Loose, AllBlank, AllSpace, AllAccepted, ValidBody, Closed, Regular, Accepted;
    EntriesParts(entries);
    BlankIsSpace(entries.before);
    BodyLegal(entries.key);
    BlankIsSpace(entries.gap);
    BlankIsSpace(entries.lead);
    BlankIsSpace(entries.after);
    TidyIsValid(entries.value);
    if entries.MoreEntries? {
      TidyEntriesAreValid(entries.rest);
    }
  }

  /** The text of a standing document, as a slice. */
  lemma {:induction false} StandsAsText(d: Doc, data: bytes, p: nat)
    requires Stands(d, data, p)
    ensures IsAtText(data, p, Text(d))
    decreases d, 1
  {
    hide IsAtText, ItemsStand, EntriesStand, ItemsText, EntriesText, NumberEnds;
    match d
    case DArray(items) =>
      ItemsAsText(items, data, p + 1);
      JoinText(data, p, [LBRACKET], ItemsText(items) + [RBRACKET]);
      assert [LBRACKET] + ItemsText(items) + [RBRACKET] == [LBRACKET] + (ItemsText(items) + [RBRACKET]);
    case DObject(entries) =>
      EntriesAsText(entries, data, p + 1);
      JoinText(data, p, [LBRACE], EntriesText(entries) + [RBRACE]);
      assert [LBRACE] + EntriesText(entries) + [RBRACE] == [LBRACE] + (EntriesText(entries) + [RBRACE]);
    case _ =>
  }

  lemma {:induction false} ItemsAsText(items: Items, data: bytes, p: nat)
    requires ItemsStand(items, data, p)
    ensures IsAtText(data, p, ItemsText(items) + [RBRACKET])
    decreases items, 1
  {
    hide IsAtText, Text, ItemsText, Stands, CommaText;
    var rest := (if items.MoreItems? then ItemsText(items.rest) else []) + [RBRACKET];
    var v := p + |items.before|;
    if items.MoreItems? {
      ItemsAsText(items.rest, data, v + |Text(items.value)| + |items.after| + |CommaText(items.comma)|);
    } else {
      assert rest == [RBRACKET];
    }
    StandsAsText(items.value, data, v);
    JoinValue(data, v, Text(items.value), items.after, CommaText(items.comma), rest);
    JoinText(data, p, items.before, Text(items.value) + (items.after + (CommaText(items.comma) + rest)));
    ItemsAssoc(items, rest);
  }

  lemma JoinValue(data: bytes, v: nat, value: bytes, after: bytes, comma: bytes, rest: bytes)
    requires var e := v + |value|; var q := e + |after|;
             IsAtText(data, v, value) && IsAtText(data, e, after) && IsAtText(data, q, comma)
               && IsAtText(data, q + |comma|, rest)
    ensures IsAtText(data, v, value + (after + (comma + rest)))
  {
    hide IsAtText;
    JoinText(data, v + |value| + |after|, comma, rest);
    JoinText(data, v + |value|, after, comma + rest);
    JoinText(data, v, value, after + (comma + rest));
  }

  lemma JoinKey(data: bytes, p: nat, before: bytes, key: bytes, gap: bytes, lead: bytes, tail: bytes)
    requires var g := p + |before| + |key|; var c := g + |gap|;
             && IsAtText(data, p, before) && IsAtText(data, p + |before|, key) && IsAtText(data, g, gap)
             && IsAtText(data, c, [COLON]) && IsAtText(data, c + 1, lead) && IsAtText(data, c + 1 + |lead|, tail)
    ensures IsAtText(data, p, before + (key + (gap + ([COLON] + (lead + tail)))))
  {
    hide IsAtText;
    var g := p + |before| + |key|;
    JoinText(data, g + |gap| + 1, lead, tail);
    JoinText(data, g + |gap|, [COLON], lead + tail);
    JoinText(data, g, gap, [COLON] + (lead + tail));
    JoinText(data, p + |before|, key, gap + ([COLON] + (lead + tail)));
    JoinText(data, p, before, key + (gap + ([COLON] + (lead + tail))));
  }

  lemma {:induction false} EntriesAsText(entries: Entries, data: bytes, p: nat)
    requires EntriesStand(entries, data, p)
    ensures IsAtText(data, p, EntriesText(entries) + [RBRACE])
    decreases entries, 1
  {
    hide IsAtText, Text, EntriesText, Stands, CommaText, Quoted;
    var rest := (if entries.MoreEntries? then EntriesText(entries.rest) else []) + [RBRACE];
    var tail := Text(entries.value) + (entries.after + (CommaText(entries.comma) + rest));
    var v := p + |entries.before| + |Quoted(entries.key)| + |entries.gap| + 1 + |entries.lead|;
    if entries.MoreEntries? {
      EntriesAsText(entries.rest, data, v + |Text(entries.value)| + |entries.after| + |CommaText(entries.comma)|);
    } else {
      assert rest == [RBRACE];
    }
    StandsAsText(entries.value, data, v);
    JoinValue(data, v, Text(entries.value), entries.after, CommaText(entries.comma), rest);
    JoinKey(data, p, entries.before, Quoted(entries.key), entries.gap, entries.lead, tail);
    EntriesAssoc(entries, rest);
  }

  /** A text in which the deserializer parses a value is JSON if and only if the document it found is tidy and nothing
      but blanks of JSON surround it. */
  lemma JsonExactly(text: bytes)
    requires Value(text, 0).Parsed?
    ensures DocAt(text, 0).Found? && SkipBlanks(text, 0) <= DocAt(text, 0).end <= |text|
    ensures IsJson(text) <==>
            Tidy(DocAt(text, 0).doc) && AllSpace(text[..SkipBlanks(text, 0)])
            && AllSpace(text[DocAt(text, 0).end..])
  {
    hide Value, Valid, Tidy, Loose, Stands, DocAt, Text, Readable, SkipBlanks, AllSpace, IsAtText, Delimited, IsJsonAs;
    ValueMeans(text, 0);
    DocSound(text, 0);
    var d, p, e := DocAt(text, 0).doc, SkipBlanks(text, 0), DocAt(text, 0).end;
    TidyIsValid(d);
    StandsAsText(d, text, p);
    ThreeParts(text, p, Text(d));
    if Tidy(d) && AllSpace(text[..p]) && AllSpace(text[e..]) {
      JsonAs(text, text[..p], d, text[e..]);
    }
    if before, d', after :| IsJsonAs(text, before, d', after) {
      JsonFound(text, before, d', after);
    }
  }

  lemma ThreeParts(text: bytes, p: nat, t: bytes)
    requires IsAtText(text, p, t)
    ensures p + |t| <= |text| && text == text[..p] + t + text[p + |t|..]
  {
  }

  lemma JsonAs(text: bytes, before: bytes, d: Doc, after: bytes)
    requires AllSpace(before) && Valid(d) && AllSpace(after) && text == before + Text(d) + after
    ensures IsJson(text)
  {
    assert IsJsonAs(text, before, d, after);
  }

  /** However a text is split into blanks and a JSON document, that document is the one that is found. */
  lemma JsonFound(text: bytes, before: bytes, d: Doc, after: bytes)
    requires IsJsonAs(text, before, d, after)
    ensures DocAt(text, 0) == Found(d, |before| + |Text(d)|) && SkipBlanks(text, 0) == |before|
    ensures |before| + |Text(d)| <= |text| && text[..|before|] == before && text[|before| + |Text(d)|..] == after
    ensures AllSpace(before) && AllSpace(after) && Valid(d)
  {
    hide Valid, Loose, Stands, DocAt, Text, SkipBlanks, AllSpace, IsAtText, Delimited;
    ValidIsLoose(d);
    FirstByte(d);
    WholeText(before, Text(d), after);
    ValidStands(d, text, |before|);
    DocOnly(d, text, 0);
  }

  /** `[1 2,]` */
  const UNTIDY_TEXT: bytes := [LBRACKET, 0x31, SPACE, 0x32, COMMA, RBRACKET]

  function Untidy(one: Doc, two: Doc): Doc {
    DArray(MoreItems([], one, [SPACE], false, LastItem([], two, [], true)))
  }

  lemma UntidyIs(one: Doc, two: Doc)
    requires Loose(one) && Loose(two) && Bodies(one) == [] && Bodies(two) == []
    ensures Loose(Untidy(one, two)) && Readable(Untidy(one, two)) && !Tidy(Untidy(one, two))
    ensures Meaning(Untidy(one, two)) == Vector([Meaning(one), Meaning(two)])
    ensures |Text(Untidy(one, two))| == |Text(one)| + |Text(two)| + 4
  {
    hide Text, Meaning, Loose, Tidy, Bodies;
    var last := LastItem([], two, [], true);
    assert ItemsBodies(last) == [];
    assert LooseItems(last);
    assert ItemsMeaning(last) == [Meaning(two)];
    ItemsSize(last);
    ItemsSize(MoreItems([], one, [SPACE], false, last));
    UntidyParts(MoreItems([], one, [SPACE], false, last));
  }

  lemma UntidyParts(items: Items)
    requires items.MoreItems? && !items.comma
    ensures Loose(DArray(items)) == LooseItems(items) && !Tidy(DArray(items))
            && Bodies(DArray(items)) == ItemsBodies(items)
    ensures Meaning(DArray(items)) == Vector(ItemsMeaning(items)) && |Text(DArray(items))| == |ItemsText(items)| + 2
  {
    hide ItemsText, ItemsMeaning, ItemsBodies, LooseItems;
  }

  lemma UntidyStands(one: Doc, two: Doc)
    requires Stands(one, UNTIDY_TEXT, 1) && Stands(two, UNTIDY_TEXT, 3) && |Text(one)| == |Text(two)| == 1
    ensures Stands(Untidy(one, two), UNTIDY_TEXT, 0)
  {
    hide Text, Stands, IsAtText, CommaText;
    UntidyText();
    LastStands(two, UNTIDY_TEXT, 3);
    MoreStand(one, LastItem([], two, [], true), UNTIDY_TEXT, 1);
    ArrayStands(MoreItems([], one, [SPACE], false, LastItem([], two, [], true)), UNTIDY_TEXT, 0);
  }

  lemma UntidyText()
    ensures var text := UNTIDY_TEXT;
            && IsAtText(text, 0, [LBRACKET]) && IsAtText(text, 2, [SPACE]) && IsAtText(text, 3, CommaText(false))
            && IsAtText(text, 4, CommaText(true)) && IsAtText(text, 5, [RBRACKET])
            && IsAtText(text, 1, []) && IsAtText(text, 3, []) && IsAtText(text, 4, [])
            && |CommaText(false)| == 0 && |CommaText(true)| == 1
  {
  }

  lemma LastStands(two: Doc, text: bytes, p: nat)
    requires Stands(two, text, p) && |Text(two)| == 1 && IsAtText(text, p, []) && IsAtText(text, p + 1, [])
    requires IsAtText(text, p + 1, CommaText(true)) && IsAtText(text, p + 2, [RBRACKET]) && |CommaText(true)| == 1
    ensures ItemsStand(LastItem([], two, [], true), text, p)
  {
    hide Text, Stands, IsAtText, CommaText;
  }

  lemma MoreStand(one: Doc, rest: Items, text: bytes, p: nat)
    requires Stands(one, text, p) && |Text(one)| == 1 && IsAtText(text, p, []) && IsAtText(text, p + 1, [SPACE])
    requires IsAtText(text, p + 2, CommaText(false)) && |CommaText(false)| == 0 && ItemsStand(rest, text, p + 2)
    ensures ItemsStand(MoreItems([], one, [SPACE], false, rest), text, p)
  {
    hide Text, Stands, IsAtText, CommaText;
  }

  lemma ArrayStands(items: Items, text: bytes, p: nat)
    requires IsAtText(text, p, [LBRACKET]) && ItemsStand(items, text, p + 1)
    ensures Stands(DArray(items), text, p)
  {
    hide IsAtText, ItemsStand;
  }

  /** One of the texts that are accepted and not JSON: `[1 2,]` is read as an array of two numbers. */
  lemma CommasOptional()
    ensures Value(UNTIDY_TEXT, 0) == Parsed(Vector([Integer(1), Integer(2)]), 6) && !IsJson(UNTIDY_TEXT)
  {
    hide SkipBlanks, DocAt, Value, IsJson, Text, Stands, Loose, Readable, Tidy, Meaning, Untidy;
    var text := UNTIDY_TEXT;
    var one, two := DInteger(false, [0x31]), DInteger(false, [0x32]);
    var d := Untidy(one, two);
    OneDigit(text, 1, one);
    OneDigit(text, 3, two);
    UntidyIs(one, two);
    UntidyStands(one, two);
    StopsHere(text, 0);
    DocOnly(d, text, 0);
    ValueMeans(text, 0);
    JsonExactly(text);
  }

  lemma OneDigit(data: bytes, i: nat, d: Doc)
    requires i < |data| && IsDigit(data[i]) && d == DInteger(false, [data[i]]) && Delimited(data, i + 1)
    ensures Loose(d) && Bodies(d) == [] && Stands(d, data, i) && |Text(d)| == 1 && Meaning(d) == Integer(data[i] - 0x30)
  {
    hide IsAtText, HasSeparator, NumberOf, NumberEnds, Delimited;
    DigitNumber(data[i]);
    DigitText(d);
    ByteStands(data, i, data[i]);
    DelimitedDigit(d, data, i + 1);
  }

  lemma DigitText(d: Doc)
    requires d.DInteger? && !d.negative && |d.digits| == 1
    ensures Text(d) == d.digits
  {
  }

  lemma DelimitedDigit(d: Doc, data: bytes, e: nat)
    requires d.DInteger? && Delimited(data, e)
    ensures NumberEnds(d, data, e)
  {
  }

  lemma DigitNumber(b: byte)
    requires IsDigit(b)
    ensures NumberOf([b]) == b - 0x30
  {
  }
}

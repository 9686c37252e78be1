/** Parsing undoes printing, for compact and for beautified output. */
module TreeRoundTrip {
  import opened Bytes
  import opened Unicode
  import opened JsonDocument
  import opened JsonBeautifier
  import opened Serializer
  import opened TreeDocument
  import opened DeserializerProof
  import Escape

  // ----- Numbers -----

  lemma {:induction false} DecimalOfNumber(n: nat)
    ensures IsInt(DecimalText(n)) && NumberOf(DecimalText(n)) == n
    ensures n > 0 ==> DecimalText(n)[0] != 0x30
  {
    var t := DecimalText(n);
    if n < 10 {
      assert t[..0] == [];
    } else {
      DecimalOfNumber(n / 10);
      assert t[..|t| - 1] == DecimalText(n / 10);
    }
  }

  lemma IntDocMeaning(n: int)
    requires INT64_MIN <= n <= UINT64_MAX
    ensures Valid(IntDoc(n)) && Text(IntDoc(n)) == IntText(n)
    ensures Meaning(IntDoc(n)) == if n <= INT64_MAX then Integer(n) else UInt64(n)
  {
    hide DecimalText, NumberOf;
    DecimalOfNumber(if n < 0 then -n else n);
  }

  // ----- The documents are valid and denote the tree -----

  lemma {:induction false} RepeatedSpace(text: bytes, times: int)
    requires AllSpace(text)
    ensures AllSpace(Repeated(text, times))
    decreases times
  {
    if times > 0 {
      RepeatedSpace(text, times - 1);
    }
  }

  lemma GapIsSpace(layout: Layout)
    ensures AllSpace(Gap(layout)) && AllSpace(Lead(layout))
  {
    if layout.Indented? {
      RepeatedSpace(STYLE.indent, layout.level);
    }
  }

  lemma {:induction false} PutNew(done: seq<Pair>, key: bytes, value: Tree)
    requires forall k :: 0 <= k < |done| ==> done[k].key != key
    ensures PutAt(done, key, value) == done + [Pair(key, value)]
    decreases |done|
  {
    if done != [] {
      PutNew(done[1..], key, value);
    }
  }

  lemma {:induction false} DocMeaning(t: Tree, config: Config, layout: Layout)
    requires Printable(t)
    ensures Valid(DocOf(t, config, layout)) && Readable(DocOf(t, config, layout))
    ensures Meaning(DocOf(t, config, layout)) == Norm(t)
    decreases t
  {
    hide IntDoc, ItemsOf, EntriesOf, NormItems, NormEntries, ValidBody, BodyMeaning, Body, WellFormed, AllAccepted,
         Accepted;
    AcceptedOne([]);
    match t
    case Null =>
    case Bool(_) =>
    case Integer(n) => IntDocMeaning(n);
    case UInt64(u) => IntDocMeaning(u);
    case Float(_) =>
    case Str(text) =>
      BodyOfText(text, config);
      AcceptedOne(Body(text, config));
    case Vector(items) => VectorMeaning(items, config, layout);
    case Map(entries) => MapMeaning(entries, config, layout);
  }

  lemma {:induction false} VectorMeaning(items: seq<Tree>, config: Config, layout: Layout)
    requires Printable(Vector(items))
    ensures var d := DocOf(Vector(items), config, layout); Valid(d) && Readable(d) && Meaning(d) == Norm(Vector(items))
    decreases items, |items| + 1
  {
    hide ItemsOf, NormItems, AllAccepted, ItemsBodies, ItemsMeaning, ValidItems;
    NormOfNone();
    AcceptedOne([]);
    if items != [] {
      ItemsMean(items, 0, config, layout);
    }
  }

  lemma {:induction false} MapMeaning(entries: seq<Pair>, config: Config, layout: Layout)
    requires Printable(Map(entries))
    ensures var d := DocOf(Map(entries), config, layout); Valid(d) && Readable(d) && Meaning(d) == Norm(Map(entries))
    decreases entries, |entries| + 1
  {
    hide EntriesOf, NormEntries, AllAccepted, EntriesBodies, EntriesMeaning, ValidEntries, WellFormed;
    NormOfNone();
    AcceptedOne([]);
    if entries != [] {
      EntriesMean(entries, 0, config, layout, []);
      assert [] + NormEntries(entries, 0) == NormEntries(entries, 0);
    }
  }

  lemma NormOfNone()
    ensures NormItems([], 0) == [] && NormEntries([], 0) == []
  {
  }

  lemma {:induction false} ItemsMean(items: seq<Tree>, index: nat, config: Config, layout: Layout)
    requires index < |items| && forall k :: 0 <= k < |items| ==> Printable(items[k])
    ensures ValidItems(ItemsOf(items, index, config, layout))
            && AllAccepted(ItemsBodies(ItemsOf(items, index, config, layout)))
    ensures ItemsMeaning(ItemsOf(items, index, config, layout)) == NormItems(items, index)
    decreases items, |items| - index
  {
    hide DocOf, Meaning, Norm, Gap, Valid, Printable, AllAccepted, Bodies;
    DocMeaning(items[index], config, Deeper(layout));
    GapIsSpace(layout);
    GapIsSpace(Deeper(layout));
    if index + 1 < |items| {
      ItemsMean(items, index + 1, config, layout);
    }
    ItemsParts(ItemsOf(items, index, config, layout));
  }

  lemma {:induction false} EntriesMean(entries: seq<Pair>, index: nat, config: Config, layout: Layout, done: seq<Pair>)
    requires index < |entries| && DistinctKeys(entries)
    requires forall k :: 0 <= k < |entries| ==> WellFormed(entries[k].key, 0) && Printable(entries[k].value)
    requires |done| == index && forall k :: 0 <= k < index ==> done[k].key == entries[k].key
    ensures ValidEntries(EntriesOf(entries, index, config, layout))
            && AllAccepted(EntriesBodies(EntriesOf(entries, index, config, layout)))
    ensures EntriesMeaning(EntriesOf(entries, index, config, layout), done) == done + NormEntries(entries, index)
    decreases entries, |entries| - index
  {
    hide DocOf, Meaning, Norm, Gap, Valid, Printable, ValidBody, BodyMeaning, Body, WellFormed, PutAt, Lead,
         AllAccepted, Accepted, Bodies, NormEntries;
    var entry := entries[index];
    DocMeaning(entry.value, config, Deeper(layout));
    BodyOfText(entry.key, config);
    GapIsSpace(layout);
    GapIsSpace(Deeper(layout));
    PutNew(done, entry.key, Norm(entry.value));
    EntriesParts(EntriesOf(entries, index, config, layout));
    NormRest(done, entries, index);
    if index + 1 < |entries| {
      EntriesMean(entries, index + 1, config, layout, done + [Pair(entry.key, Norm(entry.value))]);
    }
  }

  lemma NormRest(done: seq<Pair>, entries: seq<Pair>, index: nat)
    requires index < |entries|
    ensures var more := done + [Pair(entries[index].key, Norm(entries[index].value))];
            done + NormEntries(entries, index)
              == (if index + 1 < |entries| then more + NormEntries(entries, index + 1) else more)
  {
    hide Norm;
    assert NormEntries(entries, |entries|) == [];
  }

  // ----- The compact text -----

  lemma {:induction false} CompactText(t: Tree, config: Config)
    requires Printable(t) && config.includeNullElements
    ensures Text(DocOf(t, config, Compact)) == Print(t, config)
    decreases t
  {
    hide IntDoc, ItemsOf, EntriesOf, PrintItems, PrintEntries, Body, ItemsText, EntriesText, WellFormed, IntText;
    match t
    case Null =>
    case Bool(_) =>
    case Integer(n) => IntDocMeaning(n);
    case UInt64(u) => IntDocMeaning(u);
    case Float(_) =>
    case Str(text) => BodyIsEscaped(text, config);
    case Vector(items) => CompactVector(items, config);
    case Map(entries) => CompactMap(entries, config);
  }

  lemma {:induction false} CompactVector(items: seq<Tree>, config: Config)
    requires Printable(Vector(items)) && config.includeNullElements
    ensures Text(DocOf(Vector(items), config, Compact)) == Print(Vector(items), config)
    decreases items, |items| + 1
  {
    hide ItemsOf, PrintItems, ItemsText;
    PrintNone(config);
    if items != [] {
      CompactItems(items, 0, config);
    }
  }

  lemma {:induction false} CompactMap(entries: seq<Pair>, config: Config)
    requires Printable(Map(entries)) && config.includeNullElements
    ensures Text(DocOf(Map(entries), config, Compact)) == Print(Map(entries), config)
    decreases entries, |entries| + 1
  {
    hide EntriesOf, PrintEntries, EntriesText, WellFormed;
    PrintNone(config);
    if entries != [] {
      CompactEntries(entries, 0, config);
    }
  }

  lemma BodyIsEscaped(text: bytes, config: Config)
    ensures Body(text, config) == Escape.EscapeResult(text, config.flags)
  {
  }

  lemma PrintNone(config: Config)
    ensures PrintItems([], 0, config) == [] && PrintEntries([], 0, config) == []
  {
  }

  lemma {:induction false} CompactItems(items: seq<Tree>, index: nat, config: Config)
    requires index < |items| && config.includeNullElements && forall k :: 0 <= k < |items| ==> Printable(items[k])
    ensures PrintItems(items, index, config) == Separator(index) + ItemsText(ItemsOf(items, index, config, Compact))
    decreases items, |items| - index
  {
    hide DocOf, Print, Text, Printable, ItemsText, ItemsOf, PrintItems, Separator;
    CompactText(items[index], config);
    if index + 1 < |items| {
      CompactItems(items, index + 1, config);
    }
    CompactItem(items, index, config);
    RejoinItem(Separator(index), Print(items[index], config), PrintItems(items, index + 1, config));
  }

  lemma RejoinItem(separator: bytes, value: bytes, more: bytes)
    ensures (separator + value) + more == separator + ([] + (value + ([] + more)))
  {
  }

  /** One item, printed and in the document. */
  lemma CompactItem(items: seq<Tree>, index: nat, config: Config)
    requires index < |items| && config.includeNullElements
    requires Text(DocOf(items[index], config, Compact)) == Print(items[index], config)
    requires index + 1 < |items| ==>
               PrintItems(items, index + 1, config)
                 == Separator(index + 1) + ItemsText(ItemsOf(items, index + 1, config, Compact))
    ensures var value := Print(items[index], config); var more := PrintItems(items, index + 1, config);
            && PrintItems(items, index, config) == (Separator(index) + value) + more
            && ItemsText(ItemsOf(items, index, config, Compact)) == [] + (value + ([] + more))
  {
  }

  lemma {:induction false} CompactEntries(entries: seq<Pair>, index: nat, config: Config)
    requires index < |entries| && config.includeNullElements
    requires forall k :: 0 <= k < |entries| ==> Printable(entries[k].value)
    ensures PrintEntries(entries, index, config)
            == Separator(index) + EntriesText(EntriesOf(entries, index, config, Compact))
    decreases entries, |entries| - index
  {
    hide DocOf, Print, Text, Printable, Body, Quoted, Escape.EscapeResult, EntriesText, EntriesOf, PrintEntries,
         StringText, Separator;
    CompactText(entries[index].value, config);
    if index + 1 < |entries| {
      CompactEntries(entries, index + 1, config);
    }
    CompactEntry(entries, index, config);
    Rejoin(Separator(index), StringText(entries[index].key, config), Print(entries[index].value, config),
           PrintEntries(entries, index + 1, config));
  }

  lemma Rejoin(separator: bytes, key: bytes, value: bytes, more: bytes)
    ensures (separator + (key + ([COLON] + value))) + more
            == separator + ([] + (key + ([] + ([COLON] + ([] + (value + ([] + more)))))))
  {
  }

  /** One entry, printed and in the document. */
  lemma CompactEntry(entries: seq<Pair>, index: nat, config: Config)
    requires index < |entries| && config.includeNullElements
    requires Text(DocOf(entries[index].value, config, Compact)) == Print(entries[index].value, config)
    requires index + 1 < |entries| ==>
               PrintEntries(entries, index + 1, config)
                 == Separator(index + 1) + EntriesText(EntriesOf(entries, index + 1, config, Compact))
    ensures var key := StringText(entries[index].key, config); var value := Print(entries[index].value, config);
            var more := PrintEntries(entries, index + 1, config);
            && PrintEntries(entries, index, config) == (Separator(index) + (key + ([COLON] + value))) + more
            && EntriesText(EntriesOf(entries, index, config, Compact))
               == [] + (key + ([] + ([COLON] + ([] + (value + ([] + more))))))
  {
  }
}

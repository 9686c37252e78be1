/** Where a container starts with a null that is followed by something else, printing without null elements leaves a
    comma that the deserializer refuses, in the compact text and in the beautified one. */
module RefusedNulls {
  import opened Bytes
  import opened Unicode
  import opened JsonDocument
  import opened JsonBeautifier
  import opened Serializer
  import opened TreeDocument
  import opened DeserializerSpec
  import opened Reading
  import opened ReadingProof
  import opened DeserializerProof
  import opened JsonTexts
  import opened BeautifiedText
  import opened SkippedNulls
  import JsonRoundTrip
  import TreeRoundTrip

  // ----- The two ways to the stream, piece by piece -----

  /** The printed text goes straight to the stream, or through the beautifier in a state outside of strings. */
  datatype Printer = Plain | Pretty(level: nat, wantIndent: bool)

  function Out(pr: Printer, s: bytes): bytes {
    match pr
    case Plain => s
    case Pretty(level, wantIndent) => Run(STYLE, Outside(level, wantIndent), s).text
  }

  /** The blanks that are owed before a value. */
  function Owed(pr: Printer): bytes {
    if pr.Pretty? && pr.wantIndent then Gap(Indented(pr.level)) else []
  }

  function Inside(pr: Printer): Printer {
    if pr.Pretty? then Pretty(pr.level + 1, true) else Plain
  }

  function AtNext(pr: Printer): Printer {
    if pr.Pretty? then Pretty(pr.level, true) else Plain
  }

  function AfterText(pr: Printer): Printer {
    if pr.Pretty? then Pretty(pr.level, false) else Plain
  }

  function LayoutOf(pr: Printer): Layout {
    if pr.Pretty? then Indented(pr.level) else Compact
  }

  lemma OwedIsBlank(pr: Printer)
    ensures AllBlank(Owed(pr)) && AllBlank(Lead(LayoutOf(pr)))
  {
    hide Gap, AllBlank, AllSpace;
    NoBytes();
    TreeRoundTrip.GapIsSpace(LayoutOf(pr));
    SpaceIsBlank(Gap(LayoutOf(pr)));
    SpaceIsBlank(Lead(LayoutOf(pr)));
  }

  lemma NoBytes()
    ensures AllBlank([])
  {
  }

  lemma PlainOwesNothing(pr: Printer)
    requires pr.Plain?
    ensures Owed(pr) == []
  {
  }

  lemma OwedIsWanted(pr: Printer)
    requires pr.Pretty?
    ensures Wanted(STYLE, Outside(pr.level, pr.wantIndent)) == Owed(pr)
  {
  }

  lemma OutOpen(pr: Printer, c: byte, s: bytes)
    requires c == LBRACKET || c == LBRACE
    ensures Out(pr, [c] + s) == Owed(pr) + ([c] + Out(Inside(pr), s))
  {
    hide Run, Wanted, Owed;
    if pr.Pretty? {
      OpenRun(pr.level, pr.wantIndent, c);
      OwedIsWanted(pr);
      RunConcat(STYLE, Outside(pr.level, pr.wantIndent), [c], s);
      Regroup(Owed(pr), [c], Out(Inside(pr), s));
    } else {
      PlainOwesNothing(pr);
      NothingFirst([c] + s);
    }
  }

  lemma Regroup(a: bytes, b: bytes, c: bytes)
    ensures (a + b) + c == a + (b + c)
  {
  }

  lemma NothingFirst(s: bytes)
    ensures [] + s == s
  {
  }

  lemma OutComma(pr: Printer, s: bytes)
    ensures Out(pr, [COMMA] + s) == [COMMA] + Out(AtNext(pr), s)
  {
    hide Run;
    if pr.Pretty? {
      RunByte(Outside(pr.level, pr.wantIndent), COMMA);
      RunConcat(STYLE, Outside(pr.level, pr.wantIndent), [COMMA], s);
    }
  }

  /** A tree that leads well is printed as a JSON document. */
  lemma OutValue(t: Tree, config: Config, pr: Printer, s: bytes)
    requires Printable(t) && LeadsWell(t) && !config.includeNullElements
    ensures Out(pr, Print(t, config) + s)
            == Owed(pr) + (Text(DocOf(Drop(t), Full(config), LayoutOf(pr))) + Out(AfterText(pr), s))
  {
    hide Run, Wanted, Owed, Print, Text, DocOf, Drop, Printable, LeadsWell;
    var text := Text(DocOf(Drop(t), Full(config), LayoutOf(pr)));
    DropPrintable(t);
    PrintsLikeDropped(t, config);
    if pr.Pretty? {
      PrettyRun(Drop(t), Full(config), pr.level, pr.wantIndent);
      OwedIsWanted(pr);
      RunConcat(STYLE, Outside(pr.level, pr.wantIndent), Print(t, config), s);
      Regroup(Owed(pr), text, Out(AfterText(pr), s));
    } else {
      TreeRoundTrip.CompactText(Drop(t), Full(config));
      PlainOwesNothing(pr);
      NothingFirst(text + s);
    }
  }

  lemma OutKey(key: bytes, config: Config, pr: Printer, s: bytes)
    requires WellFormed(key, 0)
    ensures Out(pr, StringText(key, config) + ([COLON] + s))
            == Owed(pr) + (Quoted(Body(key, config)) + ([COLON] + (Lead(LayoutOf(pr)) + Out(AfterText(pr), s))))
  {
    hide Run, Wanted, Owed, StringText, Quoted, Body, WellFormed;
    var text := Quoted(Body(key, config));
    if pr.Pretty? {
      PrettyString(key, config, pr.level, pr.wantIndent);
      OwedIsWanted(pr);
      RunConcat(STYLE, Outside(pr.level, pr.wantIndent), StringText(key, config), [COLON] + s);
      RunByte(Outside(pr.level, false), COLON);
      RunConcat(STYLE, Outside(pr.level, false), [COLON], s);
      Regroup(Owed(pr), text, [COLON, SPACE] + Out(AfterText(pr), s));
      assert [COLON, SPACE] + Out(AfterText(pr), s) == [COLON] + ([SPACE] + Out(AfterText(pr), s));
    } else {
      KeyText(key, config);
      PlainOwesNothing(pr);
      NothingFirst(s);
      NothingFirst(text + ([COLON] + s));
    }
  }

  lemma KeyText(key: bytes, config: Config)
    ensures StringText(key, config) == Quoted(Body(key, config))
  {
  }

  /** What is written for the first part comes first. */
  lemma OutFirst(pr: Printer, a: bytes, b: bytes, data: bytes, p: nat)
    requires IsAtText(data, p, Out(pr, a + b))
    ensures IsAtText(data, p, Out(pr, a))
  {
    hide Run, IsAtText;
    if pr.Pretty? {
      RunConcat(STYLE, Outside(pr.level, pr.wantIndent), a, b);
      var first := Run(STYLE, Outside(pr.level, pr.wantIndent), a);
      SplitText(data, p, first.text, Run(STYLE, first.state, b).text);
    } else {
      SplitText(data, p, a, b);
    }
  }

  // ----- The refusal -----

  lemma OpeningAt(data: bytes, p: nat, owed: bytes, c: byte, rest: bytes)
    requires AllBlank(owed) && (c == LBRACKET || c == LBRACE) && IsAtText(data, p, owed + ([c] + rest))
    ensures var o := p + |owed|;
            && ElementStarts(data, p, o) && IsAtText(data, o + 1, rest)
            && (c == LBRACKET ==> Value(data, p) == ItemsFrom(data, SkipBlanks(data, o + 1), []))
            && (c == LBRACE ==> Value(data, p) == EntriesFrom(data, SkipBlanks(data, o + 1), []))
  {
    hide ItemsFrom, EntriesFrom, SkipBlanks, IsAtText, AllBlank;
    var o := p + |owed|;
    SplitText(data, p, owed, [c] + rest);
    SplitText(data, o, [c], rest);
    ByteOfText(data, o, [c], 0);
    ElementOnly(data, p, owed);
  }

  lemma CommaRefused(data: bytes, i: nat, items: seq<Tree>, entries: seq<Pair>)
    requires i < |data| && data[i] == COMMA
    ensures SkipBlanks(data, i) == i && ItemsFrom(data, i, items).Failed? && EntriesFrom(data, i, entries).Failed?
  {
  }

  lemma StartsWithComma(s: bytes)
    requires s != [] && s[0] == COMMA
    ensures s == [COMMA] + s[1..]
  {
  }

  /** What is written after a comma. */
  lemma CommaAt(data: bytes, e: nat, pr: Printer, s: bytes)
    requires IsAtText(data, e, Out(pr, [COMMA] + s))
    ensures e < |data| && data[e] == COMMA && Delimited(data, e) && SkipBlanks(data, e) == e
            && AfterComma(data, e) == e + 1
    ensures IsAtText(data, e + 1, Out(AtNext(pr), s))
  {
    hide Out, IsAtText;
    OutComma(pr, s);
    SplitText(data, e, [COMMA], Out(AtNext(pr), s));
    ByteOfText(data, e, [COMMA], 0);
  }

  /** A tree that does not lead well is refused wherever its text stands, whether it was written plainly or
      beautified. */
  lemma {:induction false} BadRefused(t: Tree, config: Config, pr: Printer, data: bytes, p: nat)
    requires Printable(t) && !LeadsWell(t) && !config.includeNullElements
             && IsAtText(data, p, Out(pr, Print(t, config)))
    ensures ElementStarts(data, p, p + |Owed(pr)|) && Value(data, p).Failed?
    decreases t
  {
    hide Value, PrintItems, PrintEntries, IsAtText, SkipBlanks, ItemsFrom, EntriesFrom, Out, Owed, ElementStarts;
    OwedIsBlank(pr);
    match t
    case Vector(items) =>
      OutOpen(pr, LBRACKET, PrintItems(items, 0, config) + [RBRACKET]);
      OpeningAt(data, p, Owed(pr), LBRACKET, Out(Inside(pr), PrintItems(items, 0, config) + [RBRACKET]));
      BadItemsRefused(items, config, Inside(pr), data, p + |Owed(pr)| + 1);
    case Map(entries) =>
      OutOpen(pr, LBRACE, PrintEntries(entries, 0, config) + [RBRACE]);
      OpeningAt(data, p, Owed(pr), LBRACE, Out(Inside(pr), PrintEntries(entries, 0, config) + [RBRACE]));
      BadEntriesRefused(entries, config, Inside(pr), data, p + |Owed(pr)| + 1);
  }

  lemma {:induction false} BadItemsRefused(items: seq<Tree>, config: Config, pr: Printer, data: bytes, i: nat)
    requires (forall k :: 0 <= k < |items| ==> Printable(items[k])) && !LeadsWell(Vector(items))
             && !config.includeNullElements
    requires IsAtText(data, i, Out(pr, PrintItems(items, 0, config) + [RBRACKET]))
    ensures i <= |data| && ItemsFrom(data, SkipBlanks(data, i), []).Failed?
    decreases items, |items| + 1
  {
    hide Print, IsAtText, SkipBlanks, ItemsFrom, Value, PrintItems, Printable, Out;
    FirstItem(items, config);
    if items[0].Null? {
      RestStart(items, 1, config);
      var rest := PrintItems(items, 0, config);
      StartsWithComma(rest);
      Regroup([COMMA], rest[1..], [RBRACKET]);
      CommaAt(data, i, pr, rest[1..] + [RBRACKET]);
      CommaRefused(data, i, [], []);
    } else {
      Regroup(Print(items[0], config), PrintItems(items, 1, config), [RBRACKET]);
      TextInside(data, i, Out(pr, PrintItems(items, 0, config) + [RBRACKET]));
      ValueThenRest(items, 0, config, pr, data, i, SkipBlanks(data, i), []);
    }
  }

  lemma TextInside(data: bytes, i: nat, t: bytes)
    requires IsAtText(data, i, t)
    ensures i <= SkipBlanks(data, i) <= |data|
  {
  }

  /** The rest of the items is nothing or starts with a comma. */
  lemma {:induction false} RestStart(items: seq<Tree>, index: nat, config: Config)
    requires 0 < index && !config.includeNullElements
    ensures PrintItems(items, index, config) != [] ==> PrintItems(items, index, config)[0] == COMMA
    ensures (exists k :: index <= k < |items| && !items[k].Null?) ==> PrintItems(items, index, config) != []
    decreases |items| - index
  {
    hide Print;
    if index < |items| {
      RestStart(items, index + 1, config);
    }
  }

  lemma {:induction false} EntriesRestStart(entries: seq<Pair>, index: nat, config: Config)
    requires 0 < index && !config.includeNullElements
    ensures PrintEntries(entries, index, config) != [] ==> PrintEntries(entries, index, config)[0] == COMMA
    ensures (exists k :: index <= k < |entries| && !entries[k].value.Null?) ==>
            PrintEntries(entries, index, config) != []
    decreases |entries| - index
  {
    hide Print, StringText;
    if index < |entries| {
      EntriesRestStart(entries, index + 1, config);
    }
  }

  lemma FirstItem(items: seq<Tree>, config: Config)
    requires !LeadsWell(Vector(items)) && !config.includeNullElements
    ensures items != []
    ensures items[0].Null? ==> PrintItems(items, 0, config) == PrintItems(items, 1, config)
    ensures items[0].Null? ==> exists k :: 1 <= k < |items| && !items[k].Null?
    ensures !items[0].Null? ==> PrintItems(items, 0, config) == Print(items[0], config) + PrintItems(items, 1, config)
    ensures !items[0].Null? ==> exists m :: 0 <= m < |items| && !LeadsWell(items[m])
  {
    hide Print, LeadsWell;
    WhyNot(items);
    FirstPrinted(items, config);
  }

  /** A vector that does not lead well has a bad item, or a null first and something else later. */
  lemma WhyNot(items: seq<Tree>)
    requires !LeadsWell(Vector(items))
    ensures items != []
    ensures items[0].Null? ==> exists k :: 1 <= k < |items| && !items[k].Null?
    ensures !items[0].Null? ==> exists m :: 0 <= m < |items| && !LeadsWell(items[m])
  {
  }

  lemma FirstPrinted(items: seq<Tree>, config: Config)
    requires items != [] && !config.includeNullElements
    ensures PrintItems(items, 0, config)
            == (if items[0].Null? then PrintItems(items, 1, config)
                else Print(items[0], config) + PrintItems(items, 1, config))
  {
  }

  /** A value at position i, and the rest of the items after it, with a bad one among them. The loop is at position j,
      at or behind the blanks before the value. */
  lemma {:induction false} ValueThenRest(items: seq<Tree>, k: nat, config: Config, pr: Printer, data: bytes, i: nat,
                                         j: nat, done: seq<Tree>)
    requires k < |items| && !items[k].Null? && !config.includeNullElements
    requires forall m :: 0 <= m < |items| ==> Printable(items[m])
    requires exists m :: k <= m < |items| && !LeadsWell(items[m])
    requires IsAtText(data, i, Out(pr, Print(items[k], config) + (PrintItems(items, k + 1, config) + [RBRACKET])))
    requires j == i || j == SkipBlanks(data, i)
    ensures j <= |data| && ItemsFrom(data, j, done).Failed?
    decreases items, |items| - k, 0
  {
    hide Print, IsAtText, SkipBlanks, ItemsFrom, Value, PrintItems, Printable, LeadsWell, Out, Delimited, Text, DocOf,
         Drop, Owed, ElementStarts;
    var rest := PrintItems(items, k + 1, config) + [RBRACKET];
    TextInside(data, i, Out(pr, Print(items[k], config) + rest));
    if LeadsWell(items[k]) {
      var d := DocOf(Drop(items[k]), Full(config), LayoutOf(pr));
      var v := i + |Owed(pr)|;
      var e := v + |Text(d)|;
      SplitGood(items[k], config, pr, rest, data, i);
      RestGoesOn(items, k + 1, config, AfterText(pr), data, e);
      ReadGood(items[k], config, LayoutOf(pr), data, i, v);
      LoopStart(data, i, j, v);
      ItemStep(data, j, done, Value(data, v).tree, e);
      RestRefused(items, k + 1, config, AfterText(pr), data, e, done + [Value(data, v).tree]);
    } else {
      OutFirst(pr, Print(items[k], config), rest, data, i);
      BadRefused(items[k], config, pr, data, i);
      LoopStart(data, i, j, i + |Owed(pr)|);
      StillRefused(data, i, i + |Owed(pr)|);
      ItemRefused(data, j, done);
    }
  }

  /** A good value in the text: its blanks, its document and what follows. */
  lemma SplitGood(t: Tree, config: Config, pr: Printer, s: bytes, data: bytes, i: nat)
    requires Printable(t) && LeadsWell(t) && !config.includeNullElements
             && IsAtText(data, i, Out(pr, Print(t, config) + s))
    ensures var d := DocOf(Drop(t), Full(config), LayoutOf(pr)); var v := i + |Owed(pr)|;
            && Valid(d) && Readable(d) && IsAtText(data, v, Text(d))
              && IsAtText(data, v + |Text(d)|, Out(AfterText(pr), s))
            && ElementStarts(data, i, v)
  {
    hide Print, IsAtText, SkipBlanks, Printable, LeadsWell, Out, Text, DocOf, Drop, Owed, Valid, Readable, AllBlank,
         Loose;
    var d := DocOf(Drop(t), Full(config), LayoutOf(pr));
    var v := i + |Owed(pr)|;
    DropPrintable(t);
    TreeRoundTrip.DocMeaning(Drop(t), Full(config), LayoutOf(pr));
    OutValue(t, config, pr, s);
    OwedIsBlank(pr);
    SplitText(data, i, Owed(pr), Text(d) + Out(AfterText(pr), s));
    SplitText(data, v, Text(d), Out(AfterText(pr), s));
    ValidIsLoose(d);
    FirstByte(d);
    ByteOfText(data, v, Text(d), 0);
    ElementOnly(data, i, Owed(pr));
  }

  lemma ReadGood(t: Tree, config: Config, layout: Layout, data: bytes, i: nat, v: nat)
    requires var d := DocOf(Drop(t), Full(config), layout);
             Valid(d) && Readable(d) && IsAtText(data, v, Text(d)) && Delimited(data, v + |Text(d)|)
    requires ElementStarts(data, i, v)
    ensures var d := DocOf(Drop(t), Full(config), layout); Value(data, v).Parsed? && Value(data, v).pos == v + |Text(d)|
  {
    hide IsAtText, SkipBlanks, Text, DocOf, Drop, Valid, Readable, Value, Delimited, AllAnswered, ElementStarts;
    var d := DocOf(Drop(t), Full(config), layout);
    LoopStart(data, i, v, v);
    JsonTexts.ReadableExactly(d);
    ReadValue(d, data, v, v);
  }

  /** The loop sees the element, whether it is at its blanks or behind them. */
  lemma LoopStart(data: bytes, i: nat, j: nat, v: nat)
    requires ElementStarts(data, i, v) && (j == i || j == v || j == SkipBlanks(data, i))
    ensures v < |data| && SkipBlanks(data, i) == v && j < |data| && SkipBlanks(data, j) == v && data[j] != RBRACKET
            && data[j] != RBRACE
  {
  }

  /** A value that is refused with its blanks is refused without them. */
  lemma StillRefused(data: bytes, i: nat, v: nat)
    requires ElementStarts(data, i, v) && Value(data, i).Failed?
    ensures v <= |data| && Value(data, v).Failed?
  {
    hide ItemsFrom, EntriesFrom, NumberValue, StringValue;
    BlanksStay(data, i);
  }

  lemma BadIsThere(t: Tree)
    requires !LeadsWell(t)
    ensures !t.Null?
  {
  }

  /** With a bad item to come, a comma follows. */
  lemma RestGoesOn(items: seq<Tree>, index: nat, config: Config, pr: Printer, data: bytes, e: nat)
    requires 0 < index && !config.includeNullElements && exists m :: index <= m < |items| && !LeadsWell(items[m])
    requires IsAtText(data, e, Out(pr, PrintItems(items, index, config) + [RBRACKET]))
    ensures e < |data| && Delimited(data, e) && SkipBlanks(data, e) == e && AfterComma(data, e) == e + 1
  {
    hide IsAtText, SkipBlanks, PrintItems, LeadsWell, Out, Delimited, AfterComma;
    var m :| index <= m < |items| && !LeadsWell(items[m]);
    BadIsThere(items[m]);
    RestStart(items, index, config);
    var rest := PrintItems(items, index, config);
    StartsWithComma(rest);
    Regroup([COMMA], rest[1..], [RBRACKET]);
    CommaAt(data, e, pr, rest[1..] + [RBRACKET]);
  }

  /** The items from index on, after another one, with a bad one among them. */
  lemma {:induction false} RestRefused(items: seq<Tree>, index: nat, config: Config, pr: Printer, data: bytes, e: nat,
                                       done: seq<Tree>)
    requires 0 < index && !config.includeNullElements
    requires forall j :: 0 <= j < |items| ==> Printable(items[j])
    requires exists m :: index <= m < |items| && !LeadsWell(items[m])
    requires IsAtText(data, e, Out(pr, PrintItems(items, index, config) + [RBRACKET]))
    ensures e + 1 <= |data| && ItemsFrom(data, e + 1, done).Failed?
    decreases items, |items| - index, 1
  {
    hide Print, IsAtText, SkipBlanks, ItemsFrom, Value, PrintItems, Printable, AfterComma, Out;
    RestParts(items, index, config);
    if items[index].Null? {
      RestRefused(items, index + 1, config, pr, data, e, done);
    } else {
      var value, rest := Print(items[index], config), PrintItems(items, index + 1, config);
      CommaFirst(value, rest, [RBRACKET]);
      CommaAt(data, e, pr, value + (rest + [RBRACKET]));
      ValueThenRest(items, index, config, AtNext(pr), data, e + 1, e + 1, done);
    }
  }

  lemma CommaFirst(a: bytes, b: bytes, c: bytes)
    ensures (([COMMA] + a) + b) + c == [COMMA] + (a + (b + c))
  {
  }

  // ----- Entries -----

  lemma {:induction false} BadEntriesRefused(entries: seq<Pair>, config: Config, pr: Printer, data: bytes, i: nat)
    requires Printable(Map(entries)) && !LeadsWell(Map(entries)) && !config.includeNullElements
    requires IsAtText(data, i, Out(pr, PrintEntries(entries, 0, config) + [RBRACE]))
    ensures i <= |data| && EntriesFrom(data, SkipBlanks(data, i), []).Failed?
    decreases entries, |entries| + 1
  {
    hide Print, IsAtText, SkipBlanks, EntriesFrom, Value, PrintEntries, WellFormed, StringText, Out;
    FirstEntry(entries, config);
    if entries[0].value.Null? {
      EntriesRestStart(entries, 1, config);
      var rest := PrintEntries(entries, 0, config);
      StartsWithComma(rest);
      Regroup([COMMA], rest[1..], [RBRACE]);
      CommaAt(data, i, pr, rest[1..] + [RBRACE]);
      CommaRefused(data, i, [], []);
    } else {
      EntryText(StringText(entries[0].key, config), Print(entries[0].value, config), PrintEntries(entries, 1, config));
      TextInside(data, i, Out(pr, PrintEntries(entries, 0, config) + [RBRACE]));
      EntryThenRest(entries, 0, config, pr, data, i, SkipBlanks(data, i), []);
    }
  }

  lemma EntryText(key: bytes, value: bytes, rest: bytes)
    ensures ((key + ([COLON] + value)) + rest) + [RBRACE] == key + ([COLON] + (value + (rest + [RBRACE])))
    ensures (([COMMA] + (key + ([COLON] + value))) + rest) + [RBRACE]
            == [COMMA] + (key + ([COLON] + (value + (rest + [RBRACE]))))
  {
  }

  lemma FirstEntry(entries: seq<Pair>, config: Config)
    requires !LeadsWell(Map(entries)) && !config.includeNullElements
    ensures entries != []
    ensures entries[0].value.Null? ==> PrintEntries(entries, 0, config) == PrintEntries(entries, 1, config)
    ensures entries[0].value.Null? ==> exists k :: 1 <= k < |entries| && !entries[k].value.Null?
    ensures !entries[0].value.Null? ==>
              PrintEntries(entries, 0, config)
              == (StringText(entries[0].key, config) + ([COLON] + Print(entries[0].value, config)))
                + PrintEntries(entries, 1, config)
    ensures !entries[0].value.Null? ==> exists m :: 0 <= m < |entries| && !LeadsWell(entries[m].value)
  {
    hide Print, StringText, LeadsWell;
    WhyNotMap(entries);
    FirstEntryPrinted(entries, config);
  }

  lemma WhyNotMap(entries: seq<Pair>)
    requires !LeadsWell(Map(entries))
    ensures entries != []
    ensures entries[0].value.Null? ==> exists k :: 1 <= k < |entries| && !entries[k].value.Null?
    ensures !entries[0].value.Null? ==> exists m :: 0 <= m < |entries| && !LeadsWell(entries[m].value)
  {
    if m :| 0 <= m < |entries| && !LeadsWell(entries[m].value) {
      assert !entries[m].value.Null?;
    }
  }

  lemma FirstEntryPrinted(entries: seq<Pair>, config: Config)
    requires entries != [] && !config.includeNullElements
    ensures PrintEntries(entries, 0, config)
            == (if entries[0].value.Null? then
                  PrintEntries(entries, 1, config)
                else
                  (StringText(entries[0].key, config) + ([COLON] + Print(entries[0].value, config)))
                  + PrintEntries(entries, 1, config))
  {
    hide Print, StringText;
  }

  /** A key in the text: its blanks, its literal, the colon, and what follows. */
  lemma SplitGoodKey(key: bytes, config: Config, pr: Printer, s: bytes, data: bytes, i: nat)
    requires WellFormed(key, 0) && IsAtText(data, i, Out(pr, StringText(key, config) + ([COLON] + s)))
    ensures var k := i + |Owed(pr)|; var c := k + |Quoted(Body(key, config))|; var v := c + 1 + |Lead(LayoutOf(pr))|;
            && ElementStarts(data, i, k) && StringAt(data, k) == ParsedString(key, c)
            && c < |data| && data[c] == COLON && SkipBlanks(data, c) == c
            && IsAtText(data, c + 1, Lead(LayoutOf(pr))) && IsAtText(data, v, Out(AfterText(pr), s))
  {
    hide IsAtText, SkipBlanks, Out, Owed, Quoted, Body, WellFormed, StringAt, AllBlank, Lead, StringText, ElementStarts;
    OutKey(key, config, pr, s);
    OwedIsBlank(pr);
    KeyInText(data, i, Owed(pr), Quoted(Body(key, config)), Lead(LayoutOf(pr)), Out(AfterText(pr), s));
    ColonHere(data, i + |Owed(pr)| + |Quoted(Body(key, config))|);
    LiteralHere(key, config, data, i, Owed(pr));
  }

  lemma KeyInText(data: bytes, i: nat, owed: bytes, literal: bytes, lead: bytes, tail: bytes)
    requires IsAtText(data, i, owed + (literal + ([COLON] + (lead + tail))))
    ensures var k := i + |owed|; var c := k + |literal|;
            && IsAtText(data, i, owed) && IsAtText(data, k, literal) && IsAtText(data, c, [COLON])
            && IsAtText(data, c + 1, lead) && IsAtText(data, c + 1 + |lead|, tail)
  {
    hide IsAtText;
    var c := i + |owed| + |literal|;
    SplitText(data, i, owed, literal + ([COLON] + (lead + tail)));
    SplitText(data, i + |owed|, literal, [COLON] + (lead + tail));
    SplitText(data, c, [COLON], lead + tail);
    SplitText(data, c + 1, lead, tail);
  }

  lemma ColonHere(data: bytes, c: nat)
    requires IsAtText(data, c, [COLON])
    ensures c < |data| && data[c] == COLON && SkipBlanks(data, c) == c
  {
    ByteOfText(data, c, [COLON], 0);
  }

  lemma LiteralHere(key: bytes, config: Config, data: bytes, i: nat, owed: bytes)
    requires WellFormed(key, 0) && AllBlank(owed) && IsAtText(data, i, owed)
             && IsAtText(data, i + |owed|, Quoted(Body(key, config)))
    ensures ElementStarts(data, i, i + |owed|)
    ensures StringAt(data, i + |owed|) == ParsedString(key, i + |owed| + |Quoted(Body(key, config))|)
  {
    hide IsAtText, SkipBlanks, Quoted, Body, WellFormed, StringAt, BodyAt, BodyMeaning, ValidBody, Closed, AllBlank,
         ElementStarts, Accepted;
    var body := Body(key, config);
    NoBlankMarks();
    BodyOfText(key, config);
    LegalClosed(body);
    BodyOnly(data, i + |owed|, body);
    BodyMeans(data, i + |owed|);
    ElementOnly(data, i, owed);
  }

  /** An entry at position i, and the rest of the entries after it, with a bad one among them. */
  lemma {:induction false} EntryThenRest(entries: seq<Pair>, k: nat, config: Config, pr: Printer, data: bytes, i: nat,
                                         j: nat, done: seq<Pair>)
    requires k < |entries| && !entries[k].value.Null? && !config.includeNullElements
    requires forall m :: 0 <= m < |entries| ==> WellFormed(entries[m].key, 0) && Printable(entries[m].value)
    requires exists m :: k <= m < |entries| && !LeadsWell(entries[m].value)
    requires IsAtText(data, i, Out(pr, StringText(entries[k].key, config) + ([COLON] + (Print(entries[k].value, config)
                                       + (PrintEntries(entries, k + 1, config) + [RBRACE])))))
    requires j == i || j == SkipBlanks(data, i)
    ensures j <= |data| && EntriesFrom(data, j, done).Failed?
    decreases entries, |entries| - k, 0
  {
    hide Print, IsAtText, SkipBlanks, EntriesFrom, Value, PrintEntries, Printable, LeadsWell, Out, Delimited, Text,
         DocOf, Drop, Owed;
    hide StringText, StringAt, Quoted, Body, WellFormed, ElementStarts, Lead, PutAt;
    var value, rest := Print(entries[k].value, config), PrintEntries(entries, k + 1, config) + [RBRACE];
    SplitGoodKey(entries[k].key, config, pr, value + rest, data, i);
    var q := i + |Owed(pr)|;
    var c := q + |Quoted(Body(entries[k].key, config))|;
    var b := c + 1 + |Lead(LayoutOf(pr))|;
    LoopStart(data, i, j, q);
    if LeadsWell(entries[k].value) {
      var d := DocOf(Drop(entries[k].value), Full(config), LayoutOf(AfterText(pr)));
      SplitGood(entries[k].value, config, AfterText(pr), rest, data, b);
      NothingOwed(pr);
      LeadSkipped(data, c, Lead(LayoutOf(pr)), b, pr);
      var e := b + |Text(d)|;
      EntriesGoOn(entries, k + 1, config, AfterText(pr), data, e);
      ReadGood(entries[k].value, config, LayoutOf(pr), data, b, b);
      var tree := Value(data, b).tree;
      EntryStep(data, j, done, entries[k].key, c, tree, e);
      EntriesRestRefused(entries, k + 1, config, AfterText(pr), data, e, PutAt(done, entries[k].key, tree));
    } else {
      OutFirst(AfterText(pr), value, rest, data, b);
      BadRefused(entries[k].value, config, AfterText(pr), data, b);
      NothingOwed(pr);
      LeadSkipped(data, c, Lead(LayoutOf(pr)), b, pr);
      EntryFails(data, j, done);
    }
  }

  lemma NothingOwed(pr: Printer)
    ensures Owed(AfterText(pr)) == [] && LayoutOf(AfterText(pr)) == LayoutOf(pr)
            && AfterText(AfterText(pr)) == AfterText(pr)
  {
  }

  /** Behind the colon and its blanks the value starts. */
  lemma LeadSkipped(data: bytes, c: nat, lead: bytes, b: nat, pr: Printer)
    requires lead == Lead(LayoutOf(pr)) && IsAtText(data, c + 1, lead) && b == c + 1 + |lead|
             && ElementStarts(data, b, b)
    ensures SkipBlanks(data, c + 1) == b < |data|
  {
    hide IsAtText, SkipBlanks, AllBlank, Lead;
    OwedIsBlank(pr);
    BlanksOnly(data, c + 1, lead);
  }

  /** With a bad entry to come, a comma follows. */
  lemma EntriesGoOn(entries: seq<Pair>, index: nat, config: Config, pr: Printer, data: bytes, e: nat)
    requires 0 < index && !config.includeNullElements
             && exists m :: index <= m < |entries| && !LeadsWell(entries[m].value)
    requires IsAtText(data, e, Out(pr, PrintEntries(entries, index, config) + [RBRACE]))
    ensures e < |data| && Delimited(data, e) && SkipBlanks(data, e) == e && AfterComma(data, e) == e + 1
  {
    hide IsAtText, SkipBlanks, PrintEntries, LeadsWell, Out, Delimited, AfterComma;
    var m :| index <= m < |entries| && !LeadsWell(entries[m].value);
    BadIsThere(entries[m].value);
    EntriesRestStart(entries, index, config);
    var rest := PrintEntries(entries, index, config);
    StartsWithComma(rest);
    Regroup([COMMA], rest[1..], [RBRACE]);
    CommaAt(data, e, pr, rest[1..] + [RBRACE]);
  }

  /** The entries from index on, after another one, with a bad one among them. */
  lemma {:induction false} EntriesRestRefused(entries: seq<Pair>, index: nat, config: Config, pr: Printer, data: bytes,
                                              e: nat, done: seq<Pair>)
    requires 0 < index && !config.includeNullElements
    requires forall j :: 0 <= j < |entries| ==> WellFormed(entries[j].key, 0) && Printable(entries[j].value)
    requires exists m :: index <= m < |entries| && !LeadsWell(entries[m].value)
    requires IsAtText(data, e, Out(pr, PrintEntries(entries, index, config) + [RBRACE]))
    ensures e + 1 <= |data| && EntriesFrom(data, e + 1, done).Failed?
    decreases entries, |entries| - index, 1
  {
    hide Print, IsAtText, SkipBlanks, EntriesFrom, Value, PrintEntries, Printable, AfterComma, WellFormed, StringText,
         Out;
    EntriesRestParts(entries, index, config);
    if entries[index].value.Null? {
      EntriesRestRefused(entries, index + 1, config, pr, data, e, done);
    } else {
      var key, value := StringText(entries[index].key, config), Print(entries[index].value, config);
      var rest := PrintEntries(entries, index + 1, config);
      EntryText(key, value, rest);
      CommaAt(data, e, pr, key + ([COLON] + (value + (rest + [RBRACE]))));
      EntryThenRest(entries, index, config, AtNext(pr), data, e + 1, e + 1, done);
    }
  }

  // ----- The exact condition -----

  /** What goes to the stream. */
  lemma StreamIsOut(t: Tree, config: Config)
    ensures StreamText(t, config) == Out(if config.useBeautifier then Pretty(0, false) else Plain, Print(t, config))
  {
  }

  lemma SameStream(t: Tree, config: Config)
    requires LeadsWell(t) && !config.includeNullElements
    ensures StreamText(t, config) == StreamText(Drop(t), Full(config))
  {
    hide Print, Run, LeadsWell, Drop;
    PrintsLikeDropped(t, config);
  }

  /** Printed without its null elements, compact or beautified, a tree reads back as the tree without them, and its text
      to the end, if and only if no container starts with a null that is followed by something else. */
  lemma ReadableExactly(t: Tree, config: Config)
    requires Printable(t) && !config.includeNullElements
    ensures Value(StreamText(t, config), 0) == Parsed(Norm(Drop(t)), |StreamText(t, config)|) <==> LeadsWell(t)
    ensures !LeadsWell(t) ==> Value(StreamText(t, config), 0).Failed?
  {
    hide Value, Print, Norm, Drop, Printable, LeadsWell, IsAtText, StreamText, Out;
    if LeadsWell(t) {
      DropPrintable(t);
      SameStream(t, config);
      JsonRoundTrip.ParseUndoesPrint(Drop(t), Full(config));
    } else {
      StreamIsOut(t, config);
      StandsAlone(StreamText(t, config));
      BadRefused(t, config, if config.useBeautifier then Pretty(0, false) else Plain, StreamText(t, config), 0);
    }
  }

  lemma StandsAlone(data: bytes)
    ensures IsAtText(data, 0, data)
  {
  }
}

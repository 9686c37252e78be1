/** The main result on the tree mappers: what `Serializer` writes, `Deserializer` reads back. */
module JsonRoundTrip {
  import opened Bytes
  import opened JsonDocument
  import opened Serializer
  import opened TreeDocument
  import opened DeserializerSpec
  import BeautifiedText
  import JsonTexts
  import ReadingProof
  import TreeRoundTrip

  lemma {:induction false} PrintableIsSerializable(t: Tree)
    requires Printable(t)
    ensures Serializable(t)
    decreases t
  {
    match t
    case Vector(items) =>
      forall k | 0 <= k < |items|
        ensures Serializable(items[k])
      {
        PrintableIsSerializable(items[k]);
      }
    case Map(entries) =>
      forall k | 0 <= k < |entries|
        ensures Serializable(entries[k].value)
      {
        PrintableIsSerializable(entries[k].value);
      }
    case _ =>
  }

  /** What reaches the stream is a JSON text of RFC 8259 without blanks around it. */
  lemma PrintsJson(t: Tree, config: Config)
    requires Printable(t) && config.includeNullElements
    ensures JsonTexts.IsJson(StreamText(t, config))
  {
    hide Text, DocOf, Valid, StreamText, Printable;
    var layout := if config.useBeautifier then Indented(0) else Compact;
    BeautifiedText.StreamTextIsDocument(t, config);
    TreeRoundTrip.DocMeaning(t, config, layout);
    assert [] + StreamText(t, config) + [] == StreamText(t, config);
    JsonTexts.JsonAs(StreamText(t, config), [], DocOf(t, config, layout), []);
  }

  /** Compact or beautified, the printed text of a tree is consumed to its end and gives the tree. */
  lemma ParseUndoesPrint(t: Tree, config: Config)
    requires Printable(t) && config.includeNullElements
    ensures Serializable(t)
    ensures Value(StreamText(t, config), 0) == Parsed(Norm(t), |StreamText(t, config)|)
  {
    hide Value, Print, Text, DocOf, Norm, Serializable, Printable, StreamText, Valid, Readable, JsonTexts.AllAnswered;
    PrintableIsSerializable(t);
    var layout := if config.useBeautifier then Indented(0) else Compact;
    BeautifiedText.StreamTextIsDocument(t, config);
    TreeRoundTrip.DocMeaning(t, config, layout);
    JsonTexts.ReadableExactly(DocOf(t, config, layout));
    JsonTexts.ReadDocument([], DocOf(t, config, layout), []);
    assert [] + StreamText(t, config) + [] == StreamText(t, config);
  }

  /** Trees whose unsigned nodes do not fit a signed one. */
  predicate Canonical(t: Tree)
    decreases t
  {
    match t
    case UInt64(u) => u > INT64_MAX
    case Vector(items) => forall k :: 0 <= k < |items| ==> Canonical(items[k])
    case Map(entries) => forall k :: 0 <= k < |entries| ==> Canonical(entries[k].value)
    case _ => true
  }

  lemma {:induction false} NormOfCanonical(t: Tree)
    requires Canonical(t)
    ensures Norm(t) == t
    decreases t
  {
    match t
    case Vector(items) =>
      NormItemsOfCanonical(items, 0);
      assert items[0..] == items;
    case Map(entries) =>
      NormEntriesOfCanonical(entries, 0);
      assert entries[0..] == entries;
    case _ =>
  }

  lemma {:induction false} NormItemsOfCanonical(items: seq<Tree>, index: nat)
    requires index <= |items| && forall k :: 0 <= k < |items| ==> Canonical(items[k])
    ensures NormItems(items, index) == items[index..]
    decreases items, |items| - index
  {
    if index < |items| {
      NormOfCanonical(items[index]);
      NormItemsOfCanonical(items, index + 1);
      assert items[index..] == [items[index]] + items[index + 1..];
    }
  }

  lemma {:induction false} NormEntriesOfCanonical(entries: seq<Pair>, index: nat)
    requires index <= |entries| && forall k :: 0 <= k < |entries| ==> Canonical(entries[k].value)
    ensures NormEntries(entries, index) == entries[index..]
    decreases entries, |entries| - index
  {
    if index < |entries| {
      NormOfCanonical(entries[index].value);
      NormEntriesOfCanonical(entries, index + 1);
      assert entries[index..] == [entries[index]] + entries[index + 1..];
    }
  }

  /** The tree itself comes back exactly when no unsigned node is small enough for a signed one. */
  lemma {:induction false} CanonicalOfNorm(t: Tree)
    requires Norm(t) == t
    ensures Canonical(t)
    decreases t
  {
    match t
    case Vector(items) =>
      forall k | 0 <= k < |items|
        ensures Canonical(items[k])
      {
        NormItemAt(items, 0, k);
        CanonicalOfNorm(items[k]);
      }
    case Map(entries) =>
      forall k | 0 <= k < |entries|
        ensures Canonical(entries[k].value)
      {
        NormEntryAt(entries, 0, k);
        CanonicalOfNorm(entries[k].value);
      }
    case _ =>
  }

  lemma {:induction false} NormItemAt(items: seq<Tree>, index: nat, k: nat)
    requires index <= k < |items|
    ensures |NormItems(items, index)| == |items| - index && NormItems(items, index)[k - index] == Norm(items[k])
    decreases k - index
  {
    hide Norm;
    NormItemsLength(items, index + 1);
    if index < k {
      NormItemAt(items, index + 1, k);
    }
  }

  lemma {:induction false} NormItemsLength(items: seq<Tree>, index: nat)
    requires index <= |items|
    ensures |NormItems(items, index)| == |items| - index
    decreases |items| - index
  {
    hide Norm;
    if index < |items| {
      NormItemsLength(items, index + 1);
    }
  }

  lemma {:induction false} NormEntryAt(entries: seq<Pair>, index: nat, k: nat)
    requires index <= k < |entries|
    ensures |NormEntries(entries, index)| == |entries| - index
    ensures NormEntries(entries, index)[k - index].value == Norm(entries[k].value)
    decreases k - index
  {
    hide Norm;
    NormEntriesLength(entries, index + 1);
    if index < k {
      NormEntryAt(entries, index + 1, k);
    }
  }

  lemma {:induction false} NormEntriesLength(entries: seq<Pair>, index: nat)
    requires index <= |entries|
    ensures |NormEntries(entries, index)| == |entries| - index
    decreases |entries| - index
  {
    hide Norm;
    if index < |entries| {
      NormEntriesLength(entries, index + 1);
    }
  }

  /** The tree comes back as it was if and only if no unsigned node would fit a signed one. */
  lemma ParseGivesBackTheTree(t: Tree, config: Config)
    requires Printable(t) && config.includeNullElements
    ensures Value(StreamText(t, config), 0) == Parsed(t, |StreamText(t, config)|) <==> Canonical(t)
  {
    hide Value, Print, Norm, Printable, StreamText, Canonical;
    ParseUndoesPrint(t, config);
    if Canonical(t) {
      NormOfCanonical(t);
    }
    if Norm(t) == t {
      CanonicalOfNorm(t);
    }
  }

  /** Without null elements the separator still counts them: a leading null leaves a comma that cannot be read. */
  lemma SkippedNullLeavesComma(config: Config)
    requires !config.includeNullElements
    ensures var text := Print(Vector([Null, Bool(true)]), config);
            text == [LBRACKET, COMMA] + TRUE_TEXT + [RBRACKET] && Value(text, 0) == DeserializerSpec.Failed(OnStack)
  {
    hide Value, PrintItems;
    NullThenTrue(config);
    LeadingComma([LBRACKET, COMMA] + TRUE_TEXT + [RBRACKET]);
  }

  lemma NullThenTrue(config: Config)
    requires !config.includeNullElements
    ensures PrintItems([Null, Bool(true)], 0, config) == [COMMA] + TRUE_TEXT
  {
    var items := [Null, Bool(true)];
    assert PrintItems(items, 2, config) == [];
    assert PrintItems(items, 1, config) == [COMMA] + TRUE_TEXT;
  }

  lemma LeadingComma(text: bytes)
    requires |text| >= 2 && text[0] == LBRACKET && text[1] == COMMA
    ensures Value(text, 0) == DeserializerSpec.Failed(OnStack)
  {
    hide IsAtText, EntriesFrom, StringValue, NumberValue, SkipBlanks;
    ReadingProof.StopsHere(text, 0);
    ReadingProof.StopsHere(text, 1);
    assert Value(text, 1) == DeserializerSpec.Failed(OnStack);
    assert ItemsFrom(text, 1, []) == DeserializerSpec.Failed(OnStack);
  }
}

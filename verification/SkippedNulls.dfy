/** Printing without null elements. The separator goes by the index of the element, skipped ones included, so a
    container that starts with a null and has other elements prints a comma first. */
module SkippedNulls {
  import opened Bytes
  import opened Unicode
  import opened JsonDocument
  import opened Serializer
  import opened TreeDocument

  predicate AllNull(items: seq<Tree>) {
    forall k :: 0 <= k < |items| ==> items[k].Null?
  }

  predicate AllNullValues(entries: seq<Pair>) {
    forall k :: 0 <= k < |entries| ==> entries[k].value.Null?
  }

  /** No container has a null first and something else later. */
  predicate LeadsWell(t: Tree)
    decreases t
  {
    match t
    case Vector(items) =>
      && (items != [] && items[0].Null? ==> AllNull(items))
      && forall k :: 0 <= k < |items| ==> LeadsWell(items[k])
    case Map(entries) =>
      && (entries != [] && entries[0].value.Null? ==> AllNullValues(entries))
      && forall k :: 0 <= k < |entries| ==> LeadsWell(entries[k].value)
    case _ => true
  }

  /** The tree without its null elements. */
  function Drop(t: Tree): Tree
    decreases t
  {
    match t
    case Vector(items) => Vector(DropItems(items, 0))
    case Map(entries) => Map(DropEntries(entries, 0))
    case _ => t
  }

  function DropItems(items: seq<Tree>, index: nat): seq<Tree>
    decreases items, |items| - index
  {
    if index >= |items| then []
    else (if items[index].Null? then [] else [Drop(items[index])]) + DropItems(items, index + 1)
  }

  function DropEntries(entries: seq<Pair>, index: nat): seq<Pair>
    decreases entries, |entries| - index
  {
    if index >= |entries| then []
    else (if entries[index].value.Null? then [] else [Pair(entries[index].key, Drop(entries[index].value))])
         + DropEntries(entries, index + 1)
  }

  function Full(config: Config): Config {
    config.(includeNullElements := true)
  }

  // ----- What is left is printable -----

  lemma {:induction false} DropPrintable(t: Tree)
    requires Printable(t)
    ensures Printable(Drop(t)) && (Drop(t).Null? <==> t.Null?)
    decreases t
  {
    match t
    case Vector(items) => DropItemsPrintable(items, 0);
    case Map(entries) => DropEntriesPrintable(entries, 0);
    case _ =>
  }

  lemma {:induction false} DropItemsPrintable(items: seq<Tree>, index: nat)
    requires forall k :: 0 <= k < |items| ==> Printable(items[k])
    ensures forall t :: t in DropItems(items, index) ==> Printable(t)
    decreases items, |items| - index
  {
    hide Printable, Drop;
    if index < |items| {
      DropPrintable(items[index]);
      DropItemsPrintable(items, index + 1);
    }
  }

  lemma {:induction false} DropEntriesPrintable(entries: seq<Pair>, index: nat)
    requires DistinctKeys(entries)
    requires forall k :: 0 <= k < |entries| ==> WellFormed(entries[k].key, 0) && Printable(entries[k].value)
    ensures DistinctKeys(DropEntries(entries, index))
    ensures forall p :: p in DropEntries(entries, index) ==>
              WellFormed(p.key, 0) && Printable(p.value)
                && exists k :: index <= k < |entries| && entries[k].key == p.key
    decreases entries, |entries| - index
  {
    hide Printable, Drop, WellFormed;
    if index < |entries| {
      DropPrintable(entries[index].value);
      DropEntriesPrintable(entries, index + 1);
      if !entries[index].value.Null? {
        DistinctMore(Pair(entries[index].key, Drop(entries[index].value)), DropEntries(entries, index + 1));
      }
    }
  }

  lemma DistinctMore(one: Pair, rest: seq<Pair>)
    requires DistinctKeys(rest) && forall p :: p in rest ==> p.key != one.key
    ensures DistinctKeys([one] + rest)
  {
    forall i, j | 0 <= i < j < |rest| + 1
      ensures ([one] + rest)[i].key != ([one] + rest)[j].key
    {
      assert rest[j - 1] in rest;
      assert i > 0 ==> rest[i - 1].key != rest[j - 1].key;
    }
  }

  // ----- Where the leading elements are right, the text is that of the smaller tree -----

  lemma {:induction false} PrintsLikeDropped(t: Tree, config: Config)
    requires LeadsWell(t) && !config.includeNullElements
    ensures Print(t, config) == Print(Drop(t), Full(config))
    decreases t
  {
    hide PrintItems, PrintEntries, DropItems, DropEntries, IntText, StringText;
    match t
    case Str(text) => SameString(text, config);
    case Vector(items) => FirstItemPrints(items, config);
    case Map(entries) => FirstEntryPrints(entries, config);
    case _ =>
  }

  lemma SameString(text: bytes, config: Config)
    ensures StringText(text, config) == StringText(text, Full(config))
  {
  }

  lemma {:induction false} FirstItemPrints(items: seq<Tree>, config: Config)
    requires LeadsWell(Vector(items)) && !config.includeNullElements
    ensures PrintItems(items, 0, config) == PrintItems(DropItems(items, 0), 0, Full(config))
    decreases items, |items| + 1
  {
    hide Print, Drop;
    if items != [] {
      if items[0].Null? {
        NoItemsPrint(items, 0, config);
      } else {
        PrintsLikeDropped(items[0], config);
        LaterItemsPrint(items, 1, config, [Drop(items[0])]);
        DropKeepsValue(items[0]);
      }
    }
  }

  lemma DropKeepsValue(t: Tree)
    requires !t.Null?
    ensures !Drop(t).Null?
  {
  }

  lemma {:induction false} NoItemsPrint(items: seq<Tree>, index: nat, config: Config)
    requires AllNull(items) && !config.includeNullElements
    ensures PrintItems(items, index, config) == [] && DropItems(items, index) == []
    decreases |items| - index
  {
    hide Print, Drop;
    if index < |items| {
      NoItemsPrint(items, index + 1, config);
    }
  }

  lemma {:induction false} LaterItemsPrint(items: seq<Tree>, index: nat, config: Config, before: seq<Tree>)
    requires 0 < index <= |items| && before != [] && !config.includeNullElements
    requires forall k :: 0 <= k < |items| ==> LeadsWell(items[k])
    ensures PrintItems(items, index, config) == PrintItems(before + DropItems(items, index), |before|, Full(config))
    decreases items, |items| - index
  {
    hide Print, Drop, LeadsWell, PrintItems, DropItems;
    DropStep(items, index);
    if index == |items| {
      PrintedEnd(items, config);
      PrintedEnd(before, Full(config));
      assert before + [] == before;
    } else {
      RestParts(items, index, config);
      if items[index].Null? {
        LaterItemsPrint(items, index + 1, config, before);
        assert before + DropItems(items, index) == before + DropItems(items, index + 1);
      } else {
        var all := before + DropItems(items, index);
        var more := before + [Drop(items[index])];
        PrintsLikeDropped(items[index], config);
        DropKeepsValue(items[index]);
        LaterItemsPrint(items, index + 1, config, more);
        assert all == more + DropItems(items, index + 1);
        assert all[|before|] == Drop(items[index]);
        PrintedStep(all, |before|, Full(config));
      }
    }
  }

  lemma DropStep(items: seq<Tree>, index: nat)
    ensures DropItems(items, index)
            == (if index >= |items| then []
                else (if items[index].Null? then [] else [Drop(items[index])]) + DropItems(items, index + 1))
  {
  }

  lemma PrintedEnd(items: seq<Tree>, config: Config)
    ensures PrintItems(items, |items|, config) == []
  {
  }

  lemma PrintedStep(items: seq<Tree>, index: nat, config: Config)
    requires 0 < index < |items| && config.includeNullElements
    ensures PrintItems(items, index, config)
            == ([COMMA] + Print(items[index], config)) + PrintItems(items, index + 1, config)
  {
  }

  lemma {:induction false} FirstEntryPrints(entries: seq<Pair>, config: Config)
    requires LeadsWell(Map(entries)) && !config.includeNullElements
    ensures PrintEntries(entries, 0, config) == PrintEntries(DropEntries(entries, 0), 0, Full(config))
    decreases entries, |entries| + 1
  {
    hide Print, Drop, StringText;
    if entries != [] {
      if entries[0].value.Null? {
        NoEntriesPrint(entries, 0, config);
      } else {
        PrintsLikeDropped(entries[0].value, config);
        SameString(entries[0].key, config);
        LaterEntriesPrint(entries, 1, config, [Pair(entries[0].key, Drop(entries[0].value))]);
        DropKeepsValue(entries[0].value);
      }
    }
  }

  lemma {:induction false} NoEntriesPrint(entries: seq<Pair>, index: nat, config: Config)
    requires AllNullValues(entries) && !config.includeNullElements
    ensures PrintEntries(entries, index, config) == [] && DropEntries(entries, index) == []
    decreases |entries| - index
  {
    hide Print, Drop;
    if index < |entries| {
      NoEntriesPrint(entries, index + 1, config);
    }
  }

  lemma {:induction false} LaterEntriesPrint(entries: seq<Pair>, index: nat, config: Config, before: seq<Pair>)
    requires 0 < index <= |entries| && before != [] && !config.includeNullElements
    requires forall k :: 0 <= k < |entries| ==> LeadsWell(entries[k].value)
    ensures PrintEntries(entries, index, config)
            == PrintEntries(before + DropEntries(entries, index), |before|, Full(config))
    decreases entries, |entries| - index
  {
    hide Print, Drop, LeadsWell, StringText, PrintEntries, DropEntries;
    DropEntriesStep(entries, index);
    if index == |entries| {
      EntriesPrintedEnd(entries, config);
      EntriesPrintedEnd(before, Full(config));
      assert before + [] == before;
    } else {
      EntriesRestParts(entries, index, config);
      if entries[index].value.Null? {
        LaterEntriesPrint(entries, index + 1, config, before);
        assert before + DropEntries(entries, index) == before + DropEntries(entries, index + 1);
      } else {
        var all := before + DropEntries(entries, index);
        var one := Pair(entries[index].key, Drop(entries[index].value));
        PrintsLikeDropped(entries[index].value, config);
        SameString(entries[index].key, config);
        DropKeepsValue(entries[index].value);
        LaterEntriesPrint(entries, index + 1, config, before + [one]);
        assert all == (before + [one]) + DropEntries(entries, index + 1);
        assert all[|before|] == one;
        EntriesPrintedStep(all, |before|, Full(config));
      }
    }
  }

  lemma DropEntriesStep(entries: seq<Pair>, index: nat)
    ensures DropEntries(entries, index)
            == (if index >= |entries| then []
                else (if entries[index].value.Null? then [] else [Pair(entries[index].key, Drop(entries[index].value))])
                     + DropEntries(entries, index + 1))
  {
  }

  lemma EntriesPrintedEnd(entries: seq<Pair>, config: Config)
    ensures PrintEntries(entries, |entries|, config) == []
  {
  }

  lemma EntriesPrintedStep(entries: seq<Pair>, index: nat, config: Config)
    requires 0 < index < |entries| && config.includeNullElements
    ensures PrintEntries(entries, index, config)
            == ([COMMA] + (StringText(entries[index].key, config) + ([COLON] + Print(entries[index].value, config))))
               + PrintEntries(entries, index + 1, config)
  {
  }

  lemma RestParts(items: seq<Tree>, index: nat, config: Config)
    requires 0 < index < |items| && !config.includeNullElements
    ensures PrintItems(items, index, config)
            == (if items[index].Null? then PrintItems(items, index + 1, config)
                else ([COMMA] + Print(items[index], config)) + PrintItems(items, index + 1, config))
  {
  }

  lemma EntriesRestParts(entries: seq<Pair>, index: nat, config: Config)
    requires 0 < index < |entries| && !config.includeNullElements
    ensures PrintEntries(entries, index, config)
            == (if entries[index].value.Null? then PrintEntries(entries, index + 1, config)
                else
                  ([COMMA] + (StringText(entries[index].key, config) + ([COLON] + Print(entries[index].value, config))))
                  + PrintEntries(entries, index + 1, config))
  {
  }
}

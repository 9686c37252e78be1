/** What the deserializer accepts: exactly the documents of the wider grammar whose escapes it can read. */
module DeserializerProof {
  import opened Bytes
  import opened Literals
  import opened JsonDocument
  import opened DeserializerSpec
  import opened Reading
  import opened ReadingProof
  import Unescape

  // ----- The loops, step by step -----

  lemma ItemStep(data: bytes, i: nat, done: seq<Tree>, tree: Tree, e: nat)
    requires i < |data| && data[i] != RBRACKET
    requires Value(data, SkipBlanks(data, i)) == Parsed(tree, e)
    ensures e <= |data|
    ensures ItemsFrom(data, i, done) == ItemsFrom(data, AfterComma(data, SkipBlanks(data, e)), done + [tree])
  {
    hide SkipBlanks, Value, AfterComma;
  }

  lemma ItemRefused(data: bytes, i: nat, done: seq<Tree>)
    requires i <= |data| && (i < |data| ==> data[i] != RBRACKET && Value(data, SkipBlanks(data, i)).Failed?)
    ensures ItemsFrom(data, i, done).Failed?
  {
    hide SkipBlanks, Value, AfterComma;
  }

  lemma ItemsEnd(data: bytes, n: nat, done: seq<Tree>)
    requires n < |data| && data[n] == RBRACKET
    ensures ItemsFrom(data, n, done) == Parsed(Vector(done), n + 1)
  {
  }

  lemma EntryStep(data: bytes, i: nat, done: seq<Pair>, key: bytes, k: nat, tree: Tree, e: nat)
    requires i < |data| && data[i] != RBRACE
    requires StringAt(data, SkipBlanks(data, i)) == ParsedString(key, k)
    requires SkipBlanks(data, k) < |data| && data[SkipBlanks(data, k)] == COLON
    requires Value(data, SkipBlanks(data, SkipBlanks(data, k) + 1)) == Parsed(tree, e)
    ensures e <= |data|
    ensures EntriesFrom(data, i, done)
            == EntriesFrom(data, AfterComma(data, SkipBlanks(data, e)), PutAt(done, key, tree))
  {
    EntryStepAt(data, i, done, SkipBlanks(data, i), key, k, SkipBlanks(data, k),
                SkipBlanks(data, SkipBlanks(data, k) + 1), tree, e);
  }

  lemma EntryStepAt(data: bytes, i: nat, done: seq<Pair>, v: nat, key: bytes, k: nat, colon: nat, start: nat,
                    tree: Tree, e: nat)
    requires i < |data| && data[i] != RBRACE && SkipBlanks(data, i) == v && StringAt(data, v) == ParsedString(key, k)
    requires SkipBlanks(data, k) == colon < |data| && data[colon] == COLON
    requires SkipBlanks(data, colon + 1) == start && Value(data, start) == Parsed(tree, e)
    ensures e <= |data|
    ensures EntriesFrom(data, i, done)
            == EntriesFrom(data, AfterComma(data, SkipBlanks(data, e)), PutAt(done, key, tree))
  {
    hide SkipBlanks, Value, AfterComma, StringAt, PutAt, IsBlank;
  }

  /** What makes the loop of deserializeMap give up at position i. */
  lemma EntryFails(data: bytes, i: nat, done: seq<Pair>)
    requires i <= |data| && (i < |data| ==> data[i] != RBRACE)
    requires i < |data| ==>
               match StringAt(data, SkipBlanks(data, i))
               case NoString => true
               case ParsedString(_, k) =>
                 var colon := SkipBlanks(data, k);
                 colon >= |data| || data[colon] != COLON || Value(data, SkipBlanks(data, colon + 1)).Failed?
    ensures EntriesFrom(data, i, done) == Failed(OnStack)
  {
    hide SkipBlanks, Value, AfterComma, StringAt, PutAt;
  }

  lemma EntriesEnd(data: bytes, n: nat, done: seq<Pair>)
    requires n < |data| && data[n] == RBRACE
    ensures EntriesFrom(data, n, done) == Parsed(Map(done), n + 1)
  {
  }

  // ----- The value is the meaning of the document found -----

  lemma AcceptedParts(a: seq<bytes>, b: seq<bytes>)
    ensures AllAccepted(a + b) <==> AllAccepted(a) && AllAccepted(b)
  {
    assert forall body :: body in a + b <==> body in a || body in b;
  }

  lemma AcceptedOne(body: bytes)
    ensures AllAccepted([body]) <==> Accepted(body)
    ensures AllAccepted([])
  {
    assert body in [body];
  }

  lemma {:induction false} BlanksStay(data: bytes, i: nat)
    ensures SkipBlanks(data, SkipBlanks(data, i)) == SkipBlanks(data, i)
    decreases |data| - i
  {
    if i < |data| && IsBlank(data[i]) {
      BlanksStay(data, i + 1);
    }
  }

  lemma DocAtBlank(data: bytes, i: nat)
    requires i <= |data|
    ensures SkipBlanks(data, i) <= |data| && DocAt(data, SkipBlanks(data, i)) == DocAt(data, i)
  {
    hide ItemsAt, EntriesAt, NumberAt, BodyAt, KeywordAt;
    BlanksStay(data, i);
  }

  lemma NumberMeans(data: bytes, i: nat)
    requires i < |data| && StartsNumber(data[i])
    ensures match NumberAt(data, i)
            case NoDoc => NumberValue(data, i).Failed?
            case Found(d, e) => Bodies(d) == [] && NumberValue(data, i) == Parsed(Meaning(d), e)
  {
    hide DigitsEnd, HasSeparator, FloatEnd, AfterSign, FractionAt, ExponentOf, FractionEnd, Text, IntegerTree, NumberOf;
    if NumberAt(data, i).Found? {
      NumberSound(data, i);
      TextIsSlice(data, i, Text(NumberAt(data, i).doc));
    }
  }

  lemma BodyMeans(data: bytes, i: nat)
    ensures match BodyAt(data, i)
            case NoBody => StringAt(data, i).NoString?
            case FoundBody(body, e) =>
              StringAt(data, i) == (if Accepted(body) then ParsedString(BodyMeaning(body), e) else NoString)
  {
    hide Unescape.Unescaped, ClosingQuote;
  }

  /** What the deserializer makes of a document it has found, or of none. */
  predicate Means(found: Found, r: Outcome) {
    match found
    case NoDoc => r.Failed?
    case Found(d, e) => if Readable(d) then r == Parsed(Meaning(d), e) else r.Failed?
  }

  lemma {:induction false} ValueMeans(data: bytes, i: nat)
    requires i <= |data|
    ensures Means(DocAt(data, i), Value(data, i))
    decreases |data| - i, 1
  {
    hide SkipBlanks, ItemsAt, EntriesAt, NumberAt, BodyAt, ItemsFrom, EntriesFrom, NumberValue, StringAt, AllAccepted,
         ItemsMeaning, EntriesMeaning, BodyMeaning, Accepted;
    hide IsAtText, IntegerTree, NumberOf;
    var p := SkipBlanks(data, i);
    var c := CharAt(data, p);
    AcceptedOne([]);
    if p < |data| && c == LBRACE {
      ObjectMeans(data, i, p);
    } else if p < |data| && c == LBRACKET {
      ArrayMeans(data, i, p);
    } else if c == QUOTE {
      BodyMeans(data, p);
      if BodyAt(data, p).FoundBody? {
        AcceptedOne(BodyAt(data, p).body);
      }
    } else if p < |data| && StartsNumber(c) {
      NumberMeans(data, p);
    }
  }

  lemma {:induction false} ArrayMeans(data: bytes, i: nat, p: nat)
    requires i <= |data| && p == SkipBlanks(data, i) < |data| && data[p] == LBRACKET
    ensures Means(DocAt(data, i), Value(data, i))
    decreases |data| - i, 0
  {
    hide SkipBlanks, ItemsAt, EntriesAt, ItemsFrom, EntriesFrom, AllAccepted, ItemsMeaning;
    var s := SkipBlanks(data, p + 1);
    AcceptedOne([]);
    if s < |data| && data[s] == RBRACKET {
      ItemsEnd(data, s, []);
    } else {
      BlanksStay(data, p + 1);
      ItemsMean(data, s, p + 1, []);
      if ItemsAt(data, p + 1).FoundItems? {
        NothingBefore(ItemsMeaning(ItemsAt(data, p + 1).items));
      }
    }
  }

  lemma NothingBefore(trees: seq<Tree>)
    ensures [] + trees == trees
  {
  }

  lemma {:induction false} ObjectMeans(data: bytes, i: nat, p: nat)
    requires i <= |data| && p == SkipBlanks(data, i) < |data| && data[p] == LBRACE
    ensures Means(DocAt(data, i), Value(data, i))
    decreases |data| - i, 0
  {
    hide SkipBlanks, ItemsAt, EntriesAt, ItemsFrom, EntriesFrom, AllAccepted, EntriesMeaning;
    var s := SkipBlanks(data, p + 1);
    AcceptedOne([]);
    if s < |data| && data[s] == RBRACE {
      EntriesEnd(data, s, []);
    } else {
      BlanksStay(data, p + 1);
      EntriesMean(data, s, p + 1, []);
    }
  }

  /** What the loop of deserializeArray makes of the items it has found, or of none. */
  predicate ItemsMeanAs(found: FoundItems, r: Outcome, done: seq<Tree>) {
    match found
    case NoItems => r.Failed?
    case FoundItems(items, e) =>
      if AllAccepted(ItemsBodies(items)) then r == Parsed(Vector(done + ItemsMeaning(items)), e) else r.Failed?
  }

  lemma {:induction false} ItemsMean(data: bytes, i: nat, b: nat, done: seq<Tree>)
    requires b <= |data| && i <= |data| && SkipBlanks(data, i) == SkipBlanks(data, b)
             && (i < |data| ==> data[i] != RBRACKET)
    ensures ItemsMeanAs(ItemsAt(data, b), ItemsFrom(data, i, done), done)
    decreases |data| - b, 3
  {
    hide SkipBlanks, Value, ItemsFrom, AfterComma, DocAt, AllAccepted, Bodies, Meaning;
    var v := SkipBlanks(data, b);
    DocAtBlank(data, b);
    ValueMeans(data, v);
    BlanksEnd(data, i);
    if i == |data| || Value(data, v).Failed? {
      ItemRefused(data, i, done);
      if ItemsAt(data, b).FoundItems? {
        ItemsParts(ItemsAt(data, b).items);
      }
    } else {
      var d, e := DocAt(data, v).doc, DocAt(data, v).end;
      var n := AfterComma(data, SkipBlanks(data, e));
      var next := done + [Meaning(d)];
      ItemStep(data, i, done, Meaning(d), e);
      if n < |data| && data[n] == RBRACKET {
        ItemsEnd(data, n, next);
      } else {
        ItemsMean(data, n, n, next);
      }
      if ItemsAt(data, b).FoundItems? {
        ItemsParts(ItemsAt(data, b).items);
        OneMore(done, ItemsAt(data, b).items);
      }
    }
  }

  /** At the end of the text no value is left. */
  lemma BlanksEnd(data: bytes, i: nat)
    requires i <= |data|
    ensures i == |data| ==> SkipBlanks(data, i) == |data|
    ensures SkipBlanks(data, i) == |data| ==> Value(data, |data|).Failed?
  {
    assert SkipBlanks(data, |data|) == |data|;
  }

  lemma ItemsParts(items: Items)
    ensures AllAccepted(ItemsBodies(items))
            <==> AllAccepted(Bodies(items.value)) && (items.MoreItems? ==> AllAccepted(ItemsBodies(items.rest)))
  {
    hide AllAccepted, Bodies;
    AcceptedOne([]);
    AcceptedParts(Bodies(items.value), if items.MoreItems? then ItemsBodies(items.rest) else []);
  }

  lemma OneMore(done: seq<Tree>, items: Items)
    ensures done + ItemsMeaning(items)
            == (if items.MoreItems? then (done + [Meaning(items.value)]) + ItemsMeaning(items.rest)
                else done + [Meaning(items.value)])
  {
    hide Meaning;
  }

  /** What the loop of deserializeMap makes of the entries it has found, or of none. */
  predicate EntriesMeanAs(found: FoundEntries, r: Outcome, done: seq<Pair>) {
    match found
    case NoEntries => r.Failed?
    case FoundEntries(entries, e) =>
      if AllAccepted(EntriesBodies(entries)) then r == Parsed(Map(EntriesMeaning(entries, done)), e) else r.Failed?
  }

  lemma {:induction false} EntriesMean(data: bytes, i: nat, b: nat, done: seq<Pair>)
    requires b <= |data| && i <= |data| && SkipBlanks(data, i) == SkipBlanks(data, b)
             && (i < |data| ==> data[i] != RBRACE)
    ensures EntriesMeanAs(EntriesAt(data, b), EntriesFrom(data, i, done), done)
    decreases |data| - b, 3
  {
    hide SkipBlanks, Value, EntriesFrom, AfterComma, DocAt, AllAccepted, Bodies, Meaning, BodyAt, StringAt, PutAt,
         BodyMeaning, Accepted;
    var k := SkipBlanks(data, b);
    BodyMeans(data, k);
    BlanksEnd(data, i);
    NoKeyAtEnd(data);
    if EntriesAt(data, b).FoundEntries? {
      EntriesParts(EntriesAt(data, b).entries);
    }
    if BodyAt(data, k).FoundBody? {
      var c := SkipBlanks(data, BodyAt(data, k).end);
      if c < |data| && data[c] == COLON {
        DocAtBlank(data, c + 1);
        ValueMeans(data, SkipBlanks(data, c + 1));
        var d := DocAt(data, c + 1);
        if Accepted(BodyAt(data, k).body) && d.Found? && Readable(d.doc) {
          EntryTaken(data, i, b, done, k, c);
          return;
        }
      }
    }
    EntryFails(data, i, done);
  }

  lemma NoKeyAtEnd(data: bytes)
    ensures BodyAt(data, |data|).NoBody?
  {
  }

  /** An entry that can be read, and those after it. */
  lemma {:induction false} EntryTaken(data: bytes, i: nat, b: nat, done: seq<Pair>, k: nat, c: nat)
    requires b <= |data| && i <= |data| && SkipBlanks(data, i) == SkipBlanks(data, b) == k
             && (i < |data| ==> data[i] != RBRACE)
    requires BodyAt(data, k).FoundBody? && Accepted(BodyAt(data, k).body)
    requires StringAt(data, k) == ParsedString(BodyMeaning(BodyAt(data, k).body), BodyAt(data, k).end)
    requires SkipBlanks(data, BodyAt(data, k).end) == c < |data| && data[c] == COLON && b < c
    requires DocAt(data, c + 1).Found? && Readable(DocAt(data, c + 1).doc)
    requires Value(data, SkipBlanks(data, c + 1)) == Parsed(Meaning(DocAt(data, c + 1).doc), DocAt(data, c + 1).end)
    ensures EntriesMeanAs(EntriesAt(data, b), EntriesFrom(data, i, done), done)
    decreases |data| - b, 2
  {
    hide SkipBlanks, Value, EntriesFrom, AfterComma, DocAt, AllAccepted, Bodies, Meaning, BodyAt, StringAt, PutAt,
         BodyMeaning, Accepted;
    BlanksEnd(data, i);
    NoKeyAtEnd(data);
    var key := BodyAt(data, k).body;
    var d, e := DocAt(data, c + 1).doc, DocAt(data, c + 1).end;
    var n := AfterComma(data, SkipBlanks(data, e));
    var next := PutAt(done, BodyMeaning(key), Meaning(d));
    EntryStep(data, i, done, BodyMeaning(key), BodyAt(data, k).end, Meaning(d), e);
    if n < |data| && data[n] == RBRACE {
      EntriesEnd(data, n, next);
    } else {
      EntriesMean(data, n, n, next);
    }
    if EntriesAt(data, b).FoundEntries? {
      EntriesParts(EntriesAt(data, b).entries);
    }
  }

  lemma EntriesParts(entries: Entries)
    ensures AllAccepted(EntriesBodies(entries)) <==>
            Accepted(entries.key) && AllAccepted(Bodies(entries.value))
            && (entries.MoreEntries? ==> AllAccepted(EntriesBodies(entries.rest)))
  {
    hide AllAccepted, Bodies, Accepted;
    AcceptedOne(entries.key);
    AcceptedParts([entries.key], Bodies(entries.value));
    AcceptedParts([entries.key] + Bodies(entries.value),
                  if entries.MoreEntries? then EntriesBodies(entries.rest) else []);
  }

  /** The accepted language, exactly: the deserializer parses a value to the tree t and the position p if and only if a
      document of the wider grammar stands there that it can read, denotes t and ends at p. */
  lemma AcceptedExactly(data: bytes, i: nat, t: Tree, p: nat)
    requires i <= |data|
    ensures Value(data, i) == Parsed(t, p) <==>
            exists d ::
              Loose(d) && Stands(d, data, SkipBlanks(data, i)) && Readable(d) && Meaning(d) == t
              && p == SkipBlanks(data, i) + |Text(d)|
  {
    hide Value, DocAt, Loose, Stands, Readable, Meaning, Text, SkipBlanks;
    ValueMeans(data, i);
    var q := SkipBlanks(data, i);
    if Value(data, i) == Parsed(t, p) {
      DocSound(data, i);
      var d := DocAt(data, i).doc;
      assert Loose(d) && Stands(d, data, q) && Readable(d) && Meaning(d) == t && p == q + |Text(d)|;
    }
    if d :| Loose(d) && Stands(d, data, q) && Readable(d) && Meaning(d) == t && p == q + |Text(d)| {
      DocOnly(d, data, i);
    }
  }

  // ----- Refusals -----

  lemma {:induction false} ItemsFailOnStack(data: bytes, i: nat, done: seq<Tree>)
    requires i <= |data|
    ensures ItemsFrom(data, i, done).Failed? ==> ItemsFrom(data, i, done).kind == OnStack
    decreases |data| - i
  {
    hide Value;
    if i < |data| && data[i] != RBRACKET && Value(data, SkipBlanks(data, i)).Parsed? {
      var r := Value(data, SkipBlanks(data, i));
      ItemsFailOnStack(data, AfterComma(data, SkipBlanks(data, r.pos)), done + [r.tree]);
    }
  }

  lemma {:induction false} EntriesFailOnStack(data: bytes, i: nat, done: seq<Pair>)
    requires i <= |data|
    ensures EntriesFrom(data, i, done).Failed? ==> EntriesFrom(data, i, done).kind == OnStack
    decreases |data| - i
  {
    hide Value, StringAt, PutAt;
    if i < |data| && data[i] != RBRACE && StringAt(data, SkipBlanks(data, i)).ParsedString? {
      var colon := SkipBlanks(data, StringAt(data, SkipBlanks(data, i)).pos);
      if colon < |data| && data[colon] == COLON && Value(data, SkipBlanks(data, colon + 1)).Parsed? {
        var r := Value(data, SkipBlanks(data, colon + 1));
        EntriesFailOnStack(data, AfterComma(data, SkipBlanks(data, r.pos)),
                           PutAt(done, StringAt(data, SkipBlanks(data, i)).text, r.tree));
      }
    }
  }

  /** A refusal is reported by the caret alone exactly if the text itself is a string or a number: everywhere else, and
      for a string or a number inside an array or object, it is on the error stack. */
  lemma ReportedByCaret(data: bytes, i: nat)
    requires i <= |data| && Value(data, i).Failed?
    ensures var p := SkipBlanks(data, i);
            Value(data, i).kind == OnCaret <==> p < |data| && (data[p] == QUOTE || StartsNumber(data[p]))
  {
    hide ItemsFrom, EntriesFrom, NumberValue, StringValue, SkipBlanks;
    var p := SkipBlanks(data, i);
    if p < |data| {
      ItemsFailOnStack(data, SkipBlanks(data, p + 1), []);
      EntriesFailOnStack(data, SkipBlanks(data, p + 1), []);
    }
    LeavesFailOnCaret(data, p);
  }

  lemma LeavesFailOnCaret(data: bytes, p: nat)
    ensures StringValue(data, p).Failed? ==> StringValue(data, p).kind == OnCaret
    ensures p < |data| && NumberValue(data, p).Failed? ==> NumberValue(data, p).kind == OnCaret
  {
    hide StringAt;
  }
}

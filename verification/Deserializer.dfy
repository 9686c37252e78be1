/** `Deserializer` over its caret: the recursive parser, method by method, against the functions of DeserializerSpec. */
module Deserializer {
  import opened Bytes
  import opened Literals
  import opened JsonDocument
  import opened DeserializerSpec
  import DeserializerProof
  import FastStrings
  import Unescape

  /** An error of unescaping is reported inside the literal. */
  lemma {:induction false} ErrorInside(s: bytes, i: nat)
    ensures Unescape.Unescaped(s, i).Failed? ==> Unescape.Unescaped(s, i).at < |s|
    decreases |s| - i
  {
    if i < |s| {
      var step := Unescape.StepAt(s, i);
      if step.Good? {
        ErrorInside(s, i + step.used);
      }
    }
  }

  /** utils::parser::Caret: a position in a text, and whether an error was set. */
  class Caret {
    const data: bytes
    var pos: nat
    var error: bool

    predicate Valid()
      reads this
    {
      pos <= |data|
    }

    constructor (data: bytes)
      ensures Valid() && this.data == data && pos == 0 && !error
    {
      this.data := data;
      pos := 0;
      error := false;
    }

    predicate CanContinue()
      reads this
    {
      pos < |data| && !error
    }

    predicate IsAtChar(c: byte)
      reads this
    {
      CharAt(data, pos) == c
    }

    method SkipBlankChars()
      requires Valid()
      modifies this`pos
      ensures Valid() && pos == SkipBlanks(data, old(pos))
    {
      while pos < |data| && IsBlank(data[pos])
        invariant Valid() && SkipBlanks(data, pos) == SkipBlanks(data, old(pos))
      {
        pos := pos + 1;
      }
    }

    /** `canContinueAtChar(c, 1)` */
    method SkipChar(c: byte) returns (ok: bool)
      requires Valid()
      modifies this`pos
      ensures Valid() && ok == (old(pos) < |data| && !error && data[old(pos)] == c)
      ensures pos == if ok then old(pos) + 1 else old(pos)
    {
      ok := pos < |data| && !error && data[pos] == c;
      if ok {
        pos := pos + 1;
      }
    }

    method SkipText(text: bytes) returns (ok: bool)
      requires Valid()
      modifies this`pos
      ensures Valid() && ok == IsAtText(data, old(pos), text)
      ensures pos == if ok then old(pos) + |text| else old(pos)
    {
      if |text| > |data| - pos {
        return false;
      }
      var i := 0;
      while i < |text|
        invariant 0 <= i <= |text|
        invariant forall k :: 0 <= k < i ==> data[pos + k] == text[k]
      {
        if text[i] != data[pos + i] {
          assert data[pos..pos + |text|][i] != text[i];
          return false;
        }
        i := i + 1;
      }
      assert data[pos..pos + |text|] == text;
      pos := pos + |text|;
      ok := true;
    }

    /** `findDecimalSeparatorInCurrentNumber`: looks ahead and puts the caret back. */
    method FindDecimalSeparator() returns (found: bool)
      requires Valid() && !error
      modifies this`pos
      ensures pos == old(pos) && found == HasSeparator(data, pos)
    {
      var saved := pos;
      found := false;
      while CanContinue()
        invariant Valid() && HasSeparator(data, pos) == HasSeparator(data, saved)
        decreases |data| - pos
      {
        if IsAtChar(POINT) || IsAtChar(LOWER_E) || IsAtChar(UPPER_E) {
          pos := saved;
          return true;
        }
        if !IsDigit(data[pos]) && !IsAtChar(MINUS) {
          pos := saved;
          return false;
        }
        pos := pos + 1;
      }
      pos := saved;
    }

    /** `deserializeNumber`: strtoll, strtoull or strtod at the caret. */
    method ParseNumber() returns (tree: Tree)
      requires Valid() && !error && pos < |data|
      modifies this
      ensures Valid()
      ensures match NumberValue(data, old(pos))
              case Parsed(t, p) => !error && tree == t && pos == p
              case Failed(kind) => kind == OnCaret && error
    {
      hide DigitsEnd, HasSeparator, FloatEnd, AfterSign, NumberOf, IntegerTree;
      var separated := FindDecimalSeparator();
      tree := Null;
      if separated {
        var end := FloatEnd(data, pos);
        error := end == pos;
        tree := Float(data[pos..end]);
        pos := end;
      } else {
        var start := AfterSign(data, pos);
        var end := DigitsEnd(data, start);
        if end == start {
          error := true;
        } else {
          tree := IntegerTree(data[pos] == MINUS, NumberOf(data[start..end]));
          pos := end;
        }
      }
    }

    /** `Utils::parseString` */
    method ParseString() returns (text: bytes)
      requires Valid() && !error
      modifies this
      ensures Valid()
      ensures match StringAt(data, old(pos))
              case ParsedString(t, p) => !error && text == t && pos == p
              case NoString => error
    {
      hide ClosingQuote, Unescape.Unescaped;
      var atOpening := SkipChar(QUOTE);
      if !atOpening {
        error := true;
        return [];
      }
      var start := pos;
      var closing := PreparseString(data, start);
      if closing == Nowhere {
        pos := |data|;
        error := true;
        return [];
      }
      var end := closing.index;
      var r := FastStrings.ParseStringFromRange(data, start, end);
      if r.Failed? {
        ErrorInside(data[start..end], 0);
        error := true;
        pos := start + r.at;
        return [];
      }
      pos := end + 1;
      text := r.text;
    }
  }

  /** The tree, and whether something was pushed on the error stack. */
  datatype Parse = Parse(tree: Tree, stacked: bool)

  /** What the caret and the error stack say about an outcome. */
  predicate Agrees(outcome: Outcome, p: Parse, caretError: bool, pos: nat) {
    match outcome
    case Parsed(tree, end) => !p.stacked && !caretError && p.tree == tree && pos == end
    case Failed(OnStack) => p.stacked
    case Failed(OnCaret) => !p.stacked && caretError
  }

  method DeserializeKeyword(caret: Caret, text: bytes, tree: Tree) returns (p: Parse)
    requires caret.Valid() && !caret.error
    modifies caret
    ensures caret.Valid()
    ensures Agrees(Keyword(caret.data, old(caret.pos), text, tree), p, caret.error, caret.pos)
  {
    var ok := caret.SkipText(text);
    p := if ok then Parse(tree, false) else Parse(Null, true);
  }

  /** `deserialize` */
  method Deserialize(caret: Caret) returns (p: Parse)
    requires caret.Valid() && !caret.error
    modifies caret
    ensures caret.Valid()
    ensures Agrees(Value(caret.data, old(caret.pos)), p, caret.error, caret.pos)
    decreases |caret.data| - caret.pos, 1
  {
    hide SkipBlanks, ItemsFrom, EntriesFrom, NumberValue, StringAt, IsAtText;
    caret.SkipBlankChars();
    var c := CharAt(caret.data, caret.pos);
    if c == NULL_TEXT[0] {
      p := DeserializeKeyword(caret, NULL_TEXT, Null);
    } else if c == LBRACE {
      p := DeserializeMap(caret);
    } else if c == LBRACKET {
      p := DeserializeArray(caret);
    } else if c == QUOTE {
      var text := caret.ParseString();
      p := Parse(Str(text), false);
    } else if c == TRUE_TEXT[0] {
      p := DeserializeKeyword(caret, TRUE_TEXT, Bool(true));
    } else if c == FALSE_TEXT[0] {
      p := DeserializeKeyword(caret, FALSE_TEXT, Bool(false));
    } else if StartsNumber(c) {
      var tree := caret.ParseNumber();
      p := Parse(tree, false);
    } else {
      p := Parse(Null, true);
    }
  }

  /** `deserializeArray` */
  method DeserializeArray(caret: Caret) returns (p: Parse)
    requires caret.Valid() && !caret.error && caret.pos < |caret.data| && caret.data[caret.pos] == LBRACKET
    modifies caret
    ensures caret.Valid()
    ensures Agrees(ItemsFrom(caret.data, SkipBlanks(caret.data, old(caret.pos) + 1), []), p, caret.error, caret.pos)
    decreases |caret.data| - caret.pos, 0
  {
    hide SkipBlanks, Value;
    var atOpening := caret.SkipChar(LBRACKET);
    caret.SkipBlankChars();
    var data := caret.data;
    ghost var start := caret.pos;
    var items := [];
    while !caret.IsAtChar(RBRACKET) && caret.CanContinue()
      invariant caret.Valid() && old(caret.pos) < start && (caret.error || start <= caret.pos)
      invariant if caret.error then ItemsFrom(data, start, []) == Failed(OnStack)
                else ItemsFrom(data, caret.pos, items) == ItemsFrom(data, start, [])
      decreases if caret.error then 0 else |data| - caret.pos + 1
    {
      ghost var from := caret.pos;
      caret.SkipBlankChars();
      var nested := Deserialize(caret);
      if nested.stacked {
        return Parse(Null, true);
      }
      ghost var failed := caret.error;
      caret.SkipBlankChars();
      var comma := caret.SkipChar(COMMA);
      items := items + [nested.tree];
      if !failed {
        assert ItemsFrom(data, from, items[..|items| - 1]) == ItemsFrom(data, caret.pos, items) by {
          assert items[..|items| - 1] + [nested.tree] == items;
        }
      }
    }
    var closed := caret.SkipChar(RBRACKET);
    p := if closed then Parse(Vector(items), false) else Parse(Null, true);
  }

  /** `deserializeMap` */
  method DeserializeMap(caret: Caret) returns (p: Parse)
    requires caret.Valid() && !caret.error && caret.pos < |caret.data| && caret.data[caret.pos] == LBRACE
    modifies caret
    ensures caret.Valid()
    ensures Agrees(EntriesFrom(caret.data, SkipBlanks(caret.data, old(caret.pos) + 1), []), p, caret.error, caret.pos)
    decreases |caret.data| - caret.pos, 0
  {
    hide SkipBlanks, Value, StringAt, PutAt, EntriesFrom, AfterComma;
    var atOpening := caret.SkipChar(LBRACE);
    caret.SkipBlankChars();
    var data := caret.data;
    ghost var start := caret.pos;
    var entries := [];
    while !caret.IsAtChar(RBRACE) && caret.CanContinue()
      invariant caret.Valid() && old(caret.pos) < start && (caret.error || start <= caret.pos)
      invariant if caret.error then EntriesFrom(data, start, []) == Failed(OnStack)
                else EntriesFrom(data, caret.pos, entries) == EntriesFrom(data, start, [])
      decreases if caret.error then 0 else |data| - caret.pos + 1
    {
      ghost var from := caret.pos;
      caret.SkipBlankChars();
      var key := caret.ParseString();
      if caret.error {
        DeserializerProof.EntryFails(data, from, entries);
        return Parse(Null, true);
      }
      ghost var k := caret.pos;
      caret.SkipBlankChars();
      var colon := caret.SkipChar(COLON);
      if !colon {
        DeserializerProof.EntryFails(data, from, entries);
        return Parse(Null, true);
      }
      caret.SkipBlankChars();
      var nested := Deserialize(caret);
      if nested.stacked {
        DeserializerProof.EntryFails(data, from, entries);
        return Parse(Null, true);
      }
      if caret.error {
        DeserializerProof.EntryFails(data, from, entries);
      } else {
        DeserializerProof.EntryStep(data, from, entries, key, k, nested.tree, caret.pos);
      }
      caret.SkipBlankChars();
      ghost var q := caret.pos;
      var comma := caret.SkipChar(COMMA);
      CommaSkipped(data, q);
      entries := PutAt(entries, key, nested.tree);
    }
    MapEnds(data, caret.pos, entries);
    var closed := caret.SkipChar(RBRACE);
    p := if closed then Parse(Map(entries), false) else Parse(Null, true);
  }

  lemma CommaSkipped(data: bytes, i: nat)
    requires i <= |data|
    ensures AfterComma(data, i) == if i < |data| && data[i] == COMMA then i + 1 else i
  {
  }

  lemma MapEnds(data: bytes, i: nat, entries: seq<Pair>)
    requires i <= |data|
    ensures i == |data| ==> EntriesFrom(data, i, entries) == Failed(OnStack)
    ensures i < |data| && data[i] == RBRACE ==> EntriesFrom(data, i, entries) == Parsed(Map(entries), i + 1)
  {
  }
}

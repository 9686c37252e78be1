/** src/oatpp/json/Serializer.cpp: the recursive printer, onto a plain stream or through a beautifier. */
module Serializer {
  import opened Bytes
  import opened Stream
  import opened JsonBeautifier
  import opened JsonDocument
  import Escape

  datatype Config = Config(flags: Escape.Flags, includeNullElements: bool, useBeautifier: bool)

  const INDENT: bytes := [SPACE, SPACE]
  const NEW_LINE: bytes := [0x0A]

  /** The two constructor arguments `serializeToStream` gives its beautifier. */
  const STYLE := Style(INDENT, NEW_LINE)

  function DecimalText(n: nat): bytes {
    if n < 10 then [0x30 + n] else DecimalText(n / 10) + [0x30 + n % 10]
  }

  function IntText(n: int): bytes {
    Sign(n < 0) + DecimalText(if n < 0 then -n else n)
  }

  /** An undefined node cannot be printed; neither can a tree that holds one. */
  predicate Serializable(t: Tree)
    decreases t
  {
    match t
    case Undefined => false
    case Vector(items) => forall k :: 0 <= k < |items| ==> Serializable(items[k])
    case Map(entries) => forall k :: 0 <= k < |entries| ==> Serializable(entries[k].value)
    case _ => true
  }

  /** The node that a path of indices leads to; Null where it leads nowhere. */
  function NodeAt(t: Tree, path: seq<nat>): Tree
    decreases |path|
  {
    if path == [] then t
    else match t
      case Vector(items) => if path[0] < |items| then NodeAt(items[path[0]], path[1..]) else Null
      case Map(entries) => if path[0] < |entries| then NodeAt(entries[path[0]].value, path[1..]) else Null
      case _ => Null
  }

  lemma {:induction false} NodeIsDefined(t: Tree, path: seq<nat>)
    requires Serializable(t)
    ensures NodeAt(t, path) != Undefined
    decreases |path|
  {
    if path != [] {
      match t
      case Vector(items) => if path[0] < |items| { NodeIsDefined(items[path[0]], path[1..]); }
      case Map(entries) => if path[0] < |entries| { NodeIsDefined(entries[path[0]].value, path[1..]); }
      case _ =>
    }
  }

  lemma {:induction false} UndefinedNode(t: Tree) returns (path: seq<nat>)
    requires !Serializable(t)
    ensures NodeAt(t, path) == Undefined
    decreases t
  {
    match t
    case Undefined => path := [];
    case Vector(items) =>
      var k: nat :| k < |items| && !Serializable(items[k]);
      var rest := UndefinedNode(items[k]);
      path := [k] + rest;
      assert path[1..] == rest;
    case Map(entries) =>
      var k: nat :| k < |entries| && !Serializable(entries[k].value);
      var rest := UndefinedNode(entries[k].value);
      path := [k] + rest;
      assert path[1..] == rest;
  }

  /** A tree is refused exactly if some path in it leads to an undefined node. */
  lemma RefusedExactly(t: Tree)
    ensures !Serializable(t) <==> exists path :: NodeAt(t, path) == Undefined
  {
    hide Serializable, NodeAt;
    if !Serializable(t) {
      var path := UndefinedNode(t);
    }
    if path :| NodeAt(t, path) == Undefined {
      if Serializable(t) {
        NodeIsDefined(t, path);
      }
    }
  }

  /** The compact text of a tree. */
  function Print(t: Tree, config: Config): bytes
    decreases t
  {
    match t
    case Undefined => []
    case Null => NULL_TEXT
    case Bool(b) => if b then TRUE_TEXT else FALSE_TEXT
    case Integer(n) => IntText(n)
    case UInt64(u) => IntText(u)
    case Float(lexeme) => lexeme
    case Str(text) => StringText(text, config)
    case Vector(items) => [LBRACKET] + (PrintItems(items, 0, config) + [RBRACKET])
    case Map(entries) => [LBRACE] + (PrintEntries(entries, 0, config) + [RBRACE])
  }

  function StringText(text: bytes, config: Config): bytes {
    Quoted(Escape.EscapeResult(text, config.flags))
  }

  /** What precedes the element at an index that counts skipped elements, too. */
  function Separator(index: nat): bytes {
    if index > 0 then [COMMA] else []
  }

  function ItemText(items: seq<Tree>, index: nat, config: Config): bytes
    requires index < |items|
    decreases items, |items| - index, 0
  {
    if items[index].Null? && !config.includeNullElements then []
    else Separator(index) + Print(items[index], config)
  }

  function PrintItems(items: seq<Tree>, index: nat, config: Config): bytes
    decreases items, |items| - index, 1
  {
    if index >= |items| then [] else ItemText(items, index, config) + PrintItems(items, index + 1, config)
  }

  function EntryText(entries: seq<Pair>, index: nat, config: Config): bytes
    requires index < |entries|
    decreases entries, |entries| - index, 0
  {
    if entries[index].value.Null? && !config.includeNullElements then []
    else Separator(index) + (StringText(entries[index].key, config) + ([COLON] + Print(entries[index].value, config)))
  }

  function PrintEntries(entries: seq<Pair>, index: nat, config: Config): bytes
    decreases entries, |entries| - index, 1
  {
    if index >= |entries| then [] else EntryText(entries, index, config) + PrintEntries(entries, index + 1, config)
  }

  /** The stream a printer writes to: a plain stream, or a beautifier in front of it. */
  class Sink {
    const stream: OutputStream
    const beautifier: Beautifier?
    ghost const start: bytes
    ghost var written: bytes

    /** What has reached the stream is what was written, or the beautifier's output for it. */
    ghost predicate Valid()
      reads this, stream, beautifier
    {
      if beautifier == null then stream.data == start + written
      else
        && beautifier.outputStream == stream && beautifier.style == STYLE
        && stream.data == start + Run(STYLE, State(0, false, false, false), written).text
        && beautifier.Current() == Run(STYLE, State(0, false, false, false), written).state
    }

    constructor Plain(stream: OutputStream)
      ensures Valid() && this.stream == stream && beautifier == null && start == stream.data && written == []
    {
      this.stream := stream;
      beautifier := null;
      start := stream.data;
      written := [];
    }

    constructor Beautified(stream: OutputStream)
      ensures Valid() && this.stream == stream && beautifier != null && start == stream.data && written == []
      ensures fresh(beautifier)
    {
      this.stream := stream;
      beautifier := new Beautifier(stream, INDENT, NEW_LINE);
      start := stream.data;
      written := [];
    }

    method WriteSimple(text: bytes)
      requires Valid()
      modifies this, stream, beautifier
      ensures Valid() && written == old(written) + text
    {
      hide Run;
      if beautifier == null {
        stream.WriteSimple(text);
      } else {
        RunConcat(STYLE, State(0, false, false, false), written, text);
        beautifier.Write(text);
      }
      written := written + text;
    }
  }

  method SerializeString(sink: Sink, text: bytes, config: Config)
    requires sink.Valid()
    modifies sink, sink.stream, sink.beautifier
    ensures sink.Valid() && sink.written == old(sink.written) + StringText(text, config)
  {
    hide Escape.EscapeResult, Run;
    var encoded := Escape.EscapeString(text, config.flags);
    sink.WriteSimple([QUOTE]);
    sink.WriteSimple(encoded);
    sink.WriteSimple([QUOTE]);
  }

  method Serialize(sink: Sink, tree: Tree, config: Config) returns (ok: bool)
    requires sink.Valid()
    modifies sink, sink.stream, sink.beautifier
    ensures sink.Valid() && ok == Serializable(tree)
    ensures ok ==> sink.written == old(sink.written) + Print(tree, config)
    decreases tree, 1
  {
    hide PrintItems, PrintEntries, Run, IntText, StringText;
    ok := true;
    match tree
    case Undefined => ok := false;
    case Null => sink.WriteSimple(NULL_TEXT);
    case Bool(b) => sink.WriteSimple(if b then TRUE_TEXT else FALSE_TEXT);
    case Integer(n) => sink.WriteSimple(IntText(n));
    case UInt64(u) => sink.WriteSimple(IntText(u));
    case Float(lexeme) => sink.WriteSimple(lexeme);
    case Str(text) => SerializeString(sink, text, config);
    case Vector(items) => ok := SerializeArray(sink, items, config);
    case Map(entries) => ok := SerializeMap(sink, entries, config);
  }

  /** The loop body of `serializeArray`. */
  method SerializeItem(sink: Sink, items: seq<Tree>, index: nat, config: Config) returns (ok: bool)
    requires sink.Valid() && index < |items|
    modifies sink, sink.stream, sink.beautifier
    ensures sink.Valid() && ok == Serializable(items[index])
    ensures ok ==> sink.written == old(sink.written) + ItemText(items, index, config)
    decreases items, 0
  {
    hide Print, Run, PrintItems, Sink.Valid;
    var tree := items[index];
    ok := true;
    if !tree.Null? || config.includeNullElements {
      if index > 0 {
        sink.WriteSimple([COMMA]);
      }
      ok := Serialize(sink, tree, config);
    }
  }

  method SerializeArray(sink: Sink, items: seq<Tree>, config: Config) returns (ok: bool)
    requires sink.Valid()
    modifies sink, sink.stream, sink.beautifier
    ensures sink.Valid() && ok == forall k :: 0 <= k < |items| ==> Serializable(items[k])
    ensures ok ==> sink.written == old(sink.written) + ([LBRACKET] + (PrintItems(items, 0, config) + [RBRACKET]))
    decreases items, 1
  {
    hide Print, Run, Sink.Valid, ItemText, Serializable;
    sink.WriteSimple([LBRACKET]);
    ghost var done := [];
    var index := 0;
    while index < |items|
      invariant 0 <= index <= |items| && sink.Valid()
      invariant sink.written == old(sink.written) + ([LBRACKET] + done)
      invariant done + PrintItems(items, index, config) == PrintItems(items, 0, config)
      invariant forall k :: 0 <= k < index ==> Serializable(items[k])
    {
      ok := SerializeItem(sink, items, index, config);
      if !ok {
        return;
      }
      Reassociate(done, ItemText(items, index, config), PrintItems(items, index + 1, config));
      done := done + ItemText(items, index, config);
      index := index + 1;
    }
    sink.WriteSimple([RBRACKET]);
    ok := true;
  }

  lemma Reassociate(a: bytes, b: bytes, c: bytes)
    ensures (a + b) + c == a + (b + c)
  {
  }

  /** The loop body of `serializeMap`. */
  method SerializeEntry(sink: Sink, entries: seq<Pair>, index: nat, config: Config) returns (ok: bool)
    requires sink.Valid() && index < |entries|
    modifies sink, sink.stream, sink.beautifier
    ensures sink.Valid() && ok == Serializable(entries[index].value)
    ensures ok ==> sink.written == old(sink.written) + EntryText(entries, index, config)
    decreases entries, 0
  {
    hide Print, Run, PrintEntries, StringText, Sink.Valid;
    var tree := entries[index].value;
    ok := true;
    if !tree.Null? || config.includeNullElements {
      if index > 0 {
        sink.WriteSimple([COMMA]);
      }
      SerializeString(sink, entries[index].key, config);
      sink.WriteSimple([COLON]);
      ok := Serialize(sink, tree, config);
    }
  }

  method SerializeMap(sink: Sink, entries: seq<Pair>, config: Config) returns (ok: bool)
    requires sink.Valid()
    modifies sink, sink.stream, sink.beautifier
    ensures sink.Valid() && ok == forall k :: 0 <= k < |entries| ==> Serializable(entries[k].value)
    ensures ok ==> sink.written == old(sink.written) + ([LBRACE] + (PrintEntries(entries, 0, config) + [RBRACE]))
    decreases entries, 1
  {
    hide Print, Run, StringText, Sink.Valid, EntryText, Serializable;
    sink.WriteSimple([LBRACE]);
    ghost var done := [];
    var index := 0;
    while index < |entries|
      invariant 0 <= index <= |entries| && sink.Valid()
      invariant sink.written == old(sink.written) + ([LBRACE] + done)
      invariant done + PrintEntries(entries, index, config) == PrintEntries(entries, 0, config)
      invariant forall k :: 0 <= k < index ==> Serializable(entries[k].value)
    {
      ok := SerializeEntry(sink, entries, index, config);
      if !ok {
        return;
      }
      Reassociate(done, EntryText(entries, index, config), PrintEntries(entries, index + 1, config));
      done := done + EntryText(entries, index, config);
      index := index + 1;
    }
    sink.WriteSimple([RBRACE]);
    ok := true;
  }

  /** The text that reaches the stream for a serializable tree. */
  function StreamText(tree: Tree, config: Config): bytes {
    if config.useBeautifier then Run(STYLE, State(0, false, false, false), Print(tree, config)).text
    else Print(tree, config)
  }

  method SerializeToStream(stream: OutputStream, tree: Tree, config: Config) returns (ok: bool)
    modifies stream
    ensures ok == Serializable(tree)
    ensures ok ==> stream.data == old(stream.data) + StreamText(tree, config)
  {
    hide Run, Print;
    var sink: Sink;
    if config.useBeautifier {
      sink := new Sink.Beautified(stream);
    } else {
      sink := new Sink.Plain(stream);
    }
    ok := Serialize(sink, tree, config);
    assert ok ==> sink.written == Print(tree, config);
  }
}

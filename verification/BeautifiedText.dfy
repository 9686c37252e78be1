/** What the beautifier makes of any document: a document with other blanks, of the same grammar and with the same
    meaning. For the printed text of a tree it is the indented document of that tree. */
module BeautifiedText {
  import opened Bytes
  import opened Unicode
  import opened Literals
  import opened JsonDocument
  import opened JsonBeautifier
  import opened Serializer
  import opened TreeDocument
  import DeserializerSpec
  import Escape
  import FastSkip
  import JsonTexts
  import ReadingProof
  import TreeRoundTrip

  /** Outside of strings. */
  function Outside(level: int, wantIndent: bool): State {
    State(level, wantIndent, false, false)
  }

  predicate IsPlain(c: byte) {
    c != LBRACE && c != RBRACE && c != LBRACKET && c != RBRACKET && c != COMMA && c != QUOTE && c != COLON
  }

  predicate AllPlain(s: bytes) {
    forall k :: 0 <= k < |s| ==> IsPlain(s[k])
  }

  lemma PlainParts(s: bytes, lead: bytes)
    requires s != [] && AllPlain(s)
    ensures IsPlain(s[0]) && AllPlain(s[1..])
    ensures s == [s[0]] + s[1..] && lead + s == (lead + [s[0]]) + s[1..] && (|s| == 1 ==> s == [s[0]])
  {
  }

  lemma RunByte(st: State, c: byte)
    ensures Run(STYLE, st, [c]) == Feed(STYLE, st, c)
  {
  }

  lemma RunThen(st: State, a: bytes, b: bytes, first: Output, second: Output)
    requires Run(STYLE, st, a) == first && Run(STYLE, first.state, b) == second
    ensures Run(STYLE, st, a + b) == Output(second.state, first.text + second.text)
  {
    hide Run;
    RunConcat(STYLE, st, a, b);
  }

  lemma PlainByte(level: int, wantIndent: bool, c: byte)
    requires IsPlain(c)
    ensures Run(STYLE, Outside(level, wantIndent), [c])
            == Output(Outside(level, false), Wanted(STYLE, Outside(level, wantIndent)) + [c])
  {
  }

  lemma {:induction false} PlainRun(level: int, wantIndent: bool, s: bytes)
    requires s != [] && AllPlain(s)
    ensures Run(STYLE, Outside(level, wantIndent), s)
            == Output(Outside(level, false), Wanted(STYLE, Outside(level, wantIndent)) + s)
    decreases |s|
  {
    hide Wanted, Run, IsPlain, AllPlain;
    var lead := Wanted(STYLE, Outside(level, wantIndent));
    PlainParts(s, lead);
    PlainByte(level, wantIndent, s[0]);
    if |s| > 1 {
      PlainRun(level, false, s[1..]);
      NotWanted(level, s[1..]);
      RunThen(Outside(level, wantIndent), [s[0]], s[1..], Output(Outside(level, false), lead + [s[0]]),
              Output(Outside(level, false), s[1..]));
    }
  }

  lemma NotWanted(level: int, s: bytes)
    ensures Wanted(STYLE, Outside(level, false)) + s == s
  {
  }

  /** The inside of a literal passes unchanged. */
  lemma {:induction false} BodyRun(level: int, s: bytes, from: nat)
    requires from <= |s| && IsBody(s, from, |s|)
    ensures Run(STYLE, State(level, false, false, true), s[from..])
            == Output(State(level, false, false, true), s[from..])
    decreases |s| - from
  {
    var st := State(level, false, false, true);
    if from < |s| {
      assert s[from..][1..] == s[from + 1..];
      if s[from] == BACKSLASH {
        assert s[from + 1..][1..] == s[from + 2..];
        BodyRun(level, s, from + 2);
        assert Run(STYLE, State(level, false, true, true), s[from + 1..])
               == Then(Output(st, [s[from + 1]]), Output(st, s[from + 2..]));
        assert s[from..] == [s[from]] + ([s[from + 1]] + s[from + 2..]);
      } else {
        BodyRun(level, s, from + 1);
        assert s[from..] == [s[from]] + s[from + 1..];
      }
    }
  }

  lemma QuotedRun(level: int, wantIndent: bool, body: bytes)
    requires Closed(body)
    ensures Run(STYLE, Outside(level, wantIndent), Quoted(body))
            == Output(Outside(level, false), Wanted(STYLE, Outside(level, wantIndent)) + Quoted(body))
  {
    hide Run, Wanted, IsBody;
    var st, inside := Outside(level, wantIndent), State(level, false, false, true);
    var lead := Wanted(STYLE, st);
    assert body[0..] == body;
    BodyRun(level, body, 0);
    RunByte(st, QUOTE);
    RunByte(inside, QUOTE);
    RunThen(st, [QUOTE], body, Output(inside, lead + [QUOTE]), Output(inside, body));
    RunThen(st, [QUOTE] + body, [QUOTE], Output(inside, lead + [QUOTE] + body), Output(Outside(level, false), [QUOTE]));
    assert lead + [QUOTE] + body + [QUOTE] == lead + Quoted(body);
  }

  /** The output for a value, after the indentation that was owed. */
  function Beautified(level: nat, wantIndent: bool, text: bytes): Output {
    Output(Outside(level, false), Wanted(STYLE, Outside(level, wantIndent)) + text)
  }

  lemma OpenRun(level: nat, wantIndent: bool, c: byte)
    requires c == LBRACKET || c == LBRACE
    ensures Run(STYLE, Outside(level, wantIndent), [c])
            == Output(Outside(level + 1, true), Wanted(STYLE, Outside(level, wantIndent)) + [c])
  {
  }

  lemma CloseRun(level: nat, wantIndent: bool, c: byte)
    requires c == RBRACKET || c == RBRACE
    ensures Run(STYLE, Outside(level + 1, wantIndent), [c])
            == Output(Outside(level, false), if wantIndent then [c] else Gap(Indented(level)) + [c])
  {
  }

  lemma CommaRun(level: nat, comma: bool)
    ensures Run(STYLE, Outside(level, false), CommaText(comma)) == Output(Outside(level, comma), CommaText(comma))
  {
  }

  lemma ColonRun(level: nat)
    ensures Run(STYLE, Outside(level, false), [COLON]) == Output(Outside(level, false), [COLON, SPACE])
  {
  }

  lemma WantedIsGap(level: nat)
    ensures Wanted(STYLE, Outside(level, true)) == Gap(Indented(level))
  {
  }

  // ----- The indented document -----

  /** The indentation that is written before the blanks of an element, if it is wanted. */
  function Indent(level: nat, wanted: bool): bytes {
    if wanted then Gap(Indented(level)) else []
  }

  /** The document with the blanks that the beautifier adds to its own. */
  function Pretty(d: Doc, level: nat): Doc {
    match d
    case DEmptyArray(pad) => DEmptyArray(PrettyPad(pad, level))
    case DArray(items) => DArray(PrettyItems(items, level, true))
    case DEmptyObject(pad) => DEmptyObject(PrettyPad(pad, level))
    case DObject(entries) => DObject(PrettyEntries(entries, level, true))
    case _ => d
  }

  function PrettyPad(pad: bytes, level: nat): bytes {
    if pad == [] then [] else Gap(Indented(level + 1)) + (pad + Gap(Indented(level)))
  }

  /** `level` is that of the container; a trailing comma takes the place of the last indentation. */
  function PrettyItems(items: Items, level: nat, wanted: bool): Items {
    var before := Indent(level + 1, wanted) + items.before;
    var value := Pretty(items.value, level + 1);
    if items.MoreItems? then
      MoreItems(before, value, items.after, items.comma, PrettyItems(items.rest, level, items.comma))
    else
      LastItem(before, value, items.after + Indent(level, !items.comma), items.comma)
  }

  function PrettyEntries(entries: Entries, level: nat, wanted: bool): Entries {
    var before := Indent(level + 1, wanted) + entries.before;
    var lead := [SPACE] + entries.lead;
    var value := Pretty(entries.value, level + 1);
    if entries.MoreEntries? then
      MoreEntries(before, entries.key, entries.gap, lead, value, entries.after, entries.comma,
                  PrettyEntries(entries.rest, level, entries.comma))
    else
      LastEntry(before, entries.key, entries.gap, lead, value, entries.after + Indent(level, !entries.comma),
                entries.comma)
  }

  // ----- The beautifier writes it -----

  lemma BlankIsPlain(blank: bytes)
    requires AllBlank(blank)
    ensures AllPlain(blank)
  {
  }

  /** Blanks pass, after the indentation that was owed. */
  lemma BlankRun(level: nat, wantIndent: bool, blank: bytes)
    requires AllBlank(blank)
    ensures Run(STYLE, Outside(level, wantIndent), blank)
            == Output(Outside(level, wantIndent && blank == []), Indent(level, wantIndent && blank != []) + blank)
  {
    hide Gap, Wanted, AllBlank, AllPlain;
    if blank != [] {
      hide Run;
      BlankIsPlain(blank);
      PlainRun(level, wantIndent, blank);
      if wantIndent {
        WantedIsGap(level);
      } else {
        NotWanted(level, blank);
      }
    }
  }

  /** A value after its blanks. */
  lemma ValueRun(level: nat, wantIndent: bool, blank: bytes, text: bytes, pretty: bytes)
    requires AllBlank(blank)
    requires Run(STYLE, Outside(level, wantIndent && blank == []), text)
             == Beautified(level, wantIndent && blank == [], pretty)
    ensures Run(STYLE, Outside(level, wantIndent), blank + text)
            == Output(Outside(level, false), (Indent(level, wantIndent) + blank) + pretty)
  {
    hide Run, Wanted, Gap, AllBlank;
    var w := wantIndent && blank == [];
    BlankRun(level, wantIndent, blank);
    RunThen(Outside(level, wantIndent), blank, text,
            Output(Outside(level, w), Indent(level, wantIndent && blank != []) + blank), Beautified(level, w, pretty));
    WantedIsGap(level);
    NotWanted(level, pretty);
    OwedOnce(Gap(Indented(level)), wantIndent, blank, pretty);
  }

  /** The indentation comes before the blanks, if there are any, or else before the text. */
  lemma OwedOnce(gap: bytes, wanted: bool, blank: bytes, text: bytes)
    ensures var owed := if wanted then gap else [];
            blank == [] ==> ([] + blank) + (owed + text) == (owed + blank) + text
    ensures [] + text == text && [] + blank == blank
  {
  }

  lemma SolidIsPlain(t: bytes)
    requires FastSkip.Solid(t)
    ensures AllPlain(t)
  {
  }

  /** From any level, the beautifier turns the text of a document into that of the indented document. */
  lemma {:induction false} DocRun(d: Doc, level: nat, wantIndent: bool)
    requires Loose(d)
    ensures Run(STYLE, Outside(level, wantIndent), Text(d)) == Beautified(level, wantIndent, Text(Pretty(d, level)))
    decreases d, 2
  {
    hide Run, Wanted, Closed, AllBlank, PrettyPad, PrettyItems, PrettyEntries, ItemsText, EntriesText, AllPlain;
    hide FastSkip.Solid;
    match d
    case DString(body) => QuotedRun(level, wantIndent, body);
    case DEmptyArray(pad) => EmptyRun(level, wantIndent, LBRACKET, pad, RBRACKET);
    case DEmptyObject(pad) => EmptyRun(level, wantIndent, LBRACE, pad, RBRACE);
    case DArray(items) =>
      ItemsRun(items, level, true);
      NestRun(level, wantIndent, LBRACKET, ItemsText(items), ItemsText(PrettyItems(items, level, true)), RBRACKET);
    case DObject(entries) =>
      EntriesRun(entries, level, true);
      NestRun(level, wantIndent, LBRACE, EntriesText(entries), EntriesText(PrettyEntries(entries, level, true)),
              RBRACE);
    case _ =>
      FastSkip.ScalarIsSolid(d);
      SolidIsPlain(Text(d));
      ReadingProof.FirstByte(d);
      PlainRun(level, wantIndent, Text(d));
  }

  lemma NestRun(level: nat, wantIndent: bool, open: byte, inside: bytes, pretty: bytes, close: byte)
    requires open == LBRACKET || open == LBRACE
    requires Run(STYLE, Outside(level + 1, true), inside + [close]) == Output(Outside(level, false), pretty + [close])
    ensures Run(STYLE, Outside(level, wantIndent), [open] + inside + [close])
            == Beautified(level, wantIndent, [open] + pretty + [close])
  {
    hide Run, Wanted;
    var lead := Wanted(STYLE, Outside(level, wantIndent));
    OpenRun(level, wantIndent, open);
    RunThen(Outside(level, wantIndent), [open], inside + [close],
            Output(Outside(level + 1, true), lead + [open]), Output(Outside(level, false), pretty + [close]));
    assert [open] + (inside + [close]) == [open] + inside + [close];
    assert (lead + [open]) + (pretty + [close]) == lead + ([open] + pretty + [close]);
  }

  lemma EmptyRun(level: nat, wantIndent: bool, open: byte, pad: bytes, close: byte)
    requires (open == LBRACKET && close == RBRACKET) || (open == LBRACE && close == RBRACE)
    requires AllBlank(pad)
    ensures Run(STYLE, Outside(level, wantIndent), [open] + pad + [close])
            == Beautified(level, wantIndent, [open] + PrettyPad(pad, level) + [close])
  {
    hide Run, Wanted, Gap, AllBlank;
    BlankRun(level + 1, true, pad);
    CloseRun(level, pad == [], close);
    var first := Output(Outside(level + 1, pad == []), Indent(level + 1, pad != []) + pad);
    var second := Output(Outside(level, false), Indent(level, pad != []) + [close]);
    NothingBefore([close]);
    RunThen(Outside(level + 1, true), pad, [close], first, second);
    PadParts(Gap(Indented(level + 1)), pad, Gap(Indented(level)), close);
    NestRun(level, wantIndent, open, pad, PrettyPad(pad, level), close);
  }

  lemma NothingBefore(s: bytes)
    ensures [] + s == s
  {
  }

  lemma PadParts(inner: bytes, pad: bytes, outer: bytes, close: byte)
    ensures (inner + pad) + (outer + [close]) == (inner + (pad + outer)) + [close]
    ensures pad == [] ==> ([] + pad) + ([] + [close]) == [] + [close]
  {
  }

  /** What follows the value of an element: its blanks, its comma and the rest. */
  lemma TailRun(level: nat, after: bytes, comma: bool, rest: bytes, pretty: Output)
    requires AllBlank(after) && Run(STYLE, Outside(level, comma), rest) == pretty
    ensures Run(STYLE, Outside(level, false), after + (CommaText(comma) + rest))
            == Output(pretty.state, after + (CommaText(comma) + pretty.text))
  {
    hide Run, Wanted, Gap, AllBlank, CommaText;
    BlankRun(level, false, after);
    NothingBefore(after);
    CommaRun(level, comma);
    RunThen(Outside(level, false), CommaText(comma), rest, Output(Outside(level, comma), CommaText(comma)), pretty);
    RunThen(Outside(level, false), after, CommaText(comma) + rest, Output(Outside(level, false), after),
            Output(pretty.state, CommaText(comma) + pretty.text));
  }

  /** The end of a container: its last indentation, unless a comma comes before it. */
  lemma EndRun(level: nat, comma: bool, close: byte)
    requires close == RBRACKET || close == RBRACE
    ensures Run(STYLE, Outside(level + 1, comma), [close])
            == Output(Outside(level, false), Indent(level, !comma) + [close])
  {
    hide Run, Gap;
    CloseRun(level, comma, close);
    NothingBefore([close]);
  }

  lemma {:induction false} ItemsRun(items: Items, level: nat, wanted: bool)
    requires LooseItems(items)
    ensures Run(STYLE, Outside(level + 1, wanted), ItemsText(items) + [RBRACKET])
            == Output(Outside(level, false), ItemsText(PrettyItems(items, level, wanted)) + [RBRACKET])
    decreases items, 3
  {
    hide Run, Wanted, Gap, Indent, AllBlank, CommaText, Text, ItemsText, Pretty, Loose, Beautified;
    var rest := (if items.MoreItems? then ItemsText(items.rest) else []) + [RBRACKET];
    ghost var out: Output;
    if items.MoreItems? {
      ItemsRun(items.rest, level, items.comma);
      out := Output(Outside(level, false), ItemsText(PrettyItems(items.rest, level, items.comma)) + [RBRACKET]);
    } else {
      EndRun(level, items.comma, RBRACKET);
      NothingBefore([RBRACKET]);
      out := Output(Outside(level, false), Indent(level, !items.comma) + [RBRACKET]);
    }
    var value := Text(Pretty(items.value, level + 1));
    var tail := Output(out.state, items.after + (CommaText(items.comma) + out.text));
    TailRun(level + 1, items.after, items.comma, rest, out);
    DocRun(items.value, level + 1, wanted && items.before == []);
    ValueRun(level + 1, wanted, items.before, Text(items.value), value);
    RunThen(Outside(level + 1, wanted), items.before + Text(items.value), items.after + (CommaText(items.comma) + rest),
            Output(Outside(level + 1, false), (Indent(level + 1, wanted) + items.before) + value), tail);
    JsonTexts.ItemsAssoc(items, rest);
    Regroup(items.before, Text(items.value), items.after + (CommaText(items.comma) + rest));
    ItemsLayout(items, level, wanted, out.text);
  }

  lemma Regroup(a: bytes, b: bytes, c: bytes)
    ensures (a + b) + c == a + (b + c)
  {
  }

  /** The parts of the indented items, put together. */
  lemma ItemsLayout(items: Items, level: nat, wanted: bool, rest: bytes)
    requires rest == if items.MoreItems? then ItemsText(PrettyItems(items.rest, level, items.comma)) + [RBRACKET]
                     else Indent(level, !items.comma) + [RBRACKET]
    ensures ItemsText(PrettyItems(items, level, wanted)) + [RBRACKET]
            == ((Indent(level + 1, wanted) + items.before) + Text(Pretty(items.value, level + 1)))
               + (items.after + (CommaText(items.comma) + rest))
  {
    hide Text, ItemsText, Pretty, Gap;
    var p := PrettyItems(items, level, wanted);
    var end := (if p.MoreItems? then ItemsText(p.rest) else []) + [RBRACKET];
    JsonTexts.ItemsAssoc(p, end);
    Regroup(p.before, Text(p.value), p.after + (CommaText(p.comma) + end));
    if !items.MoreItems? {
      LastTail(items.after, Gap(Indented(level)), items.comma, RBRACKET);
    }
  }

  /** The last indentation belongs to the blanks after the last value, unless there is a comma. */
  lemma LastTail(after: bytes, gap: bytes, comma: bool, close: byte)
    ensures var indent := if comma then [] else gap;
            (after + indent) + (CommaText(comma) + ([] + [close])) == after + (CommaText(comma) + (indent + [close]))
  {
  }

  /** A key with everything up to its value. */
  lemma KeyRun(entries: Entries, level: nat, wanted: bool)
    requires LooseEntries(entries)
    ensures Run(STYLE, Outside(level, wanted), entries.before + KeyText(entries.key, entries.gap, entries.lead))
            == Output(Outside(level, false), (Indent(level, wanted) + entries.before)
                                             + KeyText(entries.key, entries.gap, [SPACE] + entries.lead))
  {
    hide Run, Wanted, Gap, Indent, AllBlank, Closed, Quoted, Loose;
    var w := wanted && entries.before == [];
    QuotedRun(level, w, entries.key);
    GapRun(level, entries.gap, entries.lead);
    var lead := Wanted(STYLE, Outside(level, w));
    RunThen(Outside(level, w), Quoted(entries.key), entries.gap + ([COLON] + entries.lead),
            Output(Outside(level, false), lead + Quoted(entries.key)),
            Output(Outside(level, false), entries.gap + ([COLON] + ([SPACE] + entries.lead))));
    Regroup(lead, Quoted(entries.key), entries.gap + ([COLON] + ([SPACE] + entries.lead)));
    ValueRun(level, wanted, entries.before, KeyText(entries.key, entries.gap, entries.lead),
             KeyText(entries.key, entries.gap, [SPACE] + entries.lead));
  }

  function KeyText(key: bytes, gap: bytes, lead: bytes): bytes {
    Quoted(key) + (gap + ([COLON] + lead))
  }

  lemma GapRun(level: nat, gap: bytes, lead: bytes)
    requires AllBlank(gap) && AllBlank(lead)
    ensures Run(STYLE, Outside(level, false), gap + ([COLON] + lead))
            == Output(Outside(level, false), gap + ([COLON] + ([SPACE] + lead)))
  {
    hide Run, Gap, AllBlank;
    BlankRun(level, false, gap);
    BlankRun(level, false, lead);
    NothingBefore(gap);
    NothingBefore(lead);
    ColonRun(level);
    RunThen(Outside(level, false), [COLON], lead,
            Output(Outside(level, false), [COLON, SPACE]), Output(Outside(level, false), lead));
    assert [COLON, SPACE] + lead == [COLON] + ([SPACE] + lead);
    RunThen(Outside(level, false), gap, [COLON] + lead, Output(Outside(level, false), gap),
            Output(Outside(level, false), [COLON] + ([SPACE] + lead)));
  }

  lemma {:induction false} EntriesRun(entries: Entries, level: nat, wanted: bool)
    requires LooseEntries(entries)
    ensures Run(STYLE, Outside(level + 1, wanted), EntriesText(entries) + [RBRACE])
            == Output(Outside(level, false), EntriesText(PrettyEntries(entries, level, wanted)) + [RBRACE])
    decreases entries, 3
  {
    hide Run, Wanted, Gap, Indent, AllBlank, CommaText, Text, EntriesText, Pretty, Loose, Closed, KeyText;
    var rest := (if entries.MoreEntries? then EntriesText(entries.rest) else []) + [RBRACE];
    ghost var out: Output;
    if entries.MoreEntries? {
      EntriesRun(entries.rest, level, entries.comma);
      out := Output(Outside(level, false), EntriesText(PrettyEntries(entries.rest, level, entries.comma)) + [RBRACE]);
    } else {
      EndRun(level, entries.comma, RBRACE);
      NothingBefore([RBRACE]);
      out := Output(Outside(level, false), Indent(level, !entries.comma) + [RBRACE]);
    }
    var value := Text(Pretty(entries.value, level + 1));
    var more := entries.after + (CommaText(entries.comma) + rest);
    var tail := Output(out.state, entries.after + (CommaText(entries.comma) + out.text));
    TailRun(level + 1, entries.after, entries.comma, rest, out);
    DocRun(entries.value, level + 1, false);
    NotWanted(level + 1, value);
    RunThen(Outside(level + 1, false), Text(entries.value), more, Output(Outside(level + 1, false), value), tail);
    KeyRun(entries, level + 1, wanted);
    var key := entries.before + KeyText(entries.key, entries.gap, entries.lead);
    RunThen(Outside(level + 1, wanted), key, Text(entries.value) + more,
            Output(Outside(level + 1, false), (Indent(level + 1, wanted) + entries.before)
                                              + KeyText(entries.key, entries.gap, [SPACE] + entries.lead)),
            Output(out.state, value + tail.text));
    JsonTexts.EntriesAssoc(entries, rest);
    KeyParts(entries.before, entries.key, entries.gap, entries.lead, Text(entries.value) + more);
    EntriesLayout(entries, level, wanted, out.text);
  }

  lemma KeyParts(before: bytes, key: bytes, gap: bytes, lead: bytes, tail: bytes)
    ensures (before + KeyText(key, gap, lead)) + tail == before + (Quoted(key) + (gap + ([COLON] + (lead + tail))))
  {
    hide Quoted;
  }

  /** The parts of the indented entries, put together. */
  lemma EntriesLayout(entries: Entries, level: nat, wanted: bool, rest: bytes)
    requires rest == if entries.MoreEntries?
                     then EntriesText(PrettyEntries(entries.rest, level, entries.comma)) + [RBRACE]
                     else Indent(level, !entries.comma) + [RBRACE]
    ensures EntriesText(PrettyEntries(entries, level, wanted)) + [RBRACE]
            == ((Indent(level + 1, wanted) + entries.before)
                + KeyText(entries.key, entries.gap, [SPACE] + entries.lead))
               + (Text(Pretty(entries.value, level + 1)) + (entries.after + (CommaText(entries.comma) + rest)))
  {
    hide Text, EntriesText, Pretty, Gap, Quoted, KeyText;
    var p := PrettyEntries(entries, level, wanted);
    var end := (if p.MoreEntries? then EntriesText(p.rest) else []) + [RBRACE];
    JsonTexts.EntriesAssoc(p, end);
    KeyParts(p.before, p.key, p.gap, p.lead, Text(p.value) + (p.after + (CommaText(p.comma) + end)));
    if !entries.MoreEntries? {
      LastTail(entries.after, Gap(Indented(level)), entries.comma, RBRACE);
    }
  }

  // ----- It has the same meaning -----

  lemma IndentIsSpace(level: nat, wanted: bool)
    ensures AllSpace(Indent(level, wanted))
  {
    hide Gap;
    TreeRoundTrip.GapIsSpace(Indented(level));
  }

  lemma MoreSpace(a: bytes, b: bytes)
    requires AllSpace(a)
    ensures AllSpace(b) ==> AllSpace(a + b) && AllSpace(b + a)
    ensures AllBlank(b) ==> AllBlank(a + b) && AllBlank(b + a)
  {
  }

  lemma SpaceFirst(lead: bytes)
    ensures AllSpace(lead) ==> AllSpace([SPACE] + lead)
    ensures AllBlank(lead) ==> AllBlank([SPACE] + lead)
  {
  }

  lemma PadKept(pad: bytes, level: nat)
    ensures AllSpace(pad) ==> AllSpace(PrettyPad(pad, level))
    ensures AllBlank(pad) ==> AllBlank(PrettyPad(pad, level))
  {
    hide Gap, AllSpace, AllBlank;
    IndentIsSpace(level + 1, true);
    IndentIsSpace(level, true);
    MoreSpace(Gap(Indented(level)), pad);
    MoreSpace(Gap(Indented(level + 1)), pad + Gap(Indented(level)));
  }

  /** The indented document is of the same grammar, with the same literals and the same meaning. */
  lemma {:induction false} PrettyMeaning(d: Doc, level: nat)
    requires Loose(d)
    ensures var p := Pretty(d, level);
            Loose(p) && (Valid(d) ==> Valid(p)) && Bodies(p) == Bodies(d) && Meaning(p) == Meaning(d)
    decreases d, 1
  {
    hide PrettyPad, AllSpace, AllBlank, ValidBody, Closed, Text, BodyMeaning;
    match d
    case DEmptyArray(pad) => PadKept(pad, level);
    case DEmptyObject(pad) => PadKept(pad, level);
    case DArray(items) => PrettyItemsMean(items, level, true);
    case DObject(entries) => PrettyEntriesMean(entries, level, true, []);
    case _ =>
  }

  lemma {:induction false} PrettyItemsMean(items: Items, level: nat, wanted: bool)
    requires LooseItems(items)
    ensures var p := PrettyItems(items, level, wanted);
            && LooseItems(p) && (ValidItems(items) ==> ValidItems(p))
            && ItemsBodies(p) == ItemsBodies(items) && ItemsMeaning(p) == ItemsMeaning(items)
            && (!wanted && items.before == [] ==> p.before == [])
    decreases items, 2
  {
    hide Pretty, AllSpace, AllBlank, Valid, Loose, Bodies, Meaning, Indent;
    NothingWanted(level + 1);
    IndentIsSpace(level + 1, wanted);
    MoreSpace(Indent(level + 1, wanted), items.before);
    PrettyMeaning(items.value, level + 1);
    if items.MoreItems? {
      PrettyItemsMean(items.rest, level, items.comma);
    } else {
      IndentIsSpace(level, !items.comma);
      MoreSpace(Indent(level, !items.comma), items.after);
    }
  }

  lemma NothingWanted(level: nat)
    ensures Indent(level, false) + [] == []
  {
  }

  lemma {:induction false} PrettyEntriesMean(entries: Entries, level: nat, wanted: bool, done: seq<Pair>)
    requires LooseEntries(entries)
    ensures var p := PrettyEntries(entries, level, wanted);
            && LooseEntries(p) && (ValidEntries(entries) ==> ValidEntries(p))
            && EntriesBodies(p) == EntriesBodies(entries) && EntriesMeaning(p, done) == EntriesMeaning(entries, done)
            && (!wanted && entries.before == [] ==> p.before == [])
    decreases entries, 2
  {
    hide Pretty, AllSpace, AllBlank, Valid, Loose, Bodies, Meaning, Indent, Closed, ValidBody, PutAt, BodyMeaning;
    NothingWanted(level + 1);
    IndentIsSpace(level + 1, wanted);
    MoreSpace(Indent(level + 1, wanted), entries.before);
    SpaceFirst(entries.lead);
    PrettyMeaning(entries.value, level + 1);
    if entries.MoreEntries? {
      PrettyEntriesMean(entries.rest, level, entries.comma,
                        PutAt(done, BodyMeaning(entries.key), Meaning(entries.value)));
    } else {
      IndentIsSpace(level, !entries.comma);
      MoreSpace(Indent(level, !entries.comma), entries.after);
    }
  }

  // ----- Whole texts -----

  /** What a fresh beautifier writes for a text. */
  function BeautifiedJson(text: bytes): bytes {
    Run(STYLE, Outside(0, false), text).text
  }

  /** A JSON text comes out as the text of the indented document, between the same blanks. */
  lemma TextRun(before: bytes, d: Doc, after: bytes)
    requires AllSpace(before) && Valid(d) && AllSpace(after)
    ensures BeautifiedJson(before + Text(d) + after) == before + Text(Pretty(d, 0)) + after
  {
    hide Run, Wanted, AllSpace, AllBlank, Valid, Loose, Text, Pretty;
    var text := Text(Pretty(d, 0));
    JsonTexts.ValidIsLoose(d);
    JsonTexts.SpaceIsBlank(before);
    JsonTexts.SpaceIsBlank(after);
    BlankRun(0, false, before);
    BlankRun(0, false, after);
    NothingBefore(before);
    NothingBefore(after);
    DocRun(d, 0, false);
    NotWanted(0, text);
    RunThen(Outside(0, false), before, Text(d), Output(Outside(0, false), before), Output(Outside(0, false), text));
    RunThen(Outside(0, false), before + Text(d), after, Output(Outside(0, false), before + text),
            Output(Outside(0, false), after));
  }

  /** The beautifier turns JSON into JSON, and the deserializer reads the same tree out of it, or refuses both. */
  lemma BeautifierKeepsMeaning(text: bytes)
    requires JsonTexts.IsJson(text)
    ensures JsonTexts.IsJson(BeautifiedJson(text))
    ensures match DeserializerSpec.Value(text, 0)
            case Parsed(t, _) =>
              DeserializerSpec.Value(BeautifiedJson(text), 0).Parsed?
              && DeserializerSpec.Value(BeautifiedJson(text), 0).tree == t
            case Failed(_) => DeserializerSpec.Value(BeautifiedJson(text), 0).Failed?
  {
    hide DeserializerSpec.Value, AllSpace, Valid, Loose, Text, Pretty, Meaning, Run, BeautifiedJson;
    var before, d, after :| JsonTexts.IsJsonAs(text, before, d, after);
    JsonTexts.ValidIsLoose(d);
    TextRun(before, d, after);
    PrettyMeaning(d, 0);
    JsonTexts.JsonAs(BeautifiedJson(text), before, Pretty(d, 0), after);
    JsonTexts.ReadDocument(before, d, after);
    JsonTexts.ReadDocument(before, Pretty(d, 0), after);
  }

  // ----- Printed trees -----

  /** The indented document of a tree is what the beautifier makes of its compact one. */
  lemma {:induction false} PrettyOfCompact(t: Tree, config: Config, level: nat)
    ensures Pretty(DocOf(t, config, Compact), level) == DocOf(t, config, Indented(level))
    decreases t
  {
    hide ItemsOf, EntriesOf, PrettyItems, PrettyEntries, Body;
    match t
    case Vector(items) =>
      if items != [] {
        ItemsOfCompact(items, 0, config, level);
      }
    case Map(entries) =>
      if entries != [] {
        EntriesOfCompact(entries, 0, config, level);
      }
    case _ =>
  }

  lemma {:induction false} ItemsOfCompact(items: seq<Tree>, index: nat, config: Config, level: nat)
    requires index < |items|
    ensures PrettyItems(ItemsOf(items, index, config, Compact), level, true)
            == ItemsOf(items, index, config, Indented(level))
    decreases items, |items| - index
  {
    hide DocOf, Pretty;
    PrettyOfCompact(items[index], config, level + 1);
    if index + 1 < |items| {
      ItemsOfCompact(items, index + 1, config, level);
    }
  }

  lemma {:induction false} EntriesOfCompact(entries: seq<Pair>, index: nat, config: Config, level: nat)
    requires index < |entries|
    ensures PrettyEntries(EntriesOf(entries, index, config, Compact), level, true)
            == EntriesOf(entries, index, config, Indented(level))
    decreases entries, |entries| - index
  {
    hide DocOf, Pretty, Body;
    PrettyOfCompact(entries[index].value, config, level + 1);
    if index + 1 < |entries| {
      EntriesOfCompact(entries, index + 1, config, level);
    }
  }

  lemma PrettyRun(t: Tree, config: Config, level: nat, wantIndent: bool)
    requires Printable(t) && config.includeNullElements
    ensures Run(STYLE, Outside(level, wantIndent), Print(t, config))
            == Beautified(level, wantIndent, Text(DocOf(t, config, Indented(level))))
  {
    hide Run, Wanted, Print, Text, DocOf, Pretty, Printable, Valid, Loose;
    TreeRoundTrip.CompactText(t, config);
    TreeRoundTrip.DocMeaning(t, config, Compact);
    JsonTexts.ValidIsLoose(DocOf(t, config, Compact));
    DocRun(DocOf(t, config, Compact), level, wantIndent);
    PrettyOfCompact(t, config, level);
  }

  lemma PrettyString(text: bytes, config: Config, level: nat, wantIndent: bool)
    requires WellFormed(text, 0)
    ensures Run(STYLE, Outside(level, wantIndent), StringText(text, config))
            == Beautified(level, wantIndent, Quoted(Body(text, config)))
  {
    hide Run, Wanted, Quoted, Escape.EscapeResult, BodyMeaning;
    BodyOfText(text, config);
    JsonTexts.LegalClosed(Body(text, config));
    QuotedRun(level, wantIndent, Body(text, config));
  }

  // ----- The round trip -----

  /** The text that reaches the stream is a valid document that denotes the tree. */
  lemma StreamTextIsDocument(t: Tree, config: Config)
    requires Printable(t) && config.includeNullElements
    ensures StreamText(t, config) == Text(DocOf(t, config, if config.useBeautifier then Indented(0) else Compact))
  {
    hide Run, Text, DocOf, Print;
    if config.useBeautifier {
      PrettyRun(t, config, 0, false);
      NotWanted(0, Text(DocOf(t, config, Indented(0))));
    } else {
      TreeRoundTrip.CompactText(t, config);
    }
  }
}

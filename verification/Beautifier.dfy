/** src/oatpp/json/Beautifier.cpp: a stream that re-indents the JSON text written to it, chunk by chunk. */
module JsonBeautifier {
  import opened Bytes
  import opened Stream

  datatype State = State(level: int, wantIndent: bool, isCharEscaped: bool, isInString: bool)

  /** The two constructor arguments that shape the output. */
  datatype Style = Style(indent: bytes, newLine: bytes)

  datatype Output = Output(state: State, text: bytes)

  function Repeated(text: bytes, times: int): bytes
    decreases times
  {
    if times <= 0 then [] else text + Repeated(text, times - 1)
  }

  /** A positive number of copies, each in its place; none for a level that is not positive. */
  lemma {:induction false} IndentCopies(text: bytes, times: int, k: nat)
    ensures times <= 0 ==> Repeated(text, times) == []
    ensures times >= 0 ==> |Repeated(text, times)| == times * |text|
    ensures k < times ==> 0 <= k * |text| <= (k + 1) * |text| <= times * |text|
                          && Repeated(text, times)[k * |text|..(k + 1) * |text|] == text
    decreases times
  {
    if times > 0 {
      IndentCopies(text, times - 1, if k == 0 then 0 else k - 1);
      var n, rest := |text|, Repeated(text, times - 1);
      assert times * n == n + (times - 1) * n;
      if 0 < k < times {
        assert k * n == n + (k - 1) * n && (k + 1) * n == n + k * n;
        assert Repeated(text, times)[k * n..(k + 1) * n] == rest[(k - 1) * n..k * n];
      } else if k == 0 {
        assert 0 * n == 0 && 1 * n == n && (times - 1) * n >= 0;
      }
    }
  }

  function IndentText(style: Style, level: int): bytes {
    style.newLine + Repeated(style.indent, level)
  }

  function Wanted(style: Style, st: State): bytes {
    if st.wantIndent then IndentText(style, st.level) else []
  }

  /** One byte of input. */
  function Feed(style: Style, st: State, c: byte): Output {
    if st.isCharEscaped then Output(st.(isCharEscaped := false), [c])
    else if st.isInString then
      if c == BACKSLASH then Output(st.(isCharEscaped := true), [c])
      else if c == QUOTE then Output(st.(isInString := false), [c])
      else Output(st, [c])
    else if c == LBRACE || c == LBRACKET then
      Output(st.(level := st.level + 1, wantIndent := true), Wanted(style, st) + [c])
    else if c == RBRACE || c == RBRACKET then
      Output(st.(level := st.level - 1, wantIndent := false),
             (if st.wantIndent then [] else IndentText(style, st.level - 1)) + [c])
    else if c == COMMA then Output(st.(wantIndent := true), [c])
    else if c == QUOTE then Output(st.(wantIndent := false, isInString := true), Wanted(style, st) + [c])
    else if c == COLON then Output(st, [COLON, SPACE])
    else Output(st.(wantIndent := false), Wanted(style, st) + [c])
  }

  function Then(first: Output, second: Output): Output {
    Output(second.state, first.text + second.text)
  }

  /** What a run over s leaves behind and writes. */
  function Run(style: Style, st: State, s: bytes): Output
    decreases |s|
  {
    if s == [] then Output(st, []) else
      var first := Feed(style, st, s[0]);
      Then(first, Run(style, first.state, s[1..]))
  }

  class Beautifier {
    const outputStream: OutputStream
    const style: Style
    var level: int
    var wantIndent: bool
    var isCharEscaped: bool
    var isInString: bool

    function Current(): State
      reads this
    {
      State(level, wantIndent, isCharEscaped, isInString)
    }

    constructor (outputStream: OutputStream, indent: bytes, newLine: bytes)
      ensures this.outputStream == outputStream && style == Style(indent, newLine)
      ensures Current() == State(0, false, false, false)
    {
      this.outputStream := outputStream;
      style := Style(indent, newLine);
      level, wantIndent, isCharEscaped, isInString := 0, false, false, false;
    }

    method WriteIndent(buffer: OutputStream)
      requires buffer as object != this
      modifies buffer
      ensures buffer.data == old(buffer.data) + IndentText(style, level)
    {
      buffer.WriteSimple(style.newLine);
      ghost var start := buffer.data;
      var i := 0;
      while i < level
        invariant 0 <= i
        invariant buffer.data + Repeated(style.indent, level - i) == start + Repeated(style.indent, level)
        invariant level < 0 || i <= level
      {
        ghost var before := buffer.data;
        buffer.WriteSimple(style.indent);
        assert before + (style.indent + Repeated(style.indent, level - i - 1))
               == buffer.data + Repeated(style.indent, level - i - 1);
        i := i + 1;
      }
      assert buffer.data == start + Repeated(style.indent, level);
    }

    /** The loop body of `write`. */
    method FeedByte(c: byte, buffer: OutputStream)
      requires buffer as object != this
      modifies this, buffer
      ensures Current() == Feed(style, old(Current()), c).state
      ensures buffer.data == old(buffer.data) + Feed(style, old(Current()), c).text
    {
      if isCharEscaped {
        isCharEscaped := false;
        buffer.WriteSimple([c]);
        return;
      }
      if isInString {
        if c == BACKSLASH {
          isCharEscaped := true;
        } else if c == QUOTE {
          isInString := false;
        }
        buffer.WriteSimple([c]);
        return;
      }
      if c == LBRACE || c == LBRACKET {
        if wantIndent {
          WriteIndent(buffer);
        }
        level := level + 1;
        wantIndent := true;
        buffer.WriteSimple([c]);
      } else if c == RBRACE || c == RBRACKET {
        level := level - 1;
        if !wantIndent {
          WriteIndent(buffer);
        }
        buffer.WriteSimple([c]);
        wantIndent := false;
      } else if c == COMMA {
        wantIndent := true;
        buffer.WriteSimple([COMMA]);
      } else if c == QUOTE {
        if wantIndent {
          WriteIndent(buffer);
        }
        buffer.WriteSimple([QUOTE]);
        wantIndent := false;
        isInString := true;
      } else if c == COLON {
        buffer.WriteSimple([COLON, SPACE]);
      } else {
        if wantIndent {
          WriteIndent(buffer);
          wantIndent := false;
        }
        buffer.WriteSimple([c]);
      }
    }

    method Write(data: bytes)
      requires outputStream as object != this
      modifies this, outputStream
      ensures Current() == Run(style, old(Current()), data).state
      ensures outputStream.data == old(outputStream.data) + Run(style, old(Current()), data).text
    {
      hide Feed;
      var buffer := new OutputStream();
      for i := 0 to |data|
        invariant fresh(buffer)
        invariant Then(Output(Current(), buffer.data), Run(style, Current(), data[i..]))
                  == Run(style, old(Current()), data)
        invariant outputStream.data == old(outputStream.data)
      {
        ghost var before := buffer.data;
        ghost var first := Feed(style, Current(), data[i]);
        ghost var rest := Run(style, first.state, data[i + 1..]);
        assert data[i..][1..] == data[i + 1..];
        assert before + (first.text + rest.text) == (before + first.text) + rest.text;
        FeedByte(data[i], buffer);
      }
      outputStream.WriteSimple(buffer.data);
    }
  }

  /** Splitting the input over two writes gives the same text and the same state. */
  lemma {:induction false} RunConcat(style: Style, st: State, a: bytes, b: bytes)
    ensures Run(style, st, a + b) == Then(Run(style, st, a), Run(style, Run(style, st, a).state, b))
    decreases |a|
  {
    hide Feed;
    if a == [] {
      assert a + b == b;
    } else {
      var first := Feed(style, st, a[0]);
      RunConcat(style, first.state, a[1..], b);
      assert (a + b)[1..] == a[1..] + b;
      var r := Run(style, first.state, a[1..]);
      assert (first.text + r.text) + Run(style, r.state, b).text == first.text + (r.text + Run(style, r.state, b).text);
    }
  }

  function Concat(chunks: seq<bytes>): bytes {
    if chunks == [] then [] else chunks[0] + Concat(chunks[1..])
  }

  /** What a sequence of `write` calls does. */
  function RunChunks(style: Style, st: State, chunks: seq<bytes>): Output
    decreases |chunks|
  {
    if chunks == [] then Output(st, []) else
      var first := Run(style, st, chunks[0]);
      Then(first, RunChunks(style, first.state, chunks[1..]))
  }

  /** However the input is split over `write` calls, the output is that of one call with all of it. */
  lemma {:induction false} SplitIndependent(style: Style, st: State, chunks: seq<bytes>)
    ensures RunChunks(style, st, chunks) == Run(style, st, Concat(chunks))
    decreases |chunks|
  {
    if chunks != [] {
      RunConcat(style, st, chunks[0], Concat(chunks[1..]));
      SplitIndependent(style, Run(style, st, chunks[0]).state, chunks[1..]);
    }
  }

  /** Where a reader of the text is: outside strings, inside one, or right after a backslash in one. */
  datatype Track = Track(isCharEscaped: bool, isInString: bool)

  function TrackOf(st: State): Track {
    Track(st.isCharEscaped, st.isInString)
  }

  function Advance(t: Track, c: byte): Track {
    if t.isCharEscaped then Track(false, t.isInString)
    else if t.isInString then Track(c == BACKSLASH, c != QUOTE)
    else Track(false, c == QUOTE)
  }

  function AdvanceAll(t: Track, s: bytes): Track
    decreases |s|
  {
    if s == [] then t else AdvanceAll(Advance(t, s[0]), s[1..])
  }

  predicate Drops(t: Track, c: byte) {
    !t.isCharEscaped && !t.isInString && IsBlank(c)
  }

  /** s without the blank bytes outside string literals. */
  function Strip(t: Track, s: bytes): bytes
    decreases |s|
  {
    if s == [] then [] else (if Drops(t, s[0]) then [] else [s[0]]) + Strip(Advance(t, s[0]), s[1..])
  }

  lemma {:induction false} StripConcat(t: Track, a: bytes, b: bytes)
    ensures Strip(t, a + b) == Strip(t, a) + Strip(AdvanceAll(t, a), b)
    ensures AdvanceAll(t, a + b) == AdvanceAll(AdvanceAll(t, a), b)
    decreases |a|
  {
    hide Drops, Advance;
    if a == [] {
      assert a + b == b;
    } else {
      assert (a + b)[1..] == a[1..] + b;
      StripConcat(Advance(t, a[0]), a[1..], b);
    }
  }

  /** Blank text outside a string disappears and leaves the reader outside. */
  lemma {:induction false} StripBlank(t: Track, blank: bytes)
    requires !t.isCharEscaped && !t.isInString && AllBlank(blank)
    ensures Strip(t, blank) == [] && AdvanceAll(t, blank) == t
    decreases |blank|
  {
    if blank != [] {
      StripBlank(t, blank[1..]);
    }
  }

  lemma {:induction false} RepeatedBlank(text: bytes, times: int)
    requires AllBlank(text)
    ensures AllBlank(Repeated(text, times))
    decreases times
  {
    if times > 0 {
      RepeatedBlank(text, times - 1);
    }
  }

  predicate BlankStyle(style: Style) {
    AllBlank(style.indent) && AllBlank(style.newLine)
  }

  lemma IndentIsBlank(style: Style, level: int)
    requires BlankStyle(style)
    ensures AllBlank(IndentText(style, level))
  {
    RepeatedBlank(style.indent, level);
  }

  /** One byte: apart from blanks outside strings, the output is the input. */
  lemma StripFeed(style: Style, st: State, c: byte)
    requires BlankStyle(style) && (st.isCharEscaped ==> st.isInString)
    ensures var r := Feed(style, st, c); var t := TrackOf(st);
            && (r.state.isCharEscaped ==> r.state.isInString)
            && Strip(t, r.text) == Strip(t, [c])
            && AdvanceAll(t, r.text) == TrackOf(r.state) == Advance(t, c)
  {
    var r := Feed(style, st, c);
    var t := TrackOf(st);
    IndentIsBlank(style, st.level);
    IndentIsBlank(style, st.level - 1);
    if c == COLON && !st.isInString {
      StripConcat(t, [COLON], [SPACE]);
      StripBlank(t, [SPACE]);
      assert r.text == [COLON] + [SPACE];
    } else if !st.isInString {
      var lead := r.text[..|r.text| - 1];
      assert r.text == lead + [c];
      assert lead == [] || lead == IndentText(style, st.level) || lead == IndentText(style, st.level - 1);
      StripBlank(t, lead);
      StripConcat(t, lead, [c]);
    }
  }

  /** With a blank indent and newline, the beautifier changes nothing but the blanks outside strings; in particular
      the contents of string literals stay as they are. */
  lemma {:induction false} StripRun(style: Style, st: State, s: bytes)
    requires BlankStyle(style) && (st.isCharEscaped ==> st.isInString)
    ensures Strip(TrackOf(st), Run(style, st, s).text) == Strip(TrackOf(st), s)
    ensures AdvanceAll(TrackOf(st), Run(style, st, s).text) == TrackOf(Run(style, st, s).state)
            == AdvanceAll(TrackOf(st), s)
    decreases |s|
  {
    hide Feed;
    if s != [] {
      var t := TrackOf(st);
      var first := Feed(style, st, s[0]);
      var rest := Run(style, first.state, s[1..]);
      StripFeed(style, st, s[0]);
      StripRun(style, first.state, s[1..]);
      StripConcat(t, first.text, rest.text);
      StripConcat(t, [s[0]], s[1..]);
      assert s == [s[0]] + s[1..];
    }
  }
}

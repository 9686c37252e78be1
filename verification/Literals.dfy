/** Finding the end of a string literal: forward by skipping escaped characters (`Utils::preparseString`) or by looking
    back at every quote and counting backslashes (`findStringRange` of FastDeserializer.cpp). */
module Literals {
  import opened Bytes

  datatype Position = At(index: nat) | Nowhere

  /** Where the forward scan that starts at i stops: the loop of `preparseString`. */
  function ClosingQuote(s: bytes, i: nat): (p: Position)
    ensures p.At? ==> i <= p.index < |s| && s[p.index] == QUOTE
    decreases |s| - i
  {
    if i >= |s| then Nowhere
    else if s[i] == QUOTE then At(i)
    else if s[i] == BACKSLASH then ClosingQuote(s, i + 2)
    else ClosingQuote(s, i + 1)
  }

  method PreparseString(data: bytes, pos0: nat) returns (p: Position)
    ensures p == ClosingQuote(data, pos0)
  {
    var pos := pos0;
    while pos < |data|
      invariant ClosingQuote(data, pos) == ClosingQuote(data, pos0)
      decreases |data| - pos
    {
      var a := data[pos];
      if a == QUOTE {
        return At(pos);
      } else if a == BACKSLASH {
        pos := pos + 2;
      } else {
        pos := pos + 1;
      }
    }
    p := Nowhere;
  }

  /** The length of the run of backslashes that ends just before i and does not reach back past start. */
  function BackslashRun(s: bytes, start: nat, i: nat): (n: nat)
    requires start <= i <= |s|
    ensures n <= i - start
  {
    if i > start && s[i - 1] == BACKSLASH then 1 + BackslashRun(s, start, i - 1) else 0
  }

  /** s[i] is a quote after an even number of backslashes. */
  predicate IsBareQuote(s: bytes, start: nat, i: nat)
    requires start <= i < |s|
  {
    s[i] == QUOTE && BackslashRun(s, start, i) % 2 == 0
  }

  method CountBackslashes(data: bytes, start: nat, i: nat) returns (bs: nat)
    requires start <= i <= |data|
    ensures bs == BackslashRun(data, start, i)
  {
    bs := 0;
    var j := i;
    while j > start && data[j - 1] == BACKSLASH
      invariant start <= j <= i
      invariant bs + BackslashRun(data, start, j) == BackslashRun(data, start, i)
    {
      bs := bs + 1;
      j := j - 1;
    }
  }

  /** The forward scan finds the first quote after an even number of backslashes. */
  lemma {:induction false} ForwardMeetsParity(s: bytes, start: nat, i: nat)
    requires start <= i
    requires i <= |s| ==> BackslashRun(s, start, i) % 2 == 0
    requires i == |s| + 1 ==> |s| > start && s[|s| - 1] == BACKSLASH
    requires i <= |s| + 1
    ensures match ClosingQuote(s, i)
            case At(p) => IsBareQuote(s, start, p) && forall k :: i <= k < p ==> !IsBareQuote(s, start, k)
            case Nowhere => forall k :: i <= k < |s| ==> !IsBareQuote(s, start, k)
    decreases |s| + 1 - i
  {
    if i < |s| && s[i] != QUOTE {
      if s[i] == BACKSLASH {
        if i + 1 < |s| {
          assert BackslashRun(s, start, i + 1) == 1 + BackslashRun(s, start, i);
        }
        ForwardMeetsParity(s, start, i + 2);
      } else {
        ForwardMeetsParity(s, start, i + 1);
      }
    }
  }

  /** `findStringRange`: pos is at an opening quote; the content range is [pos + 1, end). */
  method FindStringRange(data: bytes, pos: nat) returns (end: Position)
    ensures end == ClosingQuote(data, pos + 1)
  {
    var contentStart := pos + 1;
    var i := contentStart;
    if contentStart <= |data| {
      ForwardMeetsParity(data, contentStart, contentStart);
    }
    while i < |data|
      invariant contentStart <= i
      invariant forall k :: contentStart <= k < i && k < |data| ==> !IsBareQuote(data, contentStart, k)
    {
      if data[i] == QUOTE {
        var bs := CountBackslashes(data, contentStart, i);
        if bs % 2 == 0 {
          assert IsBareQuote(data, contentStart, i);
          return At(i);
        }
      }
      i := i + 1;
    }
    end := Nowhere;
  }

  /** s[from..to] is the inside of a literal: no bare quote, and every backslash takes the next byte with it. */
  predicate IsBody(s: bytes, from: nat, to: nat)
    requires from <= to <= |s|
    decreases |s| - from
  {
    if from == to then true
    else if s[from] == QUOTE then false
    else if s[from] == BACKSLASH then from + 2 <= to && IsBody(s, from + 2, to)
    else IsBody(s, from + 1, to)
  }

  /** The closing quote of a literal is the quote right after its body, whatever follows. */
  lemma {:induction false} BodyThenQuote(s: bytes, from: nat, to: nat)
    requires from <= to < |s| && IsBody(s, from, to) && s[to] == QUOTE
    ensures ClosingQuote(s, from) == At(to)
    decreases |s| - from
  {
    if from < to {
      BodyThenQuote(s, if s[from] == BACKSLASH then from + 2 else from + 1, to);
    }
  }

  /** And only bodies come before it. */
  lemma {:induction false} ClosingQuoteEndsBody(s: bytes, from: nat)
    requires ClosingQuote(s, from).At?
    ensures IsBody(s, from, ClosingQuote(s, from).index)
    decreases |s| - from
  {
    if s[from] != QUOTE {
      ClosingQuoteEndsBody(s, if s[from] == BACKSLASH then from + 2 else from + 1);
    }
  }
}

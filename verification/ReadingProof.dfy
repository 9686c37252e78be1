/** `DocAt` finds exactly the documents that stand in a text. */
module ReadingProof {
  import opened Bytes
  import opened Literals
  import opened JsonDocument
  import opened DeserializerSpec
  import opened Reading
  import FastStrings

  // ----- Slices of a text -----

  lemma SliceStands(data: bytes, i: nat, j: nat)
    requires i <= j <= |data|
    ensures IsAtText(data, i, data[i..j]) && i + |data[i..j]| == j
  {
  }

  lemma ByteStands(data: bytes, i: nat, c: byte)
    requires i < |data| && data[i] == c
    ensures IsAtText(data, i, [c])
  {
  }

  lemma {:induction false} SkippedAreBlank(data: bytes, i: nat)
    requires i <= |data|
    ensures var p := SkipBlanks(data, i); AllBlank(data[i..p]) && (p < |data| ==> !IsBlank(data[p]))
    decreases |data| - i
  {
    if i < |data| && IsBlank(data[i]) {
      SkippedAreBlank(data, i + 1);
    }
  }

  lemma {:induction false} SkipOver(data: bytes, i: nat, blank: bytes)
    requires IsAtText(data, i, blank) && AllBlank(blank)
    requires i + |blank| < |data| ==> !IsBlank(data[i + |blank|])
    ensures SkipBlanks(data, i) == i + |blank|
    decreases |blank|
  {
    if blank != [] {
      ByteOfText(data, i, blank, 0);
      assert blank == [blank[0]] + blank[1..];
      SplitText(data, i, [blank[0]], blank[1..]);
      SkipOver(data, i + 1, blank[1..]);
    }
  }

  lemma StopsHere(data: bytes, i: nat)
    requires i < |data| && !IsBlank(data[i])
    ensures SkipBlanks(data, i) == i
  {
  }

  lemma {:induction false} DigitsAre(data: bytes, i: nat)
    requires i <= |data|
    ensures AllDigits(data[i..DigitsEnd(data, i)]) && !DigitAt(data, DigitsEnd(data, i))
    ensures HasSeparator(data, i) == HasSeparator(data, DigitsEnd(data, i))
    decreases |data| - i
  {
    if DigitAt(data, i) {
      DigitsAre(data, i + 1);
    }
  }

  lemma {:induction false} DigitsOver(data: bytes, i: nat, digits: bytes)
    requires IsAtText(data, i, digits) && AllDigits(digits) && !DigitAt(data, i + |digits|)
    ensures DigitsEnd(data, i) == i + |digits|
    decreases |digits|
  {
    if digits != [] {
      ByteOfText(data, i, digits, 0);
      assert digits == [digits[0]] + digits[1..];
      SplitText(data, i, [digits[0]], digits[1..]);
      DigitsOver(data, i + 1, digits[1..]);
    }
  }

  // ----- Numbers -----

  lemma SignPart(data: bytes, i: nat)
    requires i < |data|
    ensures IsAtText(data, i, Sign(data[i] == MINUS)) && AfterSign(data, i) == i + |Sign(data[i] == MINUS)|
    ensures HasSeparator(data, i) == HasSeparator(data, AfterSign(data, i))
  {
    assert data[i] == MINUS ==> data[i..i + 1] == [MINUS];
  }

  lemma FractionPart(data: bytes, i: nat)
    requires i <= |data|
    ensures var f := FractionAt(data, i);
            && IsAtText(data, i, FractionText(f)) && LooseFraction(f)
            && (f.Fraction? ==> !DigitAt(data, FractionEnd(data, i))) && (f.NoFraction? ==> !PointAt(data, i))
  {
    hide DigitsEnd, DigitAt;
    if PointAt(data, i) {
      DigitsAre(data, i + 1);
      ByteStands(data, i, POINT);
      SliceStands(data, i + 1, DigitsEnd(data, i + 1));
      JoinText(data, i, [POINT], data[i + 1..DigitsEnd(data, i + 1)]);
    }
  }

  lemma ExponentPart(data: bytes, i: nat)
    requires i <= |data|
    ensures var e := ExponentOf(data, i);
            && IsAtText(data, i, ExponentText(e)) && ValidExponent(e)
            && (e.Exponent? ==> !DigitAt(data, ExponentEnd(data, i))) && (e.NoExponent? ==> !ExponentAt(data, i))
  {
    hide DigitsEnd, IsAtText, AllDigits;
    if ExponentAt(data, i) {
      var j := if SignAt(data, i + 1) then i + 2 else i + 1;
      DigitsAre(data, j);
      SomeDigits(data, j);
      ExponentParts(data, i, j, DigitsEnd(data, j));
    } else {
      NothingStands(data, i);
    }
  }

  lemma SomeDigits(data: bytes, j: nat)
    requires DigitAt(data, j)
    ensures DigitsEnd(data, j) > j
  {
  }

  lemma NothingStands(data: bytes, i: nat)
    requires i <= |data|
    ensures IsAtText(data, i, [])
  {
  }

  lemma ExponentParts(data: bytes, i: nat, j: nat, end: nat)
    requires i < j <= end <= |data|
    ensures IsAtText(data, i, [data[i]] + data[i + 1..j] + data[j..end])
  {
    assert data[i..end] == [data[i]] + data[i + 1..j] + data[j..end];
  }

  lemma NumberSound(data: bytes, i: nat)
    requires i < |data| && StartsNumber(data[i]) && NumberAt(data, i).Found?
    ensures var d := NumberAt(data, i).doc; var e := NumberAt(data, i).end;
            IsNumber(d) && Loose(d) && IsAtText(data, i, Text(d)) && e == i + |Text(d)| && NumberEnds(d, data, e)
  {
    hide DigitsEnd, HasSeparator, AllDigits, IsAtText, FractionEnd, ExponentEnd, FractionAt, ExponentOf, ExponentAt,
         DigitAt, Sign;
    hide LooseFraction, ValidExponent, FloatEnd, AfterSign, StartsNumber;
    var start := AfterSign(data, i);
    var whole := DigitsEnd(data, start);
    SignPart(data, i);
    DigitsAre(data, start);
    SliceStands(data, start, whole);
    JoinText(data, i, Sign(data[i] == MINUS), data[start..whole]);
    FirstDigit(data, i);
    if HasSeparator(data, i) {
      FloatEnds(data, i, whole);
      FractionPart(data, whole);
      ExponentPart(data, FractionEnd(data, whole));
      FloatSound(data, i, whole, NumberAt(data, i).doc);
    }
  }

  lemma FloatSound(data: bytes, i: nat, w: nat, d: Doc)
    requires d.DFloat? && w <= |data| && IsAtText(data, i, Sign(d.negative) + d.digits)
             && w == i + |Sign(d.negative) + d.digits|
    requires d.fraction == FractionAt(data, w) && IsAtText(data, w, FractionText(d.fraction))
    requires var f := FractionEnd(data, w);
             d.exponent == ExponentOf(data, f) && IsAtText(data, f, ExponentText(d.exponent))
    ensures IsAtText(data, i, Text(d)) && ExponentEnd(data, FractionEnd(data, w)) == i + |Text(d)|
  {
    hide IsAtText, FractionEnd, ExponentEnd, FractionAt, ExponentOf, FractionText, ExponentText, Sign;
    JoinText(data, i, Sign(d.negative) + d.digits, FractionText(d.fraction));
    JoinText(data, i, Sign(d.negative) + d.digits + FractionText(d.fraction), ExponentText(d.exponent));
  }

  lemma FirstDigit(data: bytes, i: nat)
    requires i < |data| && StartsNumber(data[i])
    ensures DigitsEnd(data, AfterSign(data, i)) > AfterSign(data, i) || data[i] == MINUS
  {
  }

  lemma FloatEnds(data: bytes, i: nat, whole: nat)
    requires i < |data| && whole == DigitsEnd(data, AfterSign(data, i)) && FloatEnd(data, i) != i
    ensures FloatEnd(data, i) == ExponentEnd(data, FractionEnd(data, whole))
    ensures whole > AfterSign(data, i) || (FractionAt(data, whole).Fraction? && FractionAt(data, whole).digits != [])
  {
    hide DigitsEnd, ExponentEnd;
  }

  lemma FractionOnly(data: bytes, i: nat, f: Fraction)
    requires LooseFraction(f) && IsAtText(data, i, FractionText(f)) && !DigitAt(data, i + |FractionText(f)|)
    requires f.NoFraction? ==> !PointAt(data, i)
    ensures FractionAt(data, i) == f
  {
    hide DigitsEnd, DigitAt, AllDigits;
    if f.Fraction? {
      SplitText(data, i, [POINT], f.digits);
      ByteOfText(data, i, [POINT], 0);
      DigitsOver(data, i + 1, f.digits);
      TextIsSlice(data, i + 1, f.digits);
    }
  }

  lemma ExponentOnly(data: bytes, i: nat, e: Exponent)
    requires ValidExponent(e) && IsAtText(data, i, ExponentText(e))
    requires e.Exponent? ==> !DigitAt(data, i + |ExponentText(e)|)
    requires e.NoExponent? ==> !ExponentAt(data, i)
    ensures i <= |data| && ExponentOf(data, i) == e
  {
    hide DigitsEnd, AllDigits, ExponentAt, SignAt, DigitAt, ExponentOf, ExponentText, IsAtText, ValidExponent;
    if e.Exponent? {
      ExponentTextIs(e);
      ExponentPieces(data, i, e);
      var j := i + 1 + |e.sign|;
      DigitsOver(data, j, e.digits);
      ExponentStands(data, i, e);
      ExponentIs(data, i, e, j);
    } else {
      TextIsSlice(data, i, ExponentText(e));
      NoExponentIs(data, i);
    }
  }

  lemma ExponentPieces(data: bytes, i: nat, e: Exponent)
    requires e.Exponent? && ValidExponent(e) && IsAtText(data, i, [e.letter] + (e.sign + e.digits))
    ensures var j := i + 1 + |e.sign|;
            && IsAtText(data, i, [e.letter]) && IsAtText(data, i + 1, e.sign) && IsAtText(data, j, e.digits)
            && j + |e.digits| <= |data| && data[i + 1..j] == e.sign && data[j..j + |e.digits|] == e.digits
              && AllDigits(e.digits)
  {
    hide IsAtText, AllDigits;
    var j := i + 1 + |e.sign|;
    SplitText(data, i, [e.letter], e.sign + e.digits);
    SplitText(data, i + 1, e.sign, e.digits);
    TextIsSlice(data, j, e.digits);
    TextIsSlice(data, i + 1, e.sign);
  }

  lemma ExponentTextIs(e: Exponent)
    requires e.Exponent?
    ensures ExponentText(e) == [e.letter] + (e.sign + e.digits) && |ExponentText(e)| == 1 + |e.sign| + |e.digits|
  {
  }

  lemma ExponentIs(data: bytes, i: nat, e: Exponent, j: nat)
    requires i < j <= |data| && e.Exponent? && ExponentAt(data, i) && data[i] == e.letter && j == i + 1 + |e.sign|
    requires SignAt(data, i + 1) == (e.sign != []) && |e.sign| <= 1 && data[i + 1..j] == e.sign
    requires DigitsEnd(data, j) == j + |e.digits| && data[j..DigitsEnd(data, j)] == e.digits
    ensures ExponentOf(data, i) == e
  {
    hide DigitsEnd, ExponentAt, SignAt;
  }

  lemma NoExponentIs(data: bytes, i: nat)
    requires i <= |data| && !ExponentAt(data, i)
    ensures ExponentOf(data, i) == NoExponent
  {
    hide ExponentAt;
  }

  lemma ExponentStands(data: bytes, i: nat, e: Exponent)
    requires ValidExponent(e) && e.Exponent? && IsAtText(data, i, [e.letter]) && IsAtText(data, i + 1, e.sign)
    requires IsAtText(data, i + 1 + |e.sign|, e.digits)
    ensures ExponentAt(data, i) && data[i] == e.letter && SignAt(data, i + 1) == (e.sign != []) && |e.sign| <= 1
  {
    ByteOfText(data, i, [e.letter], 0);
    ByteOfText(data, i + 1 + |e.sign|, e.digits, 0);
    if e.sign != [] {
      ByteOfText(data, i + 1, e.sign, 0);
    }
  }

  lemma SignOnly(data: bytes, p: nat, negative: bool, digits: bytes)
    requires AllDigits(digits) && (negative || digits != []) && IsAtText(data, p, Sign(negative) + digits)
    ensures p < |data| && (data[p] == MINUS) == negative && StartsNumber(data[p])
            && AfterSign(data, p) == p + |Sign(negative)|
    ensures IsAtText(data, p + |Sign(negative)|, digits)
  {
    SplitText(data, p, Sign(negative), digits);
  }

  /** What comes after the digits before the point. */
  lemma AfterWhole(d: Doc, data: bytes, w: nat)
    requires d.DFloat? && Loose(d) && IsAtText(data, w, FractionText(d.fraction) + ExponentText(d.exponent))
    requires NumberEnds(d, data, w + |FractionText(d.fraction) + ExponentText(d.exponent)|)
    ensures w <= |data| && !DigitAt(data, w) && HasSeparator(data, w)
    ensures FractionAt(data, w) == d.fraction && ExponentOf(data, FractionEnd(data, w)) == d.exponent
  {
    hide AllDigits, FractionEnd, ExponentEnd, FractionAt, ExponentOf, IsAtText, HasSeparator, DigitAt, PointAt,
         ExponentAt, ValidExponent;
    var f := w + |FractionText(d.fraction)|;
    SplitText(data, w, FractionText(d.fraction), ExponentText(d.exponent));
    if d.exponent.Exponent? {
      ExponentFirst(data, f, d.exponent);
    }
    if d.fraction.Fraction? {
      FractionFirst(data, w, d.fraction);
    }
    ExponentOnly(data, f, d.exponent);
    FractionOnly(data, w, d.fraction);
  }

  lemma ExponentFirst(data: bytes, i: nat, e: Exponent)
    requires ValidExponent(e) && IsAtText(data, i, ExponentText(e)) && e.Exponent?
    ensures i < |data| && !DigitAt(data, i) && !PointAt(data, i) && HasSeparator(data, i)
  {
    ByteOfText(data, i, ExponentText(e), 0);
  }

  lemma FractionFirst(data: bytes, i: nat, f: Fraction)
    requires IsAtText(data, i, FractionText(f)) && f.Fraction?
    ensures i < |data| && !DigitAt(data, i) && PointAt(data, i) && HasSeparator(data, i)
  {
    ByteOfText(data, i, FractionText(f), 0);
  }

  /** The sign and the digits before the point. */
  lemma HeadOnly(data: bytes, p: nat, negative: bool, digits: bytes, tail: bytes)
    requires AllDigits(digits) && (negative || digits != []) && IsAtText(data, p, (Sign(negative) + digits) + tail)
    requires !DigitAt(data, p + |Sign(negative)| + |digits|)
    ensures var start := p + |Sign(negative)|; var w := start + |digits|;
            && p < |data| && (data[p] == MINUS) == negative && StartsNumber(data[p]) && AfterSign(data, p) == start
            && w <= |data| && DigitsEnd(data, start) == w && data[start..w] == digits && IsAtText(data, w, tail)
            && HasSeparator(data, p) == HasSeparator(data, w)
  {
    hide DigitsEnd, HasSeparator, AllDigits, IsAtText, DigitAt, Sign, AfterSign;
    var start := p + |Sign(negative)|;
    SplitText(data, p, Sign(negative) + digits, tail);
    SignOnly(data, p, negative, digits);
    SignPart(data, p);
    DigitsOver(data, start, digits);
    DigitsAre(data, start);
    TextIsSlice(data, start, digits);
  }

  lemma NumberOnly(d: Doc, data: bytes, p: nat)
    requires IsNumber(d) && Loose(d) && IsAtText(data, p, Text(d)) && NumberEnds(d, data, p + |Text(d)|)
    ensures p < |data| && StartsNumber(data[p]) && NumberAt(data, p) == Found(d, p + |Text(d)|)
  {
    hide DigitsEnd, HasSeparator, AllDigits, IsAtText, FractionEnd, ExponentEnd, FractionAt, ExponentOf, ExponentAt,
         DigitAt, FractionText, ExponentText, Sign;
    hide LooseFraction, ValidExponent, AfterSign, FloatEnd, StartsNumber;
    var head := Sign(d.negative) + d.digits;
    var tail := if d.DFloat? then FractionText(d.fraction) + ExponentText(d.exponent) else [];
    assert Text(d) == head + tail;
    var w := p + |Sign(d.negative)| + |d.digits|;
    if d.DFloat? {
      SplitText(data, p, head, tail);
      AfterWhole(d, data, w);
    }
    HeadOnly(data, p, d.negative, d.digits, tail);
    if d.DFloat? {
      FloatOnly(data, p, w);
    }
  }

  lemma FloatOnly(data: bytes, i: nat, whole: nat)
    requires i < |data| && whole == DigitsEnd(data, AfterSign(data, i))
    requires whole > AfterSign(data, i) || (FractionAt(data, whole).Fraction? && FractionAt(data, whole).digits != [])
    ensures FloatEnd(data, i) == ExponentEnd(data, FractionEnd(data, whole)) > i
  {
    hide DigitsEnd, ExponentEnd;
  }

  // ----- What is found stands there -----

  lemma CommaPart(data: bytes, q: nat)
    requires q <= |data|
    ensures var n := AfterComma(data, q); IsAtText(data, q, CommaText(n > q)) && n == q + |CommaText(n > q)| <= |data|
  {
    if q < |data| && data[q] == COMMA {
      ByteStands(data, q, COMMA);
    }
  }

  lemma BodySound(data: bytes, i: nat)
    requires BodyAt(data, i).FoundBody?
    ensures var r := BodyAt(data, i);
            Closed(r.body) && IsAtText(data, i, Quoted(r.body)) && r.end == i + |Quoted(r.body)|
  {
    hide ClosingQuote, IsBody, IsAtText;
    var end := ClosingQuote(data, i + 1).index;
    var body := data[i + 1..end];
    ClosingQuoteEndsBody(data, i + 1);
    BodySlice(data, i + 1, i + 1, end);
    ByteStands(data, i, QUOTE);
    SliceStands(data, i + 1, end);
    JoinText(data, i, [QUOTE], body);
    ByteStands(data, end, QUOTE);
    JoinText(data, i, [QUOTE] + body, [QUOTE]);
  }

  /** The inside of a literal, taken out of its text. */
  lemma {:induction false} BodySlice(data: bytes, start: nat, i: nat, end: nat)
    requires start <= i <= end <= |data| && IsBody(data, i, end)
    ensures IsBody(data[start..end], i - start, end - start)
    decreases end - i
  {
    if i < end {
      assert data[start..end][i - start] == data[i];
      BodySlice(data, start, if data[i] == BACKSLASH then i + 2 else i + 1, end);
    }
  }

  lemma EmptySound(data: bytes, p: nat, s: nat, open: byte, close: byte)
    requires p < s < |data| && data[p] == open && data[s] == close
    ensures IsAtText(data, p, [open] + data[p + 1..s] + [close]) && s + 1 == p + |[open] + data[p + 1..s] + [close]|
  {
    assert data[p..s + 1] == [open] + data[p + 1..s] + [close];
  }

  /** A document that is found is one of the wider grammar and stands where it was found. */
  lemma {:induction false} DocSound(data: bytes, i: nat)
    requires i <= |data| && DocAt(data, i).Found?
    ensures var r := DocAt(data, i); var p := SkipBlanks(data, i);
            Loose(r.doc) && Stands(r.doc, data, p) && r.end == p + |Text(r.doc)|
    decreases |data| - i, 1
  {
    hide SkipBlanks, IsAtText, ItemsAt, EntriesAt, NumberAt, BodyAt, Quoted, NumberEnds;
    var p := SkipBlanks(data, i);
    if p < |data| && data[p] == LBRACE {
      ObjectSound(data, i, p);
    } else if p < |data| && data[p] == LBRACKET {
      ArraySound(data, i, p);
    } else {
      hide ItemsStand, EntriesStand, LooseItems, LooseEntries, ItemsText, EntriesText, AllBlank, Closed;
      var d := DocAt(data, i).doc;
      if IsNumber(d) {
        NumberSound(data, p);
      } else if d.DString? {
        BodySound(data, p);
      }
    }
  }

  lemma {:induction false} ArraySound(data: bytes, i: nat, p: nat)
    requires i <= |data| && SkipBlanks(data, i) == p < |data| && data[p] == LBRACKET && DocAt(data, i).Found?
    ensures var r := DocAt(data, i); Loose(r.doc) && Stands(r.doc, data, p) && r.end == p + |Text(r.doc)|
    decreases |data| - i, 0
  {
    hide SkipBlanks, IsAtText, ItemsAt, EntriesAt, NumberAt, BodyAt, ItemsStand, EntriesStand, LooseItems,
         LooseEntries, ItemsText, EntriesText, AllBlank;
    var s := SkipBlanks(data, p + 1);
    if s < |data| && data[s] == RBRACKET {
      SkippedAreBlank(data, p + 1);
      EmptySound(data, p, s, LBRACKET, RBRACKET);
    } else {
      ByteStands(data, p, LBRACKET);
      ItemsSound(data, p + 1);
    }
  }

  lemma {:induction false} ObjectSound(data: bytes, i: nat, p: nat)
    requires i <= |data| && SkipBlanks(data, i) == p < |data| && data[p] == LBRACE && DocAt(data, i).Found?
    ensures var r := DocAt(data, i); Loose(r.doc) && Stands(r.doc, data, p) && r.end == p + |Text(r.doc)|
    decreases |data| - i, 0
  {
    hide SkipBlanks, IsAtText, ItemsAt, EntriesAt, NumberAt, BodyAt, ItemsStand, EntriesStand, LooseItems,
         LooseEntries, ItemsText, EntriesText, AllBlank;
    var s := SkipBlanks(data, p + 1);
    if s < |data| && data[s] == RBRACE {
      SkippedAreBlank(data, p + 1);
      EmptySound(data, p, s, LBRACE, RBRACE);
    } else {
      ByteStands(data, p, LBRACE);
      EntriesSound(data, p + 1);
    }
  }

  lemma BlanksStand(data: bytes, i: nat)
    requires i <= |data|
    ensures var p := SkipBlanks(data, i);
            i <= p <= |data| && IsAtText(data, i, data[i..p]) && AllBlank(data[i..p]) && i + |data[i..p]| == p
  {
    SkippedAreBlank(data, i);
    SliceStands(data, i, SkipBlanks(data, i));
  }

  /** Behind blanks and no comma, the next element starts at once. */
  lemma NoBlankLeft(data: bytes, e: nat)
    requires e <= |data| && AfterComma(data, SkipBlanks(data, e)) == SkipBlanks(data, e)
    ensures var q := SkipBlanks(data, e); SkipBlanks(data, q) == q
  {
    SkippedAreBlank(data, e);
  }

  lemma {:induction false} ItemSound(data: bytes, i: nat)
    requires i <= |data| && ItemAt(data, i).FoundItem?
    ensures var r := ItemAt(data, i);
            && r.before == data[i..SkipBlanks(data, i)] && AllBlank(r.before) && Loose(r.value) && AllBlank(r.after)
            && ItemStands(r.before, r.value, r.after, r.comma, data, i)
            && r.end == i + ItemSize(r.before, r.value, r.after, r.comma)
            && (!r.comma ==> SkipBlanks(data, r.end) == r.end)
    decreases |data| - i, 2
  {
    hide SkipBlanks, IsAtText, DocAt, Loose, Stands, Text, AllBlank, AfterComma, CommaText;
    var e := DocAt(data, i).end;
    DocSound(data, i);
    BlanksStand(data, i);
    BlanksStand(data, e);
    CommaPart(data, SkipBlanks(data, e));
    if !ItemAt(data, i).comma {
      NoBlankLeft(data, e);
    }
  }

  lemma ItemsSize(items: Items)
    ensures |ItemsText(items)|
            == ItemSize(items.before, items.value, items.after, items.comma)
              + (if items.MoreItems? then |ItemsText(items.rest)| else 0)
  {
    hide Text, CommaText;
  }

  lemma {:induction false} ItemsSound(data: bytes, i: nat)
    requires i <= |data| && ItemsAt(data, i).FoundItems?
    ensures var r := ItemsAt(data, i);
            LooseItems(r.items) && ItemsStand(r.items, data, i) && r.end == i + |ItemsText(r.items)| + 1
    ensures ItemsAt(data, i).items.before == data[i..SkipBlanks(data, i)]
    decreases |data| - i, 3
  {
    hide SkipBlanks, IsAtText, ItemAt, ItemStands, ItemSize, Loose, Text, AllBlank, ItemsText;
    var n := ItemAt(data, i).end;
    ItemSound(data, i);
    ItemsSize(ItemsAt(data, i).items);
    if n < |data| && data[n] == RBRACKET {
      ByteStands(data, n, RBRACKET);
    } else {
      ItemsSound(data, n);
    }
  }

  lemma {:induction false} EntrySound(data: bytes, i: nat)
    requires i <= |data| && EntryAt(data, i).FoundEntry?
    ensures var r := EntryAt(data, i);
            && r.before == data[i..SkipBlanks(data, i)] && AllBlank(r.before) && Closed(r.key) && AllBlank(r.gap)
              && AllBlank(r.lead)
            && Loose(r.value) && AllBlank(r.after)
            && EntryStands(r.before, r.key, r.gap, r.lead, r.value, r.after, r.comma, data, i)
            && r.end == i + EntrySize(r.before, r.key, r.gap, r.lead, r.value, r.after, r.comma)
            && (!r.comma ==> SkipBlanks(data, r.end) == r.end)
    decreases |data| - i, 2
  {
    hide SkipBlanks, IsAtText, DocAt, BodyAt, Loose, Stands, Text, AllBlank, AfterComma, CommaText, Closed, Quoted;
    var k := SkipBlanks(data, i);
    var g := BodyAt(data, k).end;
    var c := SkipBlanks(data, g);
    var e := DocAt(data, c + 1).end;
    BodySound(data, k);
    BlanksStand(data, i);
    BlanksStand(data, g);
    ByteStands(data, c, COLON);
    BlanksStand(data, c + 1);
    DocSound(data, c + 1);
    BlanksStand(data, e);
    CommaPart(data, SkipBlanks(data, e));
    if !EntryAt(data, i).comma {
      NoBlankLeft(data, e);
    }
  }

  lemma EntriesSize(entries: Entries)
    ensures |EntriesText(entries)|
            == EntrySize(entries.before, entries.key, entries.gap, entries.lead, entries.value, entries.after,
                         entries.comma)
               + (if entries.MoreEntries? then |EntriesText(entries.rest)| else 0)
  {
    hide Text, CommaText, Quoted;
  }

  lemma {:induction false} EntriesSound(data: bytes, i: nat)
    requires i <= |data| && EntriesAt(data, i).FoundEntries?
    ensures var r := EntriesAt(data, i);
            LooseEntries(r.entries) && EntriesStand(r.entries, data, i) && r.end == i + |EntriesText(r.entries)| + 1
    ensures EntriesAt(data, i).entries.before == data[i..SkipBlanks(data, i)]
    decreases |data| - i, 3
  {
    hide SkipBlanks, IsAtText, EntryAt, EntryStands, EntrySize, Loose, Text, AllBlank, Closed, EntriesText;
    var n := EntryAt(data, i).end;
    EntrySound(data, i);
    EntriesSize(EntriesAt(data, i).entries);
    if n < |data| && data[n] == RBRACE {
      ByteStands(data, n, RBRACE);
    } else {
      EntriesSound(data, n);
    }
  }

  // ----- What stands there is found -----

  /** The first byte of a document tells its kind; it is neither blank nor a closing bracket nor a comma. */
  lemma FirstByte(d: Doc)
    requires Loose(d)
    ensures Text(d) != []
    ensures var c := Text(d)[0];
            && !IsBlank(c) && c != RBRACKET && c != RBRACE && c != COMMA
            && (IsNumber(d) ==> StartsNumber(c))
  {
  }

  lemma StandingFirst(d: Doc, data: bytes, p: nat)
    requires Loose(d) && Stands(d, data, p)
    ensures p < |data| && Text(d) != [] && data[p] == Text(d)[0]
    ensures !IsBlank(data[p]) && data[p] != RBRACKET && data[p] != RBRACE && data[p] != COMMA
  {
    hide ItemsStand, EntriesStand, ItemsText, EntriesText;
    FirstByte(d);
  }

  lemma BodyOnly(data: bytes, p: nat, body: bytes)
    requires Closed(body) && IsAtText(data, p, Quoted(body))
    ensures p < |data| && data[p] == QUOTE && BodyAt(data, p) == FoundBody(body, p + |Quoted(body)|)
  {
    hide IsBody, ClosingQuote, IsAtText;
    assert Quoted(body) == [QUOTE] + (body + [QUOTE]);
    SplitText(data, p, [QUOTE], body + [QUOTE]);
    SplitText(data, p + 1, body, [QUOTE]);
    ByteOfText(data, p, [QUOTE], 0);
    ByteOfText(data, p + 1 + |body|, [QUOTE], 0);
    TextIsSlice(data, p + 1, body);
    FastStrings.BodyInText(body, 0, data, p + 1);
    BodyThenQuote(data, p + 1, p + 1 + |body|);
  }

  lemma EmptyOnly(data: bytes, p: nat, open: byte, pad: bytes, close: byte)
    requires IsAtText(data, p, [open] + pad + [close]) && AllBlank(pad) && !IsBlank(close)
    ensures var s := p + 1 + |pad|;
            s < |data| && data[p] == open && SkipBlanks(data, p + 1) == s && data[s] == close && data[p + 1..s] == pad
  {
    hide IsAtText, SkipBlanks;
    assert [open] + pad + [close] == [open] + (pad + [close]);
    SplitText(data, p, [open], pad + [close]);
    SplitText(data, p + 1, pad, [close]);
    ByteOfText(data, p, [open], 0);
    ByteOfText(data, p + 1 + |pad|, [close], 0);
    SkipOver(data, p + 1, pad);
    TextIsSlice(data, p + 1, pad);
  }

  /** A document of the wider grammar that stands in a text is the one that is found there. */
  lemma {:induction false} DocOnly(d: Doc, data: bytes, i: nat)
    requires i <= |data| && Loose(d) && Stands(d, data, SkipBlanks(data, i))
    ensures DocAt(data, i) == Found(d, SkipBlanks(data, i) + |Text(d)|)
    decreases d, 2
  {
    hide SkipBlanks, IsAtText, ItemsAt, EntriesAt, NumberAt, BodyAt, ItemsStand, EntriesStand, LooseItems,
         LooseEntries, ItemsText, EntriesText, AllBlank, Closed, Quoted, NumberEnds;
    var p := SkipBlanks(data, i);
    if d.DEmptyArray? || d.DArray? || d.DEmptyObject? || d.DObject? {
      hide DocAt, Stands, Loose;
      NestOnly(d, data, i, p);
    } else {
      StandingFirst(d, data, p);
      if IsNumber(d) {
        NumberOnly(d, data, p);
      } else if d.DString? {
        BodyOnly(data, p, d.body);
      }
    }
  }

  lemma {:induction false} NestOnly(d: Doc, data: bytes, i: nat, p: nat)
    requires d.DEmptyArray? || d.DArray? || d.DEmptyObject? || d.DObject?
    requires i <= |data| && SkipBlanks(data, i) == p && Loose(d) && Stands(d, data, p)
    ensures DocAt(data, i) == Found(d, p + |Text(d)|)
    decreases d, 1
  {
    hide SkipBlanks, IsAtText, ItemsAt, EntriesAt, NumberAt, BodyAt, ItemsStand, EntriesStand, LooseItems,
         LooseEntries, ItemsText, EntriesText, AllBlank, Closed, Quoted, NumberEnds;
    match d
    case DEmptyArray(pad) => EmptyOnly(data, p, LBRACKET, pad, RBRACKET);
    case DEmptyObject(pad) => EmptyOnly(data, p, LBRACE, pad, RBRACE);
    case DArray(items) =>
      ByteOfText(data, p, [LBRACKET], 0);
      ItemsOnly(items, data, p + 1);
    case DObject(entries) =>
      ByteOfText(data, p, [LBRACE], 0);
      EntriesOnly(entries, data, p + 1);
  }

  /** Blanks before something that is not blank. */
  lemma BlanksOnly(data: bytes, i: nat, blank: bytes)
    requires IsAtText(data, i, blank) && AllBlank(blank)
    requires var p := i + |blank|; p < |data| && !IsBlank(data[p])
    ensures var p := i + |blank|; SkipBlanks(data, i) == p && data[i..p] == blank && SkipBlanks(data, p) == p
  {
    SkipOver(data, i, blank);
  }

  /** Blanks, perhaps a comma, and then something that is neither blank nor a comma, or, behind a comma, anything. */
  lemma SeparatorOnly(data: bytes, e: nat, after: bytes, comma: bool)
    requires AllBlank(after) && IsAtText(data, e, after) && IsAtText(data, e + |after|, CommaText(comma))
    requires var n := e + |after| + |CommaText(comma)|; n < |data| && (!comma ==> !IsBlank(data[n]) && data[n] != COMMA)
    ensures var q := e + |after|;
            && SkipBlanks(data, e) == q <= |data| && data[e..q] == after
            && AfterComma(data, q) == q + |CommaText(comma)| && (AfterComma(data, q) > q) == comma
  {
    hide SkipBlanks, AllBlank;
    if comma {
      ByteOfText(data, e + |after|, CommaText(comma), 0);
    }
    BlanksOnly(data, e, after);
  }

  lemma NoBlankMarks()
    ensures !IsBlank(RBRACKET) && !IsBlank(RBRACE) && !IsBlank(COLON) && !IsBlank(QUOTE)
  {
  }

  /** An element starts behind the blanks at position i, at position s. */
  predicate ElementStarts(data: bytes, i: nat, s: nat) {
    && i <= s < |data| && SkipBlanks(data, i) == s && !IsBlank(data[s]) && data[s] != COMMA
    && data[s] != RBRACKET && data[s] != RBRACE && data[i] != RBRACKET && data[i] != RBRACE
  }

  lemma ElementOnly(data: bytes, i: nat, before: bytes)
    requires IsAtText(data, i, before) && AllBlank(before)
    requires var s := i + |before|;
             s < |data| && !IsBlank(data[s]) && data[s] != RBRACKET && data[s] != RBRACE && data[s] != COMMA
    ensures var s := i + |before|; ElementStarts(data, i, s) && data[i..s] == before
  {
    BlanksOnly(data, i, before);
    if before != [] {
      ByteOfText(data, i, before, 0);
    }
  }

  lemma {:induction false} ItemOnly(before: bytes, value: Doc, after: bytes, comma: bool, data: bytes, i: nat)
    requires AllBlank(before) && Loose(value) && AllBlank(after) && ItemStands(before, value, after, comma, data, i)
    requires var n := i + ItemSize(before, value, after, comma);
             n < |data| && (!comma ==> !IsBlank(data[n]) && data[n] != COMMA)
    ensures i <= |data| && ItemAt(data, i)
            == FoundItem(before, value, after, comma, i + ItemSize(before, value, after, comma))
    ensures ElementStarts(data, i, i + |before|)
    decreases value, 3
  {
    hide SkipBlanks, IsAtText, DocAt, Loose, Stands, Text, AllBlank, AfterComma, CommaText, IsBlank;
    var v := i + |before|;
    var e := v + |Text(value)|;
    StandingFirst(value, data, v);
    ElementOnly(data, i, before);
    DocOnly(value, data, i);
    SeparatorOnly(data, e, after, comma);
  }

  lemma ElementIsNext(data: bytes, i: nat, before: bytes)
    requires ElementStarts(data, i, i + |before|)
    ensures i < |data| && data[i] != RBRACKET && data[i] != RBRACE
            && (before == [] ==> !IsBlank(data[i]) && data[i] != COMMA)
  {
  }

  lemma {:induction false} ItemsOnly(items: Items, data: bytes, i: nat)
    requires LooseItems(items) && ItemsStand(items, data, i)
    ensures i <= |data| && ItemsAt(data, i) == FoundItems(items, i + |ItemsText(items)| + 1)
    ensures ElementStarts(data, i, i + |items.before|)
    decreases items, 2
  {
    hide IsAtText, Loose, Stands, Text, AllBlank, ItemsText, IsBlank, ItemAt, ElementStarts, ItemStands, ItemSize;
    var n := i + ItemSize(items.before, items.value, items.after, items.comma);
    NoBlankMarks();
    if items.MoreItems? {
      ItemsOnly(items.rest, data, n);
      ElementIsNext(data, n, items.rest.before);
    } else {
      ByteOfText(data, n, [RBRACKET], 0);
    }
    ItemOnly(items.before, items.value, items.after, items.comma, data, i);
    ItemsSize(items);
  }

  /** From the blanks before a key to the start of its value. */
  lemma KeyOnly(before: bytes, key: bytes, gap: bytes, lead: bytes, data: bytes, i: nat)
    requires AllBlank(before) && Closed(key) && AllBlank(gap) && AllBlank(lead)
    requires var k := i + |before|; var g := k + |Quoted(key)|; var c := g + |gap|; var v := c + 1 + |lead|;
             && IsAtText(data, i, before) && IsAtText(data, k, Quoted(key)) && IsAtText(data, g, gap)
             && IsAtText(data, c, [COLON]) && IsAtText(data, c + 1, lead) && v < |data| && !IsBlank(data[v])
    ensures var k := i + |before|; var g := k + |Quoted(key)|; var c := g + |gap|; var v := c + 1 + |lead|;
            && ElementStarts(data, i, k) && data[i..k] == before && BodyAt(data, k) == FoundBody(key, g)
            && SkipBlanks(data, g) == c < |data| && data[c] == COLON && data[g..c] == gap
            && SkipBlanks(data, c + 1) == v && data[c + 1..v] == lead
  {
    hide SkipBlanks, IsAtText, BodyAt, AllBlank, Closed, Quoted, IsBlank, ElementStarts;
    var k := i + |before|;
    var g := k + |Quoted(key)|;
    var c := g + |gap|;
    NoBlankMarks();
    BodyOnly(data, k, key);
    ElementOnly(data, i, before);
    ByteOfText(data, c, [COLON], 0);
    BlanksOnly(data, g, gap);
    BlanksOnly(data, c + 1, lead);
  }

  lemma {:induction false} EntryOnly(before: bytes, key: bytes, gap: bytes, lead: bytes, value: Doc, after: bytes,
                                     comma: bool, data: bytes, i: nat)
    requires AllBlank(before) && Closed(key) && AllBlank(gap) && AllBlank(lead) && Loose(value) && AllBlank(after)
    requires EntryStands(before, key, gap, lead, value, after, comma, data, i)
    requires var n := i + EntrySize(before, key, gap, lead, value, after, comma);
             n < |data| && (!comma ==> !IsBlank(data[n]) && data[n] != COMMA)
    ensures i <= |data|
    ensures EntryAt(data, i)
            == FoundEntry(before, key, gap, lead, value, after, comma,
                          i + EntrySize(before, key, gap, lead, value, after, comma))
    ensures ElementStarts(data, i, i + |before|)
    decreases value, 3
  {
    hide SkipBlanks, IsAtText, DocAt, BodyAt, Loose, Stands, Text, AllBlank, AfterComma, CommaText, Closed, Quoted,
         IsBlank, EntryAt, ElementStarts;
    var k := i + |before|;
    var g := k + |Quoted(key)|;
    var c := g + |gap|;
    var v := c + 1 + |lead|;
    var e := v + |Text(value)|;
    StandingFirst(value, data, v);
    KeyOnly(before, key, gap, lead, data, i);
    StartIs(data, i, k);
    DocOnly(value, data, c + 1);
    SeparatorOnly(data, e, after, comma);
    EntryFound(data, i, k, key, g, c, value, e);
  }

  lemma StartIs(data: bytes, i: nat, s: nat)
    requires ElementStarts(data, i, s)
    ensures i <= s < |data| && SkipBlanks(data, i) == s
  {
  }

  lemma EntryFound(data: bytes, i: nat, k: nat, key: bytes, g: nat, c: nat, value: Doc, e: nat)
    requires i <= |data| && SkipBlanks(data, i) == k && BodyAt(data, k) == FoundBody(key, g)
    requires SkipBlanks(data, g) == c < |data| && data[c] == COLON && DocAt(data, c + 1) == Found(value, e)
    ensures var q := SkipBlanks(data, e); var n := AfterComma(data, q);
            EntryAt(data, i) == FoundEntry(data[i..k], key, data[g..c], data[c + 1..SkipBlanks(data, c + 1)], value,
                                           data[e..q], n > q, n)
  {
    hide SkipBlanks, DocAt, BodyAt, AfterComma;
  }

  lemma {:induction false} EntriesOnly(entries: Entries, data: bytes, i: nat)
    requires LooseEntries(entries) && EntriesStand(entries, data, i)
    ensures i <= |data| && EntriesAt(data, i) == FoundEntries(entries, i + |EntriesText(entries)| + 1)
    ensures ElementStarts(data, i, i + |entries.before|)
    decreases entries, 2
  {
    hide IsAtText, Loose, Stands, Text, AllBlank, Closed, EntriesText, IsBlank, EntryAt, ElementStarts, EntryStands,
         EntrySize;
    var n := i + EntrySize(entries.before, entries.key, entries.gap, entries.lead, entries.value, entries.after,
                           entries.comma);
    NoBlankMarks();
    if entries.MoreEntries? {
      EntriesOnly(entries.rest, data, n);
      ElementIsNext(data, n, entries.rest.before);
    } else {
      ByteOfText(data, n, [RBRACE], 0);
    }
    EntryOnly(entries.before, entries.key, entries.gap, entries.lead, entries.value, entries.after, entries.comma,
              data, i);
    EntriesSize(entries);
  }
}

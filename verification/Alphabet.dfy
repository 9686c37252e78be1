/** The characters of RFC 8259 as characters: which bytes the classes and tables of the source stand for. */
module JsonAlphabet {
  import opened Bytes
  import opened JsonDocument
  import FastStrings
  import Hex
  import StringGrammar
  import Unescape
  import Unicode

  const DIGITS := "0123456789"
  const UPPER_HEX := "0123456789ABCDEF"
  const LOWER_HEX := "0123456789abcdef"

  /** The letters of the two-character escapes, and what they stand for: section 7 of RFC 8259. */
  const LETTERS := "\"\\/bfnrt"
  const MEANINGS := "\"\\/\U{0008}\U{000C}\n\r\t"

  predicate Spells(s: bytes, text: string) {
    |s| == |text| && forall k :: 0 <= k < |s| ==> s[k] as char == text[k]
  }

  predicate Among(b: byte, text: string) {
    b as char in text
  }

  lemma Words()
    ensures Spells(NULL_TEXT, "null") && Spells(TRUE_TEXT, "true") && Spells(FALSE_TEXT, "false")
    ensures Spells([LBRACE, RBRACE, LBRACKET, RBRACKET, COLON, COMMA], "{}[]:,")
    ensures Spells([QUOTE, BACKSLASH, Unescape.LETTER_U, PLUS, MINUS, POINT, LOWER_E, UPPER_E], "\"\\u+-.eE")
    ensures Spells([SOLIDUS, QUESTION, SPACE], "/? ")
  {
  }

  /** The classes of bytes. The blanks of the source are those of section 2 and the form feed. */
  lemma Classes(b: byte)
    ensures IsDigit(b) <==> Among(b, DIGITS)
    ensures Hex.IsHex(b) <==> Among(b, UPPER_HEX) || Among(b, LOWER_HEX)
    ensures IsSpace(b) <==> Among(b, " \t\n\r")
    ensures IsBlank(b) <==> Among(b, " \t\n\r\U{000C}")
    ensures IsStruct(b) <==> Among(b, "{}[]:,\"\\")
    ensures Unescape.IsShort(b) <==> Among(b, LETTERS)
    ensures StringGrammar.IsUnescaped(b) <==> b >= 0x20 && !Among(b, "\"\\")
  {
  }

  /** A hexadecimal digit has the value of its place, in both alphabets; and the escapers write the digit of a value. */
  lemma DigitValues(b: byte, k: nat)
    requires k < 16 && (b as char == UPPER_HEX[k] || b as char == LOWER_HEX[k])
    ensures Hex.DigitValue(b) == k
    ensures Hex.UpperDigit(k) as char == UPPER_HEX[k] && FastStrings.LOWER_DIGITS[k] as char == LOWER_HEX[k]
  {
  }

  /** The letter of a two-character escape stands for the character at its place in the list. */
  lemma LetterMeanings(b: byte, k: nat)
    requires k < |LETTERS| && b as char == LETTERS[k]
    ensures Unescape.Unescaped([BACKSLASH, b], 0).Text?
    ensures Spells(Unescape.Unescaped([BACKSLASH, b], 0).text, [MEANINGS[k]])
  {
  }

  function Power(base: nat, n: nat): nat {
    if n == 0 then 1 else base * Power(base, n - 1)
  }

  /** Digit strings are decimal numbers. */
  lemma {:induction false} DecimalNumbers(s: bytes, t: bytes)
    ensures NumberOf(s + t) == NumberOf(s) * Power(10, |t|) + NumberOf(t)
    ensures forall k :: 0 <= k < 10 && |t| == 1 && t[0] as char == DIGITS[k] ==> NumberOf(t) == k
    decreases |t|
  {
    if t == [] {
      assert s + t == s;
    } else {
      var n := |t| - 1;
      DecimalNumbers(s, t[..n]);
      assert (s + t)[..|s| + n] == s + t[..n];
      Shift(NumberOf(s), 10, n);
      OneDigit(t);
    }
  }

  lemma OneDigit(t: bytes)
    ensures |t| == 1 ==> NumberOf(t) == t[0] as int - 0x30
    ensures forall k :: 0 <= k < 10 && |t| == 1 && t[0] as char == DIGITS[k] ==> t[0] as int == 0x30 + k
  {
    if |t| == 1 {
      assert t[..0] == [];
    }
  }

  lemma Shift(x: int, base: nat, n: nat)
    ensures x * Power(base, n) * base == x * Power(base, n + 1)
  {
    assert x * Power(base, n) * base == x * (Power(base, n) * base);
  }

  /** And the digits of an escape are hexadecimal ones. */
  lemma {:induction false} HexNumbers(s: bytes, t: bytes)
    ensures Hex.NumberOf(s + t) == Hex.NumberOf(s) * Power(16, |t|) + Hex.NumberOf(t)
    decreases |s|
  {
    if s == [] {
      assert s + t == t;
    } else {
      var n := |s| - 1;
      HexNumbers(s[1..], t);
      assert (s + t)[1..] == s[1..] + t;
      MovedUp(Hex.DigitValue(s[0]), n, |t|);
      assert Hex.NumberOf(s) == Hex.MoveUp(Hex.DigitValue(s[0]), n) + Hex.NumberOf(s[1..]);
      Distribute(Hex.MoveUp(Hex.DigitValue(s[0]), n), Hex.NumberOf(s[1..]), Power(16, |t|));
    }
  }

  lemma Distribute(a: int, b: int, c: int)
    ensures (a + b) * c == a * c + b * c
  {
  }

  lemma {:induction false} MovedUp(x: int, n: nat, m: nat)
    ensures Hex.MoveUp(x, n + m) == Hex.MoveUp(x, n) * Power(16, m)
    decreases m
  {
    if m > 0 {
      MovedUp(x, n, m - 1);
      Shift(Hex.MoveUp(x, n), 16, m - 1);
    }
  }

  /** The halves of surrogate pairs are just the codes that a code point beyond the basic plane is split into. */
  lemma SurrogateRanges(code: Unicode.uint16)
    ensures Unescape.IsHigh(code) <==> exists c: Unicode.uint32 ::
              0x1_0000 <= c <= 0x10_FFFF && Unicode.HighSurrogate(c) == code
    ensures Unescape.IsLow(code) <==> exists c: Unicode.uint32 ::
              0x1_0000 <= c <= 0x10_FFFF && Unicode.LowSurrogate(c) == code
  {
    if Unescape.IsHigh(code) {
      var c: Unicode.uint32 := 0x1_0000 + (code - 0xD800) * 0x400;
      assert Unicode.HighSurrogate(c) == code;
    }
    if Unescape.IsLow(code) {
      var c: Unicode.uint32 := 0x1_0000 + (code - 0xDC00);
      assert Unicode.LowSurrogate(c) == code;
    }
  }

  function ValueOf(t: Tree): int {
    match t
    case Integer(n) => n
    case UInt64(u) => u
    case _ => 0
  }

  function Distance(a: int, b: int): int {
    if a < b then b - a else a - b
  }

  /** An integer literal becomes the nearest number of 64 bits, signed if that is possible. */
  lemma IntegerIsNearest(negative: bool, magnitude: nat, other: int)
    requires INT64_MIN <= other <= UINT64_MAX
    ensures var t := IntegerTree(negative, magnitude); var v: int := if negative then 0 - magnitude else magnitude;
            && (t.Integer? <==> INT64_MIN <= ValueOf(t) <= INT64_MAX)
            && (t.UInt64? <==> INT64_MAX < ValueOf(t) <= UINT64_MAX)
            && (t.Integer? || t.UInt64?)
            && Distance(v, ValueOf(t)) <= Distance(v, other)
  {
  }

  lemma {:induction false} PowerSum(base: nat, n: nat, m: nat)
    ensures Power(base, n + m) == Power(base, n) * Power(base, m)
    decreases m
  {
    if m > 0 {
      PowerSum(base, n, m - 1);
      Shift(Power(base, n), base, m - 1);
    }
  }

  lemma Widths()
    ensures INT64_MIN == 0 - Power(2, 63) && INT64_MAX == Power(2, 63) - 1 && UINT64_MAX == Power(2, 64) - 1
  {
    assert Power(2, 4) == 16 by {
      assert Power(2, 2) == 4;
    }
    PowerSum(2, 4, 4);
    PowerSum(2, 8, 8);
    PowerSum(2, 16, 16);
    PowerSum(2, 32, 32);
    assert Power(2, 64) == 2 * Power(2, 63);
  }
}

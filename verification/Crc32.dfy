/** src/oatpp/utils/CRC32.cpp: the table-driven CRC is polynomial division, one bit at a time. A 32-bit word is its 32
    bits, bit 0 first. */
module Crc32 {
  import opened Bytes

  type bits = seq<bool>

  type Word = w: bits | |w| == 32 witness Zeros(32)

  const ZEROS: Word := Zeros(32)

  function Zeros(n: nat): (z: bits)
    ensures |z| == n && forall k :: 0 <= k < n ==> !z[k]
  {
    seq(n, _ => false)
  }

  function Xor(a: bits, b: bits): (r: bits)
    requires |a| == |b|
    ensures |r| == |a| && forall k :: 0 <= k < |r| ==> r[k] == (a[k] != b[k])
  {
    seq(|a|, k requires 0 <= k < |a| => a[k] != b[k])
  }

  /** v >> n */
  function ShiftRight(v: bits, n: nat): (r: bits)
    requires n <= |v|
    ensures |r| == |v|
  {
    v[n..] + Zeros(n)
  }

  /** The k low bits of n, bit 0 first. */
  function BitsOf(n: nat, k: nat): (b: bits)
    ensures |b| == k
  {
    if k == 0 then [] else [n % 2 == 1] + BitsOf(n / 2, k - 1)
  }

  function ValueOf(b: bits): (n: nat) {
    if b == [] then 0 else (if b[0] then 1 else 0) + 2 * ValueOf(b[1..])
  }

  function Power2(k: nat): (p: nat)
    ensures p > 0
  {
    if k == 0 then 1 else 2 * Power2(k - 1)
  }

  lemma {:induction false} ValueRoundTrip(b: bits)
    ensures ValueOf(b) < Power2(|b|) && BitsOf(ValueOf(b), |b|) == b
    decreases |b|
  {
    if b != [] {
      ValueRoundTrip(b[1..]);
      assert ValueOf(b) / 2 == ValueOf(b[1..]);
    }
  }

  lemma {:induction false} SmallBits(n: nat, k: nat, m: nat)
    requires n < Power2(k)
    ensures BitsOf(n, k + m) == BitsOf(n, k) + Zeros(m)
    decreases k + m
  {
    if k > 0 {
      SmallBits(n / 2, k - 1, m);
    } else if m > 0 {
      SmallBits(0, 0, m - 1);
    }
  }

  // ----- Bit reversal -----

  /** The coefficients in the opposite order. */
  function Reverse(v: bits): (r: bits)
    ensures |r| == |v| && forall k :: 0 <= k < |v| ==> r[k] == v[|v| - 1 - k]
  {
    if v == [] then [] else Reverse(v[1..]) + [v[0]]
  }

  method BitReverse(poly: Word) returns (result: Word)
    ensures result == Reverse(poly)
  {
    result := ZEROS;
    for i := 0 to 32
      invariant forall k :: 32 - i <= k < 32 ==> result[k] == poly[31 - k]
      invariant forall k :: 0 <= k < 32 - i ==> !result[k]
    {
      if poly[i] {
        result := result[31 - i := true];
      }
    }
  }

  // ----- The shift step, and the table -----

  function Step(poly: Word, v: Word): Word {
    if v[0] then Xor(ShiftRight(v, 1), poly) else ShiftRight(v, 1)
  }

  function Steps(poly: Word, v: Word, n: nat): Word
    decreases n
  {
    if n == 0 then v else Steps(poly, Step(poly, v), n - 1)
  }

  method GenerateTable(poly: Word) returns (table: array<Word>)
    ensures fresh(table) && IsTable(table[..], Reverse(poly))
  {
    hide Step, BitsOf, Reverse;
    var polyReverse := BitReverse(poly);
    table := new Word[256](_ => ZEROS);
    for i := 0 to 256
      invariant forall k :: 0 <= k < i ==> table[k] == Steps(polyReverse, BitsOf(k, 32), 8)
    {
      var value: Word := BitsOf(i, 32);
      for b := 0 to 8
        invariant Steps(polyReverse, value, 8 - b) == Steps(polyReverse, BitsOf(i, 32), 8)
        invariant forall k :: 0 <= k < i ==> table[k] == Steps(polyReverse, BitsOf(k, 32), 8)
      {
        value := Step(polyReverse, value);
      }
      table[i] := value;
    }
  }

  /** Entry k is what eight shift steps make of k. */
  predicate IsTable(table: seq<Word>, poly: Word) {
    |table| == 256 && forall k :: 0 <= k < 256 ==> table[k] == Steps(poly, BitsOf(k, 32), 8)
  }

  // ----- The reference: one message bit at a time -----

  function OneBit(b: bool): Word {
    [b] + Zeros(31)
  }

  /** Reflected division: the next message bit is added at the end the register is shifted out from. */
  function Feed(poly: Word, crc: Word, message: bits): Word
    decreases |message|
  {
    if message == [] then crc else Feed(poly, Step(poly, Xor(crc, OneBit(message[0]))), message[1..])
  }

  function MessageBits(data: bytes): bits {
    if data == [] then [] else BitsOf(data[0], 8) + MessageBits(data[1..])
  }

  lemma XorLaws(a: bits, b: bits, c: bits)
    requires |a| == |b| == |c|
    ensures Xor(a, b) == Xor(b, a)
    ensures Xor(Xor(a, b), c) == Xor(a, Xor(b, c))
    ensures Xor(a, Zeros(|a|)) == a
    ensures Xor(Xor(a, b), b) == a
  {
  }

  /** The step is linear. */
  lemma StepXor(poly: Word, a: Word, b: Word)
    ensures Step(poly, Xor(a, b)) == Xor(Step(poly, a), Step(poly, b))
  {
  }

  lemma {:induction false} StepsXor(poly: Word, a: Word, b: Word, n: nat)
    ensures Steps(poly, Xor(a, b), n) == Xor(Steps(poly, a, n), Steps(poly, b, n))
    decreases n
  {
    hide Step;
    if n > 0 {
      StepXor(poly, a, b);
      StepsXor(poly, Step(poly, a), Step(poly, b), n - 1);
    }
  }

  /** Low zero bits are only shifted out. */
  lemma {:induction false} ShiftOut(poly: Word, v: Word, n: nat)
    requires n <= 32 && forall k :: 0 <= k < n ==> !v[k]
    ensures Steps(poly, v, n) == ShiftRight(v, n)
    decreases n
  {
    if n == 0 {
      assert ShiftRight(v, 0) == v;
    } else {
      ShiftOut(poly, ShiftRight(v, 1), n - 1);
      assert ShiftRight(ShiftRight(v, 1), n - 1) == ShiftRight(v, n);
    }
  }

  /** Up to 32 message bits can be added at once. */
  lemma {:induction false} FeedAtOnce(poly: Word, crc: Word, message: bits)
    requires |message| <= 32
    ensures Feed(poly, crc, message) == Steps(poly, Xor(crc, message + Zeros(32 - |message|)), |message|)
    decreases |message|
  {
    hide Step;
    if message == [] {
      assert message + Zeros(32) == Zeros(32);
      XorLaws(crc, crc, crc);
    } else {
      var rest := message[1..];
      var first := Xor(crc, OneBit(message[0]));
      var tail := [false] + rest + Zeros(31 - |rest|);
      assert Xor(crc, message + Zeros(32 - |message|)) == Xor(first, tail);
      StepXor(poly, first, tail);
      StepShifts(poly, tail);
      assert ShiftRight(tail, 1) == rest + Zeros(32 - |rest|);
      FeedAtOnce(poly, Step(poly, first), rest);
    }
  }

  lemma StepShifts(poly: Word, v: Word)
    requires !v[0]
    ensures Step(poly, v) == ShiftRight(v, 1)
  {
  }

  /** The table entry for the low byte, plus the shifted rest, is eight message bits of division. */
  lemma OneByte(poly: Word, crc: Word, d: byte)
    ensures var index := ValueOf(Xor(crc[..8], BitsOf(d, 8)));
            index < 256 && Feed(poly, crc, BitsOf(d, 8)) == Xor(Steps(poly, BitsOf(index, 32), 8), ShiftRight(crc, 8))
  {
    hide Step, Steps, BitsOf, ValueOf, Feed;
    var low := Xor(crc[..8], BitsOf(d, 8));
    var index := ValueOf(low);
    assert Power2(8) == 256 by {
      assert Power2(4) == 16;
    }
    ValueRoundTrip(low);
    SmallBits(index, 8, 24);
    FeedAtOnce(poly, crc, BitsOf(d, 8));
    var high := Zeros(8) + crc[8..];
    assert Xor(crc, BitsOf(d, 8) + Zeros(24)) == Xor(low + Zeros(24), high);
    StepsXor(poly, low + Zeros(24), high, 8);
    ShiftOut(poly, high, 8);
    assert ShiftRight(high, 8) == ShiftRight(crc, 8);
  }

  lemma {:induction false} FeedConcat(poly: Word, crc: Word, a: bits, b: bits)
    ensures Feed(poly, crc, a + b) == Feed(poly, Feed(poly, crc, a), b)
    decreases |a|
  {
    hide Step;
    if a == [] {
      assert a + b == b;
    } else {
      assert (a + b)[1..] == a[1..] + b;
      FeedConcat(poly, Step(poly, Xor(crc, OneBit(a[0]))), a[1..], b);
    }
  }

  lemma {:induction false} MessageConcat(a: bytes, b: bytes)
    ensures MessageBits(a + b) == MessageBits(a) + MessageBits(b)
    decreases |a|
  {
    hide BitsOf;
    if a == [] {
      assert a + b == b;
    } else {
      assert (a + b)[1..] == a[1..] + b;
      MessageConcat(a[1..], b);
    }
  }

  /** The value `calc` returns, by division alone. */
  function Crc(poly: Word, data: bytes, crc: Word, initValue: Word, xorOut: Word): Word {
    Xor(Feed(poly, Xor(crc, initValue), MessageBits(data)), xorOut)
  }

  method Calc(data: bytes, crc0: Word, initValue: Word, xorOut: Word, table: array<Word>, ghost poly: Word)
    returns (result: Word)
    requires IsTable(table[..], poly)
    ensures result == Crc(poly, data, crc0, initValue, xorOut)
  {
    hide Feed, MessageBits, Steps, BitsOf, ValueOf;
    var crc := Xor(crc0, initValue);
    assert data[..0] == [];
    NoMessage(poly, crc);
    for i := 0 to |data|
      invariant crc == Feed(poly, Xor(crc0, initValue), MessageBits(data[..i]))
    {
      var index := ValueOf(Xor(crc[..8], BitsOf(data[i], 8)));
      OneByte(poly, crc, data[i]);
      FeedByteMore(poly, Xor(crc0, initValue), data, i);
      crc := Xor(table[index], ShiftRight(crc, 8));
    }
    assert data[..|data|] == data;
    result := Xor(crc, xorOut);
  }

  lemma NoMessage(poly: Word, crc: Word)
    ensures Feed(poly, crc, MessageBits([])) == crc
  {
  }

  lemma FeedByteMore(poly: Word, start: Word, data: bytes, i: nat)
    requires i < |data|
    ensures Feed(poly, start, MessageBits(data[..i + 1]))
            == Feed(poly, Feed(poly, start, MessageBits(data[..i])), BitsOf(data[i], 8))
  {
    hide Feed, BitsOf;
    assert data[..i + 1] == data[..i] + [data[i]];
    MessageConcat(data[..i], [data[i]]);
    assert MessageBits([data[i]]) == BitsOf(data[i], 8) + [] == BitsOf(data[i], 8);
    FeedConcat(poly, start, MessageBits(data[..i]), BitsOf(data[i], 8));
  }

  // ----- Long division -----

  /** One step of long division by x^32 + poly: the register times x, plus the next coefficient of the dividend, less
      the divisor if a term x^32 came out. The register holds its highest coefficient first, as a reversed word does. */
  function DivideStep(poly: Word, r: Word, b: bool): Word {
    var next := r[1..] + [b];
    if r[0] then Xor(next, poly) else next
  }

  function Divide(poly: Word, r: Word, dividend: bits): Word
    decreases |dividend|
  {
    if dividend == [] then r else Divide(poly, DivideStep(poly, r, dividend[0]), dividend[1..])
  }

  lemma DivideStepIsStep(poly: Word, r: Word, b: bool)
    ensures DivideStep(poly, r, b) == Xor(Step(poly, r), Zeros(31) + [b])
  {
  }

  lemma {:induction false} DivideZeros(poly: Word, r: Word, n: nat)
    ensures Divide(poly, r, Zeros(n)) == Steps(poly, r, n)
    decreases n
  {
    hide Step, DivideStep;
    if n > 0 {
      DivideStepIsStep(poly, r, false);
      assert Zeros(31) + [false] == Zeros(32);
      XorLaws(Step(poly, r), Step(poly, r), Step(poly, r));
      assert Zeros(n)[1..] == Zeros(n - 1);
      DivideZeros(poly, Step(poly, r), n - 1);
    }
  }

  lemma {:induction false} DivideConcat(poly: Word, r: Word, a: bits, b: bits)
    ensures Divide(poly, r, a + b) == Divide(poly, Divide(poly, r, a), b)
    decreases |a|
  {
    hide DivideStep;
    if a == [] {
      assert a + b == b;
    } else {
      assert (a + b)[1..] == a[1..] + b;
      DivideConcat(poly, DivideStep(poly, r, a[0]), a[1..], b);
    }
  }

  lemma {:induction false} StepsOn(poly: Word, v: Word, n: nat)
    ensures Steps(poly, v, n + 1) == Step(poly, Steps(poly, v, n))
    decreases n
  {
    hide Step;
    if n > 0 {
      StepsOn(poly, Step(poly, v), n - 1);
    }
  }

  /** A bit that enters at the low end of the dividend reaches the other end after 31 steps. */
  lemma LateBit(poly: Word, b: bool)
    ensures Steps(poly, Zeros(31) + [b], 31) == OneBit(b)
  {
    hide Step;
    ShiftOut(poly, Zeros(31) + [b], 31);
  }

  /** Adding each bit at the front is dividing with 32 more zeros to come. */
  lemma {:induction false} FeedDivides(poly: Word, r: Word, message: bits)
    ensures Feed(poly, Steps(poly, r, 32), message) == Steps(poly, Divide(poly, r, message), 32)
    decreases |message|
  {
    hide Step, Steps, DivideStep;
    if message != [] {
      var late: Word := Zeros(31) + [message[0]];
      DivideStepIsStep(poly, r, message[0]);
      StepsXor(poly, Step(poly, r), late, 32);
      StepsOn(poly, late, 31);
      LateBit(poly, message[0]);
      StepsSwap(poly, r, 32);
      StepXor(poly, Steps(poly, r, 32), OneBit(message[0]));
      FeedDivides(poly, DivideStep(poly, r, message[0]), message[1..]);
    }
  }

  lemma StepsSwap(poly: Word, v: Word, n: nat)
    ensures Steps(poly, Step(poly, v), n) == Step(poly, Steps(poly, v, n))
  {
    hide Step;
    StepsOn(poly, v, n);
  }

  lemma {:induction false} StepsOfZeros(poly: Word, n: nat)
    ensures Steps(poly, ZEROS, n) == ZEROS
    decreases n
  {
    hide Step;
    if n > 0 {
      StepOfZeros(poly);
      StepsOfZeros(poly, n - 1);
    }
  }

  lemma StepOfZeros(poly: Word)
    ensures Step(poly, ZEROS) == ZEROS
  {
  }

  /** With zero initial and final values the CRC of a message is the remainder of the message, followed by 32 zeros,
      divided by x^32 + poly. */
  lemma CrcIsRemainder(poly: Word, data: bytes)
    ensures Crc(poly, data, ZEROS, ZEROS, ZEROS) == Divide(poly, ZEROS, MessageBits(data) + Zeros(32))
  {
    hide Step, Steps, Feed, Divide, MessageBits;
    var message := MessageBits(data);
    StepsOfZeros(poly, 32);
    FeedDivides(poly, ZEROS, message);
    DivideConcat(poly, ZEROS, message, Zeros(32));
    DivideZeros(poly, Divide(poly, ZEROS, message), 32);
    XorLaws(ZEROS, ZEROS, ZEROS);
    XorLaws(Feed(poly, ZEROS, message), ZEROS, ZEROS);
  }

  // ----- Continuing from a prefix -----

  lemma Continue(poly: Word, a: bytes, b: bytes, crc: Word, value: Word)
    ensures Crc(poly, b, Crc(poly, a, crc, value, value), value, value) == Crc(poly, a + b, crc, value, value)
  {
    hide Feed, MessageBits;
    var start := Xor(crc, value);
    MessageConcat(a, b);
    FeedConcat(poly, start, MessageBits(a), MessageBits(b));
    XorLaws(Feed(poly, start, MessageBits(a)), value, value);
  }

  /** Continuing from a prefix's result gives the CRC of the whole for all messages exactly when the initial and the
      final value are equal. */
  lemma ContinuesExactly(poly: Word, initValue: Word, xorOut: Word)
    ensures (forall a: bytes, b: bytes, crc: Word ::
               Crc(poly, b, Crc(poly, a, crc, initValue, xorOut), initValue, xorOut)
                 == Crc(poly, a + b, crc, initValue, xorOut))
            <==> initValue == xorOut
  {
    hide Crc;
    if initValue == xorOut {
      forall a: bytes, b: bytes, crc: Word
        ensures Crc(poly, b, Crc(poly, a, crc, initValue, xorOut), initValue, xorOut)
                == Crc(poly, a + b, crc, initValue, xorOut)
      {
        Continue(poly, a, b, crc, xorOut);
      }
    } else {
      EmptyDiffers(poly, initValue, xorOut);
      var none: bytes := [];
      assert none + none == none;
    }
  }

  lemma EmptyDiffers(poly: Word, initValue: Word, xorOut: Word)
    requires initValue != xorOut
    ensures Crc(poly, [], Crc(poly, [], ZEROS, initValue, xorOut), initValue, xorOut)
            != Crc(poly, [], ZEROS, initValue, xorOut)
  {
  }
}

/** src/oatpp/data/buffer/FIFOBuffer.cpp: a ring of bytes in an array, against a bounded queue. */
module Fifo {
  import opened Bytes

  /** What the operations return: a byte count (a negative one is an error code of a stream), a request to try again, or
      an exception. */
  datatype IoResult = Moved(n: int) | RetryRead | RetryWrite | Thrown

  datatype Transfer = Transfer(result: IoResult, data: bytes)

  /** m_readPosition, m_writePosition and m_canRead. */
  datatype Ring = Ring(r: nat, w: nat, canRead: bool)

  predicate Fits(p: Ring, size: nat) {
    p.r <= size && p.w <= size && (p.canRead || p.r == p.w)
  }

  /** The bytes waiting in the buffer, oldest first. */
  function Queue(buf: bytes, p: Ring): bytes
    requires Fits(p, |buf|)
  {
    if !p.canRead then []
    else if p.r < p.w then buf[p.r..p.w]
    else buf[p.r..] + buf[..p.w]
  }

  function Min(a: int, b: int): int {
    if a < b then a else b
  }

  /** `availableToRead` */
  function Readable(p: Ring, size: nat): (n: int)
    requires Fits(p, size)
    ensures 0 <= n <= size
  {
    if !p.canRead then 0
    else if p.r < p.w then p.w - p.r
    else size - p.r + p.w
  }

  /** `availableToWrite` */
  function Writable(p: Ring, size: nat): (n: int)
    requires Fits(p, size)
    ensures 0 <= n <= size
  {
    if p.canRead && p.w == p.r then 0
    else if p.w < p.r then p.r - p.w
    else size - p.w + p.r
  }

  lemma Availability(buf: bytes, p: Ring)
    requires Fits(p, |buf|)
    ensures Readable(p, |buf|) == |Queue(buf, p)|
    ensures Readable(p, |buf|) + Writable(p, |buf|) == |buf|
  {
  }

  // ----- Refusals -----

  /** Nothing waits, but the read position is left at the end of the buffer: reading is not refused. */
  predicate EmptyAtEnd(p: Ring, size: nat) {
    p.canRead && p.r == size && p.w == 0
  }

  /** `read` and `peek` refuse exactly when nothing waits, except in that one state. */
  lemma RefusesRead(buf: bytes, p: Ring)
    requires Fits(p, |buf|)
    ensures !p.canRead <==> Queue(buf, p) == [] && !EmptyAtEnd(p, |buf|)
  {
    Availability(buf, p);
  }

  /** No room is left, but the write position is left at the end of the buffer (or the buffer has no bytes at all and
      was never written): writing is not refused. */
  predicate FullAtEnd(p: Ring, size: nat) {
    p.r == 0 && p.w == size && (size > 0 || !p.canRead)
  }

  /** `write` refuses exactly when no room is left, except in that one state. */
  lemma RefusesWrite(buf: bytes, p: Ring)
    requires Fits(p, |buf|)
    ensures p.canRead && p.w == p.r <==> |Queue(buf, p)| == |buf| && !FullAtEnd(p, |buf|)
  {
    Availability(buf, p);
  }

  /** A stream transfer leads there: one byte is put into a buffer of one byte and given to a stream. The queue is
      empty, and reading gives no bytes instead of being refused. */
  lemma EmptyNotRefused(x: byte, count: nat)
    ensures var p := Drained(Extend(Ring(0, 0, false), 1, 1), 1, 2, 1);
            p == Ring(1, 0, true) && Queue([x], p) == []
              && Taking(Queue([x], p), p.canRead, count) == Transfer(Moved(0), [])
  {
    assert [x][1..] + [x][..0] == [];
  }

  /** And from a stream: its bytes fill the buffer from the start, no room is left, and writing moves no bytes instead
      of being refused. */
  lemma FullNotRefused(size: nat, count: nat)
    requires size > 0
    ensures var p := Filled(Ring(0, 0, false), size, size, size);
            p == Ring(0, size, true) && Writable(p, size) == 0
              && Putting(Writable(p, size), p.canRead && p.w == p.r, count) == Moved(0)
  {
  }

  // ----- Taking bytes out -----

  /** What `read` and `peek` hand over from a queue; `commitReadOffset` returns the same result. */
  function Taking(q: bytes, readable: bool, count: int): Transfer {
    if !readable then Transfer(RetryRead, [])
    else if count < 0 then Transfer(Thrown, [])
    else Transfer(Moved(Min(count, |q|)), q[..Min(count, |q|)])
  }

  /** The oldest bytes, in their order: as many as asked for, or all of them. */
  lemma TakesAsMany(q: bytes, readable: bool, count: int)
    ensures var t := Taking(q, readable, count);
            && (t.result == RetryRead <==> !readable) && (t.result == Thrown <==> readable && count < 0)
            && (t.result.Moved? <==> readable && count >= 0)
            && (t.result.Moved? ==> t.result.n == |t.data| && |t.data| <= count && (|t.data| == count || t.data == q))
            && t.data <= q
  {
  }

  /** The positions after n bytes have been taken. */
  function Advance(p: Ring, size: nat, n: nat): (q: Ring)
    requires Fits(p, size) && p.canRead && n <= Readable(p, size)
    ensures Fits(q, size)
  {
    var r := if p.r < p.w || size - p.r > n then p.r + n else n - (size - p.r);
    Ring(r, p.w, r != p.w)
  }

  lemma AdvanceQueue(buf: bytes, p: Ring, n: nat)
    requires Fits(p, |buf|) && p.canRead && n <= Readable(p, |buf|) && (n > 0 || p.r == |buf|)
    ensures Queue(buf, Advance(p, |buf|, n)) == Queue(buf, p)[n..]
  {
  }

  /** The first n waiting bytes lie in one or two pieces. */
  lemma TakenPieces(buf: bytes, p: Ring, n: nat)
    requires Fits(p, |buf|) && p.canRead && n <= Readable(p, |buf|)
    ensures Queue(buf, p)[..n]
            == if p.r < p.w || |buf| - p.r > n then buf[p.r..p.r + n] else buf[p.r..] + buf[..n - (|buf| - p.r)]
  {
  }

  // ----- Putting bytes in -----

  /** The positions after n bytes have been put. */
  function Extend(p: Ring, size: nat, n: nat): (q: Ring)
    requires Fits(p, size) && n <= Writable(p, size) && !(p.canRead && p.w == p.r)
    ensures Fits(q, size)
  {
    var w := if p.w < p.r || size - p.w > n then p.w + n else n - (size - p.w);
    Ring(p.r, w, true)
  }

  /** What `write` returns, given the free room. */
  function Putting(room: nat, full: bool, count: int): (result: IoResult)
    ensures result.Moved? ==> 0 <= result.n <= count
  {
    if full then RetryWrite
    else if count < 0 then Thrown
    else Moved(Min(count, room))
  }

  /** As many as given, or as much as there is room. */
  lemma PutsAsMany(room: nat, full: bool, count: int)
    ensures var result := Putting(room, full, count);
            && (result == RetryWrite <==> full) && (result == Thrown <==> !full && count < 0)
            && (result.Moved? <==> !full && count >= 0)
            && (result.Moved? ==> result.n <= count && result.n <= room && (result.n == count || result.n == room))
  {
  }

  /** memcpy into a buffer. */
  function Overwrite(buf: bytes, at: nat, data: bytes): (r: bytes)
    requires at + |data| <= |buf|
    ensures |r| == |buf|
  {
    buf[..at] + data + buf[at + |data|..]
  }

  lemma OverwriteAt(buf: bytes, at: nat, data: bytes)
    requires at + |data| <= |buf|
    ensures forall k :: 0 <= k < |buf| ==>
            Overwrite(buf, at, data)[k] == if at <= k < at + |data| then data[k - at] else buf[k]
  {
  }

  /** The buffer after the bytes have been copied behind the write position, and the rest to the start. */
  function Stored(buf: bytes, p: Ring, data: bytes): (r: bytes)
    requires Fits(p, |buf|) && |data| <= Writable(p, |buf|)
    ensures |r| == |buf|
  {
    if p.w < p.r || |buf| - p.w > |data| then Overwrite(buf, p.w, data)
    else Overwrite(Overwrite(buf, p.w, data[..|buf| - p.w]), 0, data[|buf| - p.w..])
  }

  lemma StoredQueue(buf: bytes, p: Ring, data: bytes)
    requires Fits(p, |buf|) && !(p.canRead && p.w == p.r) && |data| <= Writable(p, |buf|)
    requires data != [] || p.canRead || buf == []
    ensures Queue(Stored(buf, p, data), Extend(p, |buf|, |data|)) == Queue(buf, p) + data
  {
    hide Overwrite;
    if p.w < p.r || |buf| - p.w > |data| {
      OverwriteAt(buf, p.w, data);
    } else {
      var first := data[..|buf| - p.w];
      OverwriteAt(buf, p.w, first);
      OverwriteAt(Overwrite(buf, p.w, first), 0, data[|buf| - p.w..]);
    }
    StoredQueueAt(buf, Stored(buf, p, data), p, data);
  }

  lemma StoredQueueAt(buf: bytes, stored: bytes, p: Ring, data: bytes)
    requires Fits(p, |buf|) && !(p.canRead && p.w == p.r) && |data| <= Writable(p, |buf|)
    requires data != [] || p.canRead || buf == []
    requires |stored| == |buf|
    requires forall k :: 0 <= k < |buf| ==>
               stored[k] == (if p.w <= k < p.w + |data| then data[k - p.w]
                             else if p.w >= p.r && k < |data| - (|buf| - p.w) then data[k + (|buf| - p.w)]
                             else buf[k])
    ensures Queue(stored, Extend(p, |buf|, |data|)) == Queue(buf, p) + data
  {
    hide Queue;
    var q := Extend(p, |buf|, |data|);
    var before, after := Queue(buf, p), Queue(stored, q);
    Availability(buf, p);
    Availability(stored, q);
    forall k | 0 <= k < |after|
      ensures after[k] == (before + data)[k]
    {
      QueueAt(stored, q, k);
      if k < |before| {
        QueueAt(buf, p, k);
      }
    }
  }

  lemma QueueAt(buf: bytes, p: Ring, k: nat)
    requires Fits(p, |buf|) && k < |Queue(buf, p)|
    ensures var i := if p.r + k < |buf| then p.r + k else p.r + k - |buf|; 0 <= i < |buf| && Queue(buf, p)[k] == buf[i]
  {
  }

  // ----- Transfers from and to streams -----

  /** The piece of the buffer a transfer touches in its one call of the stream: its place and its size. */
  datatype Piece = Piece(at: nat, size: nat)

  /** The piece that is offered to a stream. When the read position is at the end, the count does not limit it. */
  function Offered(p: Ring, size: nat, count: nat): (piece: Piece)
    requires Fits(p, size) && p.canRead && count > 0
    ensures piece.at + piece.size <= size && piece.size <= Readable(p, size)
  {
    if p.r < p.w then Piece(p.r, Min(p.w - p.r, count))
    else if size - p.r > count then Piece(p.r, count)
    else if size == p.r then Piece(0, p.w)
    else Piece(p.r, size - p.r)
  }

  /** The count is respected unless the read position is at the end and more than count bytes wait at the start. */
  lemma OfferedWithinCount(p: Ring, size: nat, count: nat)
    requires Fits(p, size) && p.canRead && count > 0
    ensures Offered(p, size, count).size <= count <==> !(p.r == size && p.w <= p.r && p.w > count)
  {
  }

  /** The stream is offered all that waits, or as much as asked for, or all up to the end of the buffer; and something,
      if something waits. */
  lemma OfferedIsMost(p: Ring, size: nat, count: nat)
    requires Fits(p, size) && p.canRead && count > 0
    ensures var piece := Offered(p, size, count);
            && (piece.size == Readable(p, size) || piece.size == count || piece.at + piece.size == size)
            && (piece.size > 0 <==> Readable(p, size) > 0)
            && piece.at == (if p.r == size && p.w <= p.r then 0 else p.r)
  {
  }

  /** The positions after a stream took n bytes. */
  function Drained(p: Ring, size: nat, count: nat, n: nat): (q: Ring)
    requires Fits(p, size) && p.canRead && count > 0 && n <= Offered(p, size, count).size
    ensures Fits(q, size)
  {
    if n == 0 then p
    else if p.r < p.w then Ring(p.r + n, p.w, p.r + n != p.w)
    else if size == p.r then Ring(n, p.w, n != p.w)
    else Ring(p.r + n, p.w, true)
  }

  lemma FitsInside(p: Ring, size: nat)
    requires Fits(p, size)
    ensures p.r <= size && p.w <= size
  {
  }

  lemma OfferedFront(p: Ring, size: nat, count: nat)
    requires Fits(p, size) && p.canRead && count > 0 && p.r < p.w
    ensures Offered(p, size, count) == Piece(p.r, Min(p.w - p.r, count)) && 0 <= Min(p.w - p.r, count) <= p.w - p.r
  {
  }

  lemma DrainedFront(p: Ring, size: nat, count: nat, n: nat)
    requires Fits(p, size) && p.canRead && count > 0 && p.r < p.w && n <= Offered(p, size, count).size
    ensures Drained(p, size, count, n) == Ring(p.r + n, p.w, p.r + n != p.w)
  {
  }

  lemma OfferedStart(p: Ring, size: nat, count: nat)
    requires Fits(p, size) && p.canRead && count > 0 && p.w <= p.r == size
    ensures Offered(p, size, count) == Piece(0, p.w)
  {
  }

  lemma DrainedStart(p: Ring, size: nat, count: nat, n: nat)
    requires Fits(p, size) && p.canRead && count > 0 && p.w <= p.r == size && n <= Offered(p, size, count).size
    ensures Drained(p, size, count, n) == if n == 0 then p else Ring(n, p.w, n != p.w)
  {
  }

  lemma OfferedBack(p: Ring, size: nat, count: nat)
    requires Fits(p, size) && p.canRead && count > 0 && p.w <= p.r < size
    ensures Offered(p, size, count) == Piece(p.r, if size - p.r > count then count else size - p.r)
  {
  }

  lemma DrainedBack(p: Ring, size: nat, count: nat, n: nat)
    requires Fits(p, size) && p.canRead && count > 0 && p.w <= p.r < size && n <= Offered(p, size, count).size
    ensures Drained(p, size, count, n) == Ring(p.r + n, p.w, true)
  {
  }

  /** The piece is the start of the queue. */
  lemma OfferedPiece(buf: bytes, p: Ring, count: nat)
    requires Fits(p, |buf|) && p.canRead && count > 0
    ensures var q := Queue(buf, p); var piece := Offered(p, |buf|, count);
            |q| == Readable(p, |buf|) && buf[piece.at..piece.at + piece.size] == q[..piece.size]
  {
    hide Queue;
    Availability(buf, p);
    var q, piece := Queue(buf, p), Offered(p, |buf|, count);
    forall k | 0 <= k < piece.size
      ensures buf[piece.at..piece.at + piece.size][k] == q[..piece.size][k]
    {
      QueueAt(buf, p, k);
    }
  }

  lemma DrainedQueue(buf: bytes, p: Ring, count: nat, n: nat)
    requires Fits(p, |buf|) && p.canRead && count > 0 && n <= Offered(p, |buf|, count).size
    ensures n <= |Queue(buf, p)| == Readable(p, |buf|) && Queue(buf, Drained(p, |buf|, count, n)) == Queue(buf, p)[n..]
  {
    hide Queue;
    var before, after := Queue(buf, p), Queue(buf, Drained(p, |buf|, count, n));
    Availability(buf, p);
    Availability(buf, Drained(p, |buf|, count, n));
    DrainedSize(buf, p, count, n);
    forall k | 0 <= k < |after|
      ensures after[k] == before[n..][k]
    {
      QueueAt(buf, Drained(p, |buf|, count, n), k);
      QueueAt(buf, p, n + k);
    }
  }

  lemma DrainedSize(buf: bytes, p: Ring, count: nat, n: nat)
    requires Fits(p, |buf|) && p.canRead && count > 0 && n <= Offered(p, |buf|, count).size
    ensures Readable(Drained(p, |buf|, count, n), |buf|) == Readable(p, |buf|) - n
  {
  }

  /** The room that is offered to a stream to fill. When the write position is at the end, the count does not limit
      it. */
  function Room(p: Ring, size: nat, count: nat): (piece: Piece)
    requires Fits(p, size) && !(p.canRead && p.w == p.r) && count > 0
    ensures piece.at + piece.size <= size && piece.size <= Writable(p, size)
  {
    if p.w < p.r then Piece(p.w, Min(p.r - p.w, count))
    else if size - p.w > count then Piece(p.w, count)
    else if size == p.w then Piece(0, p.r)
    else Piece(p.w, size - p.w)
  }

  lemma RoomWithinCount(p: Ring, size: nat, count: nat)
    requires Fits(p, size) && !(p.canRead && p.w == p.r) && count > 0
    ensures Room(p, size, count).size <= count <==> !(p.w == size && p.r <= p.w && p.r > count)
  {
  }

  lemma RoomIsMost(p: Ring, size: nat, count: nat)
    requires Fits(p, size) && !(p.canRead && p.w == p.r) && count > 0
    ensures var piece := Room(p, size, count);
            && (piece.size == Writable(p, size) || piece.size == count || piece.at + piece.size == size)
            && (piece.size > 0 <==> Writable(p, size) > 0)
            && piece.at == (if p.w == size && p.r <= p.w then 0 else p.w)
  {
  }

  /** The positions after a stream gave n bytes. */
  function Filled(p: Ring, size: nat, count: nat, n: nat): (q: Ring)
    requires Fits(p, size) && !(p.canRead && p.w == p.r) && count > 0 && n <= Room(p, size, count).size
    ensures Fits(q, size)
  {
    if n == 0 then p
    else if p.w >= p.r && size == p.w then Ring(p.r, n, true)
    else Ring(p.r, p.w + n, true)
  }

  lemma FilledQueue(buf: bytes, stored: bytes, p: Ring, count: nat, data: bytes)
    requires Fits(p, |buf|) && !(p.canRead && p.w == p.r) && count > 0 && |data| <= Room(p, |buf|, count).size
    requires |stored| == |buf| && forall k :: 0 <= k < |buf| ==>
               stored[k] == (var at := Room(p, |buf|, count).at; if at <= k < at + |data| then data[k - at] else buf[k])
    ensures Queue(stored, Filled(p, |buf|, count, |data|)) == Queue(buf, p) + data
  {
    hide Queue;
    var q := Filled(p, |buf|, count, |data|);
    var before, after := Queue(buf, p), Queue(stored, q);
    Availability(buf, p);
    Availability(stored, q);
    forall k | 0 <= k < |after|
      ensures after[k] == (before + data)[k]
    {
      QueueAt(stored, q, k);
      if k < |before| {
        QueueAt(buf, p, k);
      }
    }
  }

  // ----- Streams on the other side -----

  /** A WriteCallback: it takes a prefix of what it is offered, or reports an error. */
  class Sink {
    var taken: bytes

    constructor ()
      ensures taken == []
    {
      taken := [];
    }

    method Write(data: bytes) returns (n: int)
      modifies this
      ensures n <= |data| && taken == old(taken) + data[..Max0(n)]
    {
      n := *;
      if n > |data| {
        n := |data|;
      }
      taken := taken + data[..Max0(n)];
    }

    /** `writeExactSizeDataSimple`: writes until everything is written or a write fails. */
    method WriteExact(data: bytes) returns (total: nat)
      modifies this
      ensures total <= |data| && taken == old(taken) + data[..total]
    {
      var k: int := *;
      total := if 0 <= k <= |data| then k else |data|;
      taken := taken + data[..total];
    }
  }

  /** A ReadCallback: it gives at most what it is asked for, or reports an error. */
  class Source {
    var given: bytes

    constructor ()
      ensures given == []
    {
      given := [];
    }

    method Read(limit: nat) returns (n: int, data: bytes)
      modifies this
      ensures n <= limit && |data| == Max0(n) && given == old(given) + data
    {
      data := *;
      if |data| > limit {
        data := data[..limit];
      }
      n := *;
      if data != [] || n > 0 {
        n := |data|;
      }
      given := given + data;
    }
  }

  function Max0(n: int): nat {
    if n > 0 then n else 0
  }

  // ----- The buffer -----

  class FIFOBuffer {
    const buffer: array<byte>
    var readPosition: nat
    var writePosition: nat
    var canRead: bool

    /** Everything that was ever put in, and everything that was ever taken out. */
    ghost var added: bytes
    ghost var removed: bytes

    function Positions(): Ring
      reads this
    {
      Ring(readPosition, writePosition, canRead)
    }

    ghost predicate Valid()
      reads this, buffer
    {
      Fits(Positions(), buffer.Length) && added == removed + Queue(buffer[..], Positions())
    }

    ghost function Contents(): bytes
      reads this, buffer
      requires Valid()
    {
      Queue(buffer[..], Positions())
    }

    constructor (buffer: array<byte>)
      ensures Valid() && this.buffer == buffer && Contents() == [] && added == [] && removed == []
    {
      this.buffer := buffer;
      readPosition, writePosition, canRead := 0, 0, false;
      added, removed := [], [];
    }

    method AvailableToRead() returns (n: int)
      requires Valid()
      ensures n == |Contents()|
    {
      Availability(buffer[..], Positions());
      if !canRead {
        return 0;
      }
      if readPosition < writePosition {
        return writePosition - readPosition;
      }
      n := buffer.Length - readPosition + writePosition;
    }

    method AvailableToWrite() returns (n: int)
      requires Valid()
      ensures n == buffer.Length - |Contents()|
    {
      Availability(buffer[..], Positions());
      if canRead && writePosition == readPosition {
        return 0;
      }
      if writePosition < readPosition {
        return readPosition - writePosition;
      }
      n := buffer.Length - writePosition + readPosition;
    }

    /** The n oldest bytes, from one or two pieces of the buffer. */
    method Pieces(count: nat) returns (data: bytes)
      requires Fits(Positions(), buffer.Length) && canRead && count > 0
      ensures data == Queue(buffer[..], Positions())[..Min(count, Readable(Positions(), buffer.Length))]
    {
      hide Queue;
      Availability(buffer[..], Positions());
      TakenPieces(buffer[..], Positions(), Min(count, Readable(Positions(), buffer.Length)));
      if readPosition < writePosition {
        var size := Min(writePosition - readPosition, count);
        return buffer[readPosition..readPosition + size];
      }
      var size := buffer.Length - readPosition;
      if size > count {
        return buffer[readPosition..readPosition + count];
      }
      var size2 := Min(writePosition, count - size);
      data := buffer[readPosition..] + buffer[..size2];
    }

    /** How the positions move. */
    method MoveReadPosition(count: nat) returns (n: nat)
      requires Fits(Positions(), buffer.Length) && canRead && count > 0
      modifies this`readPosition, this`canRead
      ensures n == Min(count, Readable(old(Positions()), buffer.Length))
      ensures Positions() == Advance(old(Positions()), buffer.Length, n)
    {
      if readPosition < writePosition {
        var size := Min(writePosition - readPosition, count);
        readPosition := readPosition + size;
        if readPosition == writePosition {
          canRead := false;
        }
        return size;
      }
      var size := buffer.Length - readPosition;
      if size > count {
        readPosition := readPosition + count;
        return count;
      }
      var size2 := Min(writePosition, count - size);
      readPosition := size2;
      if readPosition == writePosition {
        canRead := false;
      }
      n := size + size2;
    }

    method Peek(count: int) returns (t: Transfer)
      requires Valid()
      ensures t == Taking(Contents(), canRead, count)
      ensures t.result == RetryRead <==> Contents() == [] && !EmptyAtEnd(Positions(), buffer.Length)
    {
      hide Queue;
      RefusesRead(buffer[..], Positions());
      if !canRead {
        return Transfer(RetryRead, []);
      }
      if count == 0 {
        return Transfer(Moved(0), []);
      } else if count < 0 {
        return Transfer(Thrown, []);
      }
      TakingNow(buffer[..], Positions(), count, removed);
      var data := Pieces(count);
      t := Transfer(Moved(|data|), data);
    }

    method CommitReadOffset(count: int) returns (result: IoResult)
      requires Valid()
      modifies this
      ensures Valid() && added == old(added)
      ensures var t := Taking(old(Contents()), old(canRead), count);
              && result == t.result
              && Contents() == old(Contents())[|t.data|..] && removed == old(removed) + t.data
              && Positions()
                 == if t.result.Moved? && count > 0 then Advance(old(Positions()), buffer.Length, |t.data|)
                    else old(Positions())
      ensures result == RetryRead <==> old(Contents()) == [] && !EmptyAtEnd(old(Positions()), buffer.Length)
    {
      hide Queue, Advance, EmptyAtEnd;
      RefusesRead(buffer[..], Positions());
      if !canRead {
        return RetryRead;
      }
      if count == 0 {
        return Moved(0);
      } else if count < 0 {
        return Thrown;
      }
      ghost var buf, q := buffer[..], Queue(buffer[..], Positions());
      TakingNow(buf, Positions(), count, removed);
      var n := MoveReadPosition(count);
      removed := removed + q[..n];
      result := Moved(n);
    }

    method Read(count: int) returns (t: Transfer)
      requires Valid()
      modifies this
      ensures Valid() && added == old(added)
      ensures t == Taking(old(Contents()), old(canRead), count)
      ensures t.result == RetryRead <==> old(Contents()) == [] && !EmptyAtEnd(old(Positions()), buffer.Length)
      ensures Contents() == old(Contents())[|t.data|..] && removed == old(removed) + t.data
      ensures Positions()
              == if t.result.Moved? && count > 0 then Advance(old(Positions()), buffer.Length, |t.data|)
                 else old(Positions())
    {
      hide Queue, Advance, EmptyAtEnd;
      RefusesRead(buffer[..], Positions());
      if !canRead {
        return Transfer(RetryRead, []);
      }
      if count == 0 {
        return Transfer(Moved(0), []);
      } else if count < 0 {
        return Transfer(Thrown, []);
      }
      ghost var buf := buffer[..];
      TakingNow(buf, Positions(), count, removed);
      var data := Pieces(count);
      var n := MoveReadPosition(count);
      removed := removed + data;
      t := Transfer(Moved(n), data);
    }

    /** memcpy of data to a place in the buffer. */
    method CopyIn(at: nat, data: bytes)
      requires at + |data| <= buffer.Length
      modifies buffer
      ensures buffer[..] == Overwrite(old(buffer[..]), at, data)
    {
      forall k | 0 <= k < |data| {
        buffer[at + k] := data[k];
      }
      OverwriteAt(old(buffer[..]), at, data);
    }

    /** The two memcpy calls of `write`, and how the position moves. */
    method CopyBehind(source: bytes, count: nat) returns (n: nat)
      requires Fits(Positions(), buffer.Length) && !(canRead && writePosition == readPosition) && 0 < count <= |source|
      modifies this`writePosition, this`canRead, buffer
      ensures n == Min(count, Writable(old(Positions()), buffer.Length))
      ensures Positions() == Extend(old(Positions()), buffer.Length, n)
      ensures buffer[..] == Stored(old(buffer[..]), old(Positions()), source[..n])
    {
      hide Overwrite;
      canRead := true;
      if writePosition < readPosition {
        var size := Min(readPosition - writePosition, count);
        CopyIn(writePosition, source[..size]);
        writePosition := writePosition + size;
        return size;
      }
      var size := buffer.Length - writePosition;
      if size > count {
        CopyIn(writePosition, source[..count]);
        writePosition := writePosition + count;
        return count;
      }
      var size2 := Min(readPosition, count - size);
      assert source[..size + size2][..size] == source[..size];
      assert source[..size + size2][size..] == source[size..size + size2];
      CopyIn(writePosition, source[..size]);
      CopyIn(0, source[size..size + size2]);
      writePosition := size2;
      n := size + size2;
    }

    method Write(source: bytes, count: int) returns (result: IoResult)
      requires Valid() && count <= |source|
      modifies this, buffer
      ensures Valid() && removed == old(removed)
      ensures result == Putting(buffer.Length - |old(Contents())|, old(canRead && writePosition == readPosition), count)
      ensures result == RetryWrite
              <==> |old(Contents())| == buffer.Length && !FullAtEnd(old(Positions()), buffer.Length)
      ensures var n := if result.Moved? then result.n else 0;
              Contents() == old(Contents()) + source[..n] && added == old(added) + source[..n]
    {
      hide Queue, Extend, Stored, FullAtEnd;
      RefusesWrite(buffer[..], Positions());
      if canRead && writePosition == readPosition {
        return RetryWrite;
      }
      if count == 0 {
        return Moved(0);
      } else if count < 0 {
        return Thrown;
      }
      ghost var buf, p := buffer[..], Positions();
      Availability(buf, p);
      var n := CopyBehind(source, count);
      StoredQueue(buf, p, source[..n]);
      Append(removed, Queue(buf, p), source[..n]);
      added := added + source[..n];
      result := Moved(n);
    }

    /** `readAndWriteToStream` */
    method ReadAndWriteToStream(stream: Sink, count: int) returns (result: IoResult)
      requires Valid() && stream as object != this
      modifies this, stream
      ensures Valid() && added == old(added)
      ensures result == RetryRead <==> old(Contents()) == [] && !EmptyAtEnd(old(Positions()), buffer.Length)
      ensures if old(!canRead) || count <= 0 then
                result == Taking([], old(canRead), count).result && Contents() == old(Contents())
                  && stream.taken == old(stream.taken)
              else
                && result.Moved? && result.n <= Offered(old(Positions()), buffer.Length, count).size
                && stream.taken == old(stream.taken) + old(Contents())[..Max0(result.n)]
                && Contents() == old(Contents())[Max0(result.n)..]
    {
      hide Queue, Offered, Drained, EmptyAtEnd;
      RefusesRead(buffer[..], Positions());
      if !canRead {
        return RetryRead;
      }
      if count == 0 {
        return Moved(0);
      } else if count < 0 {
        return Thrown;
      }
      ghost var buf, p := buffer[..], Positions();
      OfferedPiece(buf, p, count);
      var n := WritePiece(stream, count);
      DrainedQueue(buf, p, count, Max0(n));
      Append(removed, Queue(buf, p)[..Max0(n)], Queue(buf, p)[Max0(n)..]);
      assert Queue(buf, p) == Queue(buf, p)[..Max0(n)] + Queue(buf, p)[Max0(n)..];
      removed := removed + Queue(buf, p)[..Max0(n)];
      result := Moved(n);
    }

    /** The part of `readAndWriteToStream` that calls the stream once. */
    method WritePiece(stream: Sink, count: nat) returns (n: int)
      requires Fits(Positions(), buffer.Length) && canRead && count > 0 && stream as object != this
      modifies this`readPosition, this`canRead, stream
      ensures var piece := Offered(old(Positions()), buffer.Length, count);
              && n <= piece.size
              && stream.taken == old(stream.taken) + buffer[piece.at..piece.at + piece.size][..Max0(n)]
              && Positions() == Drained(old(Positions()), buffer.Length, count, Max0(n))
    {
      hide Offered, Drained, Min, Fits;
      ghost var p := Positions();
      FitsInside(p, buffer.Length);
      if readPosition < writePosition {
        var size := Min(writePosition - readPosition, count);
        OfferedFront(p, buffer.Length, count);
        n := Send(stream, readPosition, size);
        if n > 0 {
          readPosition := readPosition + n;
          if readPosition == writePosition {
            canRead := false;
          }
        }
        DrainedFront(p, buffer.Length, count, Max0(n));
        return;
      }
      var size := buffer.Length - readPosition;
      if size > count {
        size := count;
      } else if size == 0 {
        OfferedStart(p, buffer.Length, count);
        n := Send(stream, 0, writePosition);
        if n > 0 {
          readPosition := n;
          if readPosition == writePosition {
            canRead := false;
          }
        }
        DrainedStart(p, buffer.Length, count, Max0(n));
        return;
      }
      OfferedBack(p, buffer.Length, count);
      n := Send(stream, readPosition, size);
      if n > 0 {
        readPosition := readPosition + n;
      }
      DrainedBack(p, buffer.Length, count, Max0(n));
    }

    /** The stream reads from the buffer. */
    method Send(stream: Sink, at: nat, size: nat) returns (n: int)
      requires at + size <= buffer.Length && stream as object != this
      modifies stream
      ensures n <= size && stream.taken == old(stream.taken) + buffer[at..at + size][..Max0(n)]
    {
      n := stream.Write(buffer[at..at + size]);
    }

    /** `readFromStreamAndWrite` */
    method ReadFromStreamAndWrite(stream: Source, count: int) returns (result: IoResult, ghost data: bytes)
      requires Valid() && stream as object != this && stream as object != buffer
      modifies this, buffer, stream
      ensures Valid() && removed == old(removed)
      ensures result == RetryWrite
              <==> |old(Contents())| == buffer.Length && !FullAtEnd(old(Positions()), buffer.Length)
      ensures if old(canRead && writePosition == readPosition) || count <= 0 then
                && result == Putting(0, old(canRead && writePosition == readPosition), count)
                && Contents() == old(Contents()) && stream.given == old(stream.given)
              else
                && result.Moved? && result.n <= Room(old(Positions()), buffer.Length, count).size
                  && |data| == Max0(result.n)
                && stream.given == old(stream.given) + data && Contents() == old(Contents()) + data
    {
      hide Queue, Room, Filled, FullAtEnd;
      RefusesWrite(buffer[..], Positions());
      if canRead && writePosition == readPosition {
        return RetryWrite, [];
      }
      if count == 0 {
        return Moved(0), [];
      } else if count < 0 {
        return Thrown, [];
      }
      ghost var buf, p := buffer[..], Positions();
      var n;
      n, data := ReadPiece(stream, count);
      FilledQueue(buf, buffer[..], p, count, data);
      Append(removed, Queue(buf, p), data);
      added := added + data;
      result := Moved(n);
    }

    /** The part of `readFromStreamAndWrite` that calls the stream once. */
    method ReadPiece(stream: Source, count: nat) returns (n: int, ghost data: bytes)
      requires Fits(Positions(), buffer.Length) && !(canRead && writePosition == readPosition) && count > 0
      requires stream as object != this && stream as object != buffer
      modifies this`writePosition, this`canRead, buffer, stream
      ensures n <= Room(old(Positions()), buffer.Length, count).size && |data| == Max0(n)
      ensures stream.given == old(stream.given) + data
      ensures Positions() == Filled(old(Positions()), buffer.Length, count, |data|)
      ensures var at := Room(old(Positions()), buffer.Length, count).at;
              buffer[..] == Overwrite(old(buffer[..]), at, data)
    {
      hide Overwrite;
      if writePosition < readPosition {
        var size := Min(readPosition - writePosition, count);
        n, data := FillFrom(stream, writePosition, size);
        if n > 0 {
          writePosition := writePosition + n;
          canRead := true;
        }
        return;
      }
      var size := buffer.Length - writePosition;
      if size > count {
        size := count;
      } else if size == 0 {
        n, data := FillFrom(stream, 0, readPosition);
        if n > 0 {
          writePosition := n;
          canRead := true;
        }
        return;
      }
      n, data := FillFrom(stream, writePosition, size);
      if n > 0 {
        writePosition := writePosition + n;
        canRead := true;
      }
    }

    /** The stream writes into the buffer. */
    method FillFrom(stream: Source, at: nat, size: nat) returns (n: int, ghost data: bytes)
      requires at + size <= buffer.Length && stream as object != this && stream as object != buffer
      modifies buffer, stream
      ensures n <= size && |data| == Max0(n) && stream.given == old(stream.given) + data
      ensures buffer[..] == Overwrite(old(buffer[..]), at, data)
    {
      var given;
      n, given := stream.Read(size);
      CopyIn(at, given);
      data := given;
    }

    /** `flushToStream`: the buffer is empty afterwards, whether the stream took everything or not. */
    method FlushToStream(stream: Sink) returns (result: nat, ghost first: nat, ghost second: nat)
      requires Valid() && stream as object != this
      modifies this, stream
      ensures Valid() && Contents() == [] && added == old(added) && removed == added
      ensures var q := old(Contents()); var cut := FirstPiece(old(Positions()), buffer.Length);
              && cut <= |q| && first <= cut && second <= |q| - cut && result == first + second
              && stream.taken == old(stream.taken) + q[..cut][..first] + q[cut..][..second]
      ensures result == |old(Contents())| ==> stream.taken == old(stream.taken) + old(Contents())
    {
      hide Queue, FirstPiece, Fits;
      FitsInside(Positions(), buffer.Length);
      ghost var q, cut := Contents(), FirstPiece(Positions(), buffer.Length);
      FlushParts(buffer[..], Positions());
      if !canRead {
        return 0, 0, 0;
      }
      if readPosition < writePosition {
        result := stream.WriteExact(buffer[readPosition..writePosition]);
        first, second := result, 0;
      } else {
        result := stream.WriteExact(buffer[readPosition..]);
        first := result;
        var more := stream.WriteExact(buffer[..writePosition]);
        second := more;
        result := result + more;
      }
      WholeQueue(q, cut);
      readPosition, writePosition, canRead := 0, 0, false;
      removed := added;
      EmptyRing(buffer[..]);
    }
  }

  /** The pieces that a flush writes. */
  lemma FlushParts(buf: bytes, p: Ring)
    requires Fits(p, |buf|)
    ensures var q := Queue(buf, p); var cut := FirstPiece(p, |buf|);
            && cut <= |q|
            && (!p.canRead ==> q == [] && q[..cut][..0] == [] && q[cut..][..0] == [])
            && (p.canRead && p.r < p.w ==> cut == |q| && buf[p.r..p.w] == q[..cut] && q[cut..][..0] == [])
            && (p.canRead && p.r >= p.w ==> buf[p.r..] == q[..cut] && buf[..p.w] == q[cut..])
  {
  }

  lemma EmptyRing(buf: bytes)
    ensures Fits(Ring(0, 0, false), |buf|) && Queue(buf, Ring(0, 0, false)) == []
  {
  }

  /** How much of the queue lies before the end of the buffer. */
  function FirstPiece(p: Ring, size: nat): nat
    requires Fits(p, size)
  {
    if !p.canRead then 0 else if p.r < p.w then p.w - p.r else size - p.r
  }

  lemma WholeQueue(q: bytes, cut: nat)
    requires cut <= |q|
    ensures q[..cut][..cut] + q[cut..][..|q| - cut] == q
  {
  }

  /** What one call takes, and what stays. */
  lemma TakingNow(buf: bytes, p: Ring, count: int, removed: bytes)
    requires Fits(p, |buf|) && p.canRead && count > 0
    ensures var n := Min(count, Readable(p, |buf|)); var q := Queue(buf, p);
            && n <= |q| && Taking(q, true, count) == Transfer(Moved(n), q[..n])
            && Queue(buf, Advance(p, |buf|, n)) == q[n..]
            && (removed + q[..n]) + q[n..] == removed + q
  {
    var n, q := Min(count, Readable(p, |buf|)), Queue(buf, p);
    Availability(buf, p);
    AdvanceQueue(buf, p, n);
    assert q == q[..n] + q[n..];
  }

  lemma Append(a: bytes, b: bytes, c: bytes)
    ensures (a + b) + c == a + (b + c)
  {
  }
}

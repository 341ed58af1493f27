/** audio::Stream as it is written: a raw byte buffer and byte-addressed cursors, changed in place.

    Every method keeps `Valid()` in every state, and moves `View()`, the buffer read as blocks, exactly as
    the block machine of module BlockRing does. */
module StreamBuffer {
  import opened Basics
  import opened BlockRing

  // ----- Block i of a buffer of n blocks

  // Block i ends before block j begins.
  lemma BlockEnds(i: nat, j: nat, size: nat)
    requires i < j
    ensures i * size + size <= j * size
  {
    MulMonotone(i + 1, j, size);
  }

  ghost function BlockOf(mem: seq<uint8>, size: nat, n: nat, i: nat): (b: Block)
    requires |mem| == n * size && i < n
    ensures |b| == size
  {
    BlockEnds(i, n, size);
    mem[i * size..i * size + size]
  }

  ghost function BlocksOf(mem: seq<uint8>, size: nat, n: nat): (bs: seq<Block>)
    requires |mem| == n * size
    ensures |bs| == n
    ensures forall i :: 0 <= i < n ==> bs[i] == BlockOf(mem, size, n, i)
  {
    seq(n, i requires 0 <= i < n => BlockOf(mem, size, n, i))
  }

  // mem' is mem with the bytes from lo onwards replaced by data.
  ghost predicate Overwritten(mem: seq<uint8>, mem': seq<uint8>, lo: nat, data: Block) {
    && |mem| == |mem'| && lo + |data| <= |mem|
    && (forall p :: lo <= p < lo + |data| ==> mem'[p] == data[p - lo])
    && (forall p :: 0 <= p < lo ==> mem'[p] == mem[p])
    && (forall p :: lo + |data| <= p < |mem| ==> mem'[p] == mem[p])
  }

  lemma OverwriteHere(mem: seq<uint8>, mem': seq<uint8>, lo: nat, data: Block)
    requires Overwritten(mem, mem', lo, data)
    ensures mem'[lo..lo + |data|] == data
  {
  }

  lemma OverwriteElsewhere(mem: seq<uint8>, mem': seq<uint8>, lo: nat, data: Block, a: nat)
    requires Overwritten(mem, mem', lo, data)
    requires a + |data| <= lo || lo + |data| <= a
    requires a + |data| <= |mem|
    ensures mem'[a..a + |data|] == mem[a..a + |data|]
  {
  }

  lemma BlockAfterOverwrite(mem: seq<uint8>, mem': seq<uint8>, size: nat, n: nat, i: nat, data: Block, j: nat)
    requires |mem| == n * size && i < n && j < n && |data| == size && Overwritten(mem, mem', i * size, data)
    ensures BlockOf(mem', size, n, j) == if j == i then data else BlockOf(mem, size, n, j)
  {
    if j == i {
      OverwriteHere(mem, mem', i * size, data);
    } else {
      BlockEnds(j, n, size);
      if j < i { BlockEnds(j, i, size); } else { BlockEnds(i, j, size); }
      OverwriteElsewhere(mem, mem', i * size, data, j * size);
    }
  }

  // Overwriting the bytes of one block changes that block and no other.
  lemma OverwriteOneBlock(mem: seq<uint8>, mem': seq<uint8>, size: nat, n: nat, i: nat, data: Block)
    requires |mem| == n * size && i < n && |data| == size && Overwritten(mem, mem', i * size, data)
    ensures BlocksOf(mem', size, n) == BlocksOf(mem, size, n)[i := data]
  {
    forall j | 0 <= j < n
      ensures BlocksOf(mem', size, n)[j] == BlocksOf(mem, size, n)[i := data][j]
    {
      BlockAfterOverwrite(mem, mem', size, n, i, data, j);
    }
  }

  // A cursor is the byte position of a block.
  ghost predicate Cursor(pos: nat, size: nat, n: nat) {
    0 < size && pos % size == 0 && pos < n * size
  }

  lemma CursorIndex(pos: nat, size: nat, n: nat)
    requires Cursor(pos, size, n)
    ensures pos == pos / size * size && pos / size < n && pos + size <= n * size
  {
    var i := pos / size;
    assert pos == i * size;
    if n <= i {
      MulMonotone(n, i, size);
      assert false;
    }
    MulMonotone(i + 1, n, size);
  }

  lemma DivOfMul(i: nat, size: nat)
    requires 0 < size
    ensures i * size / size == i && i * size % size == 0
  {
    var q, r := i * size / size, i * size % size;
    assert i * size == q * size + r;
    assert (i - q) * size == r;
    if q < i {
      MulMonotone(1, i - q, size);
      assert false;
    }
  }

  // RawBlockIterator::operator++ on byte positions
  function Advance(pos: nat, size: nat, total: nat): nat {
    if pos + size == total then 0 else pos + size
  }

  lemma AdvanceIsNext(pos: nat, size: nat, n: nat)
    requires Cursor(pos, size, n)
    ensures pos / size < n
    ensures Cursor(Advance(pos, size, n * size), size, n)
    ensures Advance(pos, size, n * size) / size == Next(n, pos / size)
  {
    CursorIndex(pos, size, n);
    var i := pos / size;
    assert pos + size == (i + 1) * size;
    DivOfMul(i + 1, size);
    DivOfMul(0, size);
    if i + 1 < n {
      MulMonotone(i + 2, n, size);
    }
  }

  lemma CursorsEqualByIndex(a: nat, b: nat, size: nat, n: nat)
    requires Cursor(a, size, n) && Cursor(b, size, n)
    ensures a == b <==> a / size == b / size
  {
    CursorIndex(a, size, n);
    CursorIndex(b, size, n);
  }

  // A pointer and a size.
  datatype Span = Span(mem: array<uint8>, offset: nat, size: nat)

  class Stream {
    const blockSize: nat
    const blockCount: nat
    const buffer: array<uint8>
    const emptyBuffer: array<uint8>
    var dataStart: nat
    var dataEnd: nat
    var peekPosition: nat
    var writeReservationPosition: nat
    var blocksUsed: nat
    var peekCount: nat
    var reserveCount: nat

    ghost predicate Valid()
      reads this
    {
      && 0 < blockSize && 0 < blockCount < SIZE_MODULUS
      && buffer.Length == blockCount * blockSize && emptyBuffer.Length == blockSize
      && buffer != emptyBuffer
      && Cursor(dataStart, blockSize, blockCount) && Cursor(dataEnd, blockSize, blockCount)
      && Cursor(peekPosition, blockSize, blockCount) && Cursor(writeReservationPosition, blockSize, blockCount)
      && blocksUsed < SIZE_MODULUS && peekCount < SIZE_MODULUS && reserveCount < SIZE_MODULUS
    }

    ghost function View(): (r: Ring)
      requires Valid()
      reads this, buffer
      ensures r.WellFormed() && r.blockSize == blockSize && r.Count() == blockCount
    {
      CursorIndex(dataStart, blockSize, blockCount);
      CursorIndex(dataEnd, blockSize, blockCount);
      CursorIndex(peekPosition, blockSize, blockCount);
      CursorIndex(writeReservationPosition, blockSize, blockCount);
      Ring(blockSize, BlocksOf(buffer[..], blockSize, blockCount),
           dataStart / blockSize, dataEnd / blockSize, peekPosition / blockSize, writeReservationPosition / blockSize,
           blocksUsed, peekCount, reserveCount)
    }

    // An empty stream. A zero block size or count would put the cursors outside the buffer.
    constructor (blockSize: nat, bufferingSize: nat)
      requires 0 < blockSize && 0 < bufferingSize < SIZE_MODULUS
      ensures Valid() && fresh(buffer) && fresh(emptyBuffer)
      ensures this.blockSize == blockSize && blockCount == bufferingSize
      ensures View() == ResetStep(View()).0 && Consistent(View())
      ensures forall k :: 0 <= k < blockSize ==> emptyBuffer[k] == 0
    {
      this.blockSize, blockCount := blockSize, bufferingSize;
      buffer := new uint8[bufferingSize * blockSize];
      emptyBuffer := new uint8[blockSize](_ => 0);
      dataStart, dataEnd, peekPosition, writeReservationPosition := 0, 0, 0, 0;
      blocksUsed, peekCount, reserveCount := 0, 0, 0;
      new;
      MulMonotone(1, bufferingSize, blockSize);
      DivOfMul(0, blockSize);
    }

    method Push(data: seq<uint8>) returns (ok: bool, event: Event)
      requires Valid()
      modifies this`dataEnd, this`blocksUsed, this`writeReservationPosition, buffer
      ensures Valid()
      ensures (View(), Reply(ok, event, NoData)) == PushStep(old(View()), data)
    {
      CursorsEqualByIndex(dataEnd, writeReservationPosition, blockSize, blockCount);
      if |data| != blockSize || dataEnd != writeReservationPosition {
        return false, NoEvent;
      }
      if blocksUsed == blockCount {
        return false, StreamOverflow;
      }
      CursorIndex(dataEnd, blockSize, blockCount);
      AdvanceIsNext(dataEnd, blockSize, blockCount);
      forall k | 0 <= k < blockSize {
        buffer[dataEnd + k] := data[k];
      }
      OverwriteOneBlock(old(buffer[..]), buffer[..], blockSize, blockCount, dataEnd / blockSize, data);
      dataEnd := Advance(dataEnd, blockSize, buffer.Length);
      blocksUsed := Wrap(blocksUsed + 1);
      writeReservationPosition := dataEnd;
      return true, StateEvent(blocksUsed, blockCount);
    }

    // The destination is not part of the ring, and of the size its span states. It may be the null block, as when the
    // caller goes on with a span that an underflow redirected; null spans are then no longer silence until the next reset.
    method Pop(dest: array<uint8>) returns (ok: bool, event: Event, span: Span)
      requires Valid() && dest != buffer
      modifies this`dataStart, this`blocksUsed, this`peekPosition, dest
      ensures Valid()
      ensures !ok ==> dest[..] == old(dest[..])
      ensures span == if !ok && event == StreamUnderFlow then Span(emptyBuffer, 0, blockSize)
                      else Span(dest, 0, dest.Length)
      ensures var data := if ok then Bytes(dest[..]) else if event == StreamUnderFlow then NullSpan else NoData;
              (View(), Reply(ok, event, data)) == PopStep(old(View()), dest.Length)
    {
      span := Span(dest, 0, dest.Length);
      CursorsEqualByIndex(dataStart, peekPosition, blockSize, blockCount);
      if dest.Length != blockSize || dataStart != peekPosition {
        return false, NoEvent, span;
      }
      if blocksUsed == 0 {
        return false, StreamUnderFlow, Span(emptyBuffer, 0, blockSize);
      }
      CursorIndex(dataStart, blockSize, blockCount);
      AdvanceIsNext(dataStart, blockSize, blockCount);
      forall k | 0 <= k < blockSize {
        dest[k] := buffer[dataStart + k];
      }
      assert dest[..] == BlockOf(buffer[..], blockSize, blockCount, dataStart / blockSize);
      assert buffer[..] == old(buffer[..]);
      dataStart := Advance(dataStart, blockSize, buffer.Length);
      blocksUsed := blocksUsed - 1;
      peekPosition := dataStart;
      return true, StateEvent(blocksUsed, blockCount), span;
    }

    method Peek() returns (ok: bool, event: Event, span: Span)
      requires Valid()
      modifies this`peekPosition, this`peekCount
      ensures Valid()
      ensures span == if ok then Span(buffer, old(peekPosition), blockSize) else Span(emptyBuffer, 0, blockSize)
      ensures ok ==> old(peekPosition) + blockSize <= buffer.Length
      ensures var data := if ok then Bytes(buffer[old(peekPosition)..old(peekPosition) + blockSize]) else NullSpan;
              (View(), Reply(ok, event, data)) == PeekStep(old(View()))
    {
      if peekCount < blocksUsed {
        CursorIndex(peekPosition, blockSize, blockCount);
        AdvanceIsNext(peekPosition, blockSize, blockCount);
        span := Span(buffer, peekPosition, blockSize);
        peekPosition := Advance(peekPosition, blockSize, buffer.Length);
        peekCount := Wrap(peekCount + 1);
        assert buffer[old(peekPosition)..old(peekPosition) + blockSize]
            == BlockOf(buffer[..], blockSize, blockCount, old(peekPosition) / blockSize);
        return true, NoEvent, span;
      }
      return false, StreamUnderFlow, Span(emptyBuffer, 0, blockSize);
    }

    method Consume() returns (event: Event)
      requires Valid()
      modifies this`blocksUsed, this`peekCount, this`dataStart
      ensures Valid()
      ensures (View(), Reply(true, event, NoData)) == ConsumeStep(old(View()))
    {
      blocksUsed := Wrap(blocksUsed - peekCount);
      peekCount := 0;
      dataStart := peekPosition;
      event := StateEvent(blocksUsed, blockCount);
    }

    method Unpeek()
      requires Valid()
      modifies this`peekPosition, this`peekCount
      ensures Valid()
      ensures View() == UnpeekStep(old(View())).0
    {
      peekPosition := dataStart;
      peekCount := 0;
    }

    method Reserve() returns (ok: bool, event: Event, span: Span)
      requires Valid()
      modifies this`writeReservationPosition, this`reserveCount, this`blocksUsed, this`dataEnd
      ensures Valid()
      ensures span == Span(buffer, writeReservationPosition, blockSize)
      ensures (View(), Reply(ok, event, Reserved(span.offset / blockSize))) == ReserveStep(old(View()))
    {
      if Wrap(blockCount - blocksUsed) > reserveCount {
        AdvanceIsNext(writeReservationPosition, blockSize, blockCount);
        writeReservationPosition := Advance(writeReservationPosition, blockSize, buffer.Length);
        reserveCount := Wrap(reserveCount + 1);
        return true, NoEvent, Span(buffer, writeReservationPosition, blockSize);
      }
      AdvanceIsNext(peekPosition, blockSize, blockCount);
      blocksUsed := 0;
      dataEnd := peekPosition;
      reserveCount := 1;
      writeReservationPosition := Advance(peekPosition, blockSize, buffer.Length);
      return false, StreamOverflow, Span(buffer, writeReservationPosition, blockSize);
    }

    method Commit() returns (event: Event)
      requires Valid()
      modifies this`blocksUsed, this`reserveCount, this`dataEnd
      ensures Valid()
      ensures (View(), Reply(true, event, NoData)) == CommitStep(old(View()))
    {
      blocksUsed := Wrap(blocksUsed + reserveCount);
      reserveCount := 0;
      dataEnd := writeReservationPosition;
      event := StateEvent(blocksUsed, blockCount);
    }

    method Release()
      requires Valid()
      modifies this`reserveCount, this`writeReservationPosition
      ensures Valid()
      ensures View() == ReleaseStep(old(View())).0
    {
      reserveCount := 0;
      writeReservationPosition := dataEnd;
    }

    method Reset()
      requires Valid()
      modifies this, emptyBuffer
      ensures Valid()
      ensures View() == ResetStep(old(View())).0
      ensures forall k :: 0 <= k < blockSize ==> emptyBuffer[k] == 0
    {
      dataStart, dataEnd, peekPosition, writeReservationPosition := 0, 0, 0, 0;
      forall k | 0 <= k < blockSize {
        emptyBuffer[k] := 0;
      }
      blocksUsed, peekCount, reserveCount := 0, 0, 0;
      MulMonotone(1, blockCount, blockSize);
      DivOfMul(0, blockSize);
      assert buffer[..] == old(buffer[..]);
    }
  }

  // A producer filling a span it got from reserve is the block machine's Fill.
  method FillSpan(s: Stream, offset: nat, bytes: seq<uint8>)
    requires s.Valid() && Cursor(offset, s.blockSize, s.blockCount) && |bytes| == s.blockSize
    modifies s.buffer
    ensures s.Valid()
    ensures s.View() == FillStep(old(s.View()), offset / s.blockSize, bytes).0
  {
    CursorIndex(offset, s.blockSize, s.blockCount);
    forall k | 0 <= k < s.blockSize {
      s.buffer[offset + k] := bytes[k];
    }
    OverwriteOneBlock(old(s.buffer[..]), s.buffer[..], s.blockSize, s.blockCount, offset / s.blockSize, bytes);
  }
}

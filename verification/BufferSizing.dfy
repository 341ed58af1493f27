/** Arithmetic: the size of audio stream buffers (StreamFactory.cpp, AudioFormat.cpp, with exact rationals in place of
    double) and the table-driven logarithm of host-tools/genlittlefs/parse_partitions.c. */
module BufferSizing {
  import opened Options
  import opened Basics

  // ----- Division

  lemma DivBounds(a: nat, b: nat)
    requires 0 < b
    ensures a / b * b <= a < (a / b + 1) * b
  {
  }

  lemma MulCancel(a: nat, b: nat, k: nat)
    requires 0 < k && a * k < b * k
    ensures a < b
  {
    if b <= a {
      MulMonotone(b, a, k);
      assert false;
    }
  }

  function CeilDiv(a: nat, b: nat): nat
    requires 0 < b
  {
    (a + b - 1) / b
  }

  lemma CeilDivBounds(a: nat, b: nat)
    requires 0 < b
    ensures a <= CeilDiv(a, b) * b < a + b
  {
    DivBounds(a + b - 1, b);
  }

  // ----- binary::ceilPowerOfTwo

  function Pow2(k: nat): nat {
    if k == 0 then 1 else 2 * Pow2(k - 1)
  }

  function BitLength(x: nat): nat {
    if x == 0 then 0 else 1 + BitLength(x / 2)
  }

  function PopCount(x: nat): nat {
    if x == 0 then 0 else x % 2 + PopCount(x / 2)
  }

  // 0 for 0 and for anything with the top bit set, 2^31 included
  function CeilPowerOfTwo(x: nat): nat {
    if x == 0 || BitLength(x) >= 32 then 0
    else if PopCount(x) == 1 then x
    else Pow2(BitLength(x))
  }

  lemma {:induction false} BitLengthBounds(x: nat)
    requires 0 < x
    ensures 0 < BitLength(x) && Pow2(BitLength(x) - 1) <= x < Pow2(BitLength(x))
  {
    if 1 < x {
      BitLengthBounds(x / 2);
    }
  }

  lemma {:induction false} OneBitIsPower(x: nat)
    requires PopCount(x) == 1
    ensures x == Pow2(BitLength(x) - 1)
    ensures 0 < BitLength(x)
  {
    if x % 2 == 1 {
      PopCountZero(x / 2);
    } else {
      OneBitIsPower(x / 2);
    }
  }

  lemma {:induction false} PopCountZero(x: nat)
    requires PopCount(x) == 0
    ensures x == 0
  {
    if x != 0 {
      PopCountZero(x / 2);
    }
  }

  lemma {:induction false} Pow2Monotone(i: nat, j: nat)
    requires i <= j
    ensures Pow2(i) <= Pow2(j)
    decreases j
  {
    if i < j {
      Pow2Monotone(i, j - 1);
    }
  }

  // Below 2^31 it is the least power of two that is not smaller.
  lemma CeilPowerOfTwoIsLeast(x: nat)
    requires 0 < x < 0x8000_0000
    ensures x <= CeilPowerOfTwo(x) < 2 * x
    ensures exists k :: CeilPowerOfTwo(x) == Pow2(k)
    ensures forall k :: x <= Pow2(k) ==> CeilPowerOfTwo(x) <= Pow2(k)
  {
    BitLengthBounds(x);
    var n := BitLength(x);
    if 32 <= n {
      assert Pow2(31) == 0x8000_0000 by { Pow2Of31(); }
      Pow2Monotone(31, n - 1);
      assert false;
    }
    PowerHasOneBit(n - 1);
    forall k | x <= Pow2(k)
      ensures CeilPowerOfTwo(x) <= Pow2(k)
    {
      if k < n {
        Pow2Monotone(k, n - 1);
      } else {
        Pow2Monotone(n, k);
      }
    }
    if PopCount(x) == 1 {
      OneBitIsPower(x);
    }
  }

  lemma {:induction false} PowerHasOneBit(k: nat)
    ensures PopCount(Pow2(k)) == 1
  {
    if k != 0 {
      PowerHasOneBit(k - 1);
      assert Pow2(k) % 2 == 0 && Pow2(k) / 2 == Pow2(k - 1);
    }
  }

  lemma Pow2Of31()
    ensures Pow2(31) == 0x8000_0000
  {
    assert Pow2(8) == 256;
    assert Pow2(16) == 0x1_0000;
    assert Pow2(24) == 0x100_0000;
  }

  // ----- Rates

  const BITS_IN_BYTE := 8
  const MICROSECONDS := 1_000_000

  datatype AudioFormat = AudioFormat(sampleRate: nat, bitWidth: nat, channels: nat)

  // The product of three unsigned int.
  function Bitrate(f: AudioFormat): nat {
    f.sampleRate * f.bitWidth * f.channels % 0x1_0000_0000
  }

  function BytesPerSecond(f: AudioFormat): nat {
    Bitrate(f) / BITS_IN_BYTE
  }

  function BytesToMicroseconds(rate: nat, bytes: nat): nat
    requires 0 < rate
  {
    bytes * MICROSECONDS / rate
  }

  function MicrosecondsToBytes(rate: nat, us: nat): nat {
    us * rate / MICROSECONDS
  }

  // There and back loses at most one byte for each started 1,000,000 bytes per second, and never gains one; so at most
  // one byte up to that rate.
  lemma BytesThereAndBack(rate: nat, bytes: nat)
    requires 0 < rate
    ensures var back := MicrosecondsToBytes(rate, BytesToMicroseconds(rate, bytes));
            back <= bytes <= back + CeilDiv(rate, MICROSECONDS)
  {
    var us := BytesToMicroseconds(rate, bytes);
    var back := MicrosecondsToBytes(rate, us);
    var loss := CeilDiv(rate, MICROSECONDS);
    DivBounds(bytes * MICROSECONDS, rate);
    DivBounds(us * rate, MICROSECONDS);
    CeilDivBounds(rate, MICROSECONDS);
    assert bytes * MICROSECONDS < us * rate + rate;
    assert us * rate < back * MICROSECONDS + MICROSECONDS;
  }

  // The bytes of one second of sound last a second.
  lemma SecondOfSound(f: AudioFormat)
    requires f.bitWidth % BITS_IN_BYTE == 0 && 0 < f.sampleRate * f.bitWidth * f.channels < 0x1_0000_0000
    ensures var bytes := f.sampleRate * f.channels * (f.bitWidth / BITS_IN_BYTE);
            BytesPerSecond(f) == bytes && 0 < bytes && BytesToMicroseconds(BytesPerSecond(f), bytes) == 1_000_000
  {
    var width := f.bitWidth / BITS_IN_BYTE;
    var bytes := f.sampleRate * f.channels * width;
    assert f.sampleRate * f.bitWidth * f.channels == bytes * BITS_IN_BYTE by {
      assert f.bitWidth == width * BITS_IN_BYTE;
      assert f.sampleRate * (width * BITS_IN_BYTE) * f.channels == f.sampleRate * f.channels * width * BITS_IN_BYTE;
    }
    DivOfProduct(bytes, BITS_IN_BYTE);
    DivOfProduct(MICROSECONDS, bytes);
  }

  lemma DivOfProduct(a: nat, b: nat)
    requires 0 < b
    ensures a * b / b == a
  {
    DivBounds(a * b, b);
    var q := a * b / b;
    if q < a {
      MulMonotone(q + 1, a, b);
      assert false;
    } else if a < q {
      MulMonotone(a + 1, q, b);
      assert false;
    }
  }

  // ----- Negotiating a stream

  datatype Traits = Traits(blockSizeConstraint: Option<nat>, timeConstraint: Option<nat>)

  datatype Negotiated<T> = Agreed(value: T) | InvalidArgument

  // One block size that all endpoints that name one name; zero and disagreement are refused.
  method GetBlockSizeConstraint(traits: seq<Traits>) returns (r: Negotiated<Option<nat>>)
    ensures r.InvalidArgument? <==>
            exists i, j :: 0 <= i < |traits| && 0 <= j < |traits|
              && traits[i].blockSizeConstraint.Some? && traits[j].blockSizeConstraint.Some?
              && (traits[i].blockSizeConstraint.value == 0 || traits[i].blockSizeConstraint != traits[j].blockSizeConstraint)
    ensures r.Agreed? && r.value.Some? ==> exists i :: 0 <= i < |traits| && traits[i].blockSizeConstraint == r.value
    ensures r.Agreed? ==> forall i :: 0 <= i < |traits| && traits[i].blockSizeConstraint.Some? ==>
                            traits[i].blockSizeConstraint == r.value && r.value.value != 0
  {
    var blockSize: Option<nat> := None;
    for i := 0 to |traits|
      invariant blockSize.Some? ==> exists k :: 0 <= k < i && traits[k].blockSizeConstraint == blockSize
      invariant forall k :: 0 <= k < i && traits[k].blockSizeConstraint.Some? ==>
                  traits[k].blockSizeConstraint == blockSize && blockSize.value != 0
    {
      if traits[i].blockSizeConstraint.Some? {
        var candidate := traits[i].blockSizeConstraint.value;
        if candidate == 0 {
          return InvalidArgument;
        }
        if blockSize.None? {
          blockSize := Some(candidate);
        } else if blockSize.value != candidate {
          ghost var k :| 0 <= k < i && traits[k].blockSizeConstraint == blockSize;
          assert traits[i].blockSizeConstraint != traits[k].blockSizeConstraint;
          return InvalidArgument;
        }
      }
    }
    return Agreed(blockSize);
  }

  function ValueOr(o: Option<nat>): nat {
    if o.Some? then o.value else 0
  }

  // std::max takes the first largest, counting a missing constraint as zero; if that one is missing, it is refused.
  method GetTimingConstraints(constraints: seq<Option<nat>>) returns (r: Negotiated<nat>)
    requires constraints != []
    ensures r.Agreed? ==> Some(r.value) in constraints
    ensures r.Agreed? ==> forall i :: 0 <= i < |constraints| ==> ValueOr(constraints[i]) <= r.value
    ensures r.InvalidArgument? <==>
            constraints[0].None? && forall i :: 0 <= i < |constraints| ==> ValueOr(constraints[i]) == 0
  {
    var largest := 0;
    for i := 1 to |constraints|
      invariant 0 <= largest < i
      invariant forall k :: 0 <= k < i ==> ValueOr(constraints[k]) <= ValueOr(constraints[largest])
      invariant forall k :: 0 <= k < largest ==> ValueOr(constraints[k]) < ValueOr(constraints[largest])
    {
      if ValueOr(constraints[i]) > ValueOr(constraints[largest]) {
        largest := i;
      }
    }
    return if constraints[largest].Some? then Agreed(constraints[largest].value) else InvalidArgument;
  }

  // ----- Sizing the stream

  const DEFAULT_BUFFERING := 24
  const UINT_VALUES := 0x1_0000_0000

  // The block size used: the one agreed, or the power of two that holds the time constraint.
  function BlockSize(rate: nat, agreed: Option<nat>, timing: nat): nat {
    if agreed.Some? then agreed.value else CeilPowerOfTwo(MicrosecondsToBytes(rate, timing * 1000))
  }

  // The blocks that last as long as the time constraint. A block of no whole microsecond has no defined answer.
  function BlocksNeeded(rate: nat, blockSize: nat, timing: nat): nat
    requires 0 < rate && 0 < BytesToMicroseconds(rate, blockSize)
  {
    CeilDiv(timing * 1000, BytesToMicroseconds(rate, blockSize))
  }

  // It is the least number of blocks that last as long.
  lemma BlocksNeededIsLeast(rate: nat, blockSize: nat, timing: nat, n: nat)
    requires 0 < rate && 0 < BytesToMicroseconds(rate, blockSize)
    ensures n * BytesToMicroseconds(rate, blockSize) >= timing * 1000 <==> n >= BlocksNeeded(rate, blockSize, timing)
  {
    var us := BytesToMicroseconds(rate, blockSize);
    var needed := BlocksNeeded(rate, blockSize, timing);
    CeilDivBounds(timing * 1000, us);
    if needed <= n {
      MulMonotone(needed, n, us);
    } else {
      MulMonotone(n + 1, needed, us);
    }
  }

  // Up to 2^32 blocks, 24 times as many are buffered.
  lemma BufferingIs(rate: nat, blockSize: nat, timing: nat)
    requires 0 < rate && 0 < BytesToMicroseconds(rate, blockSize)
    ensures 24 * BlocksNeeded(rate, blockSize, timing) < 0x1_0000_0000 ==>
              Buffering(rate, blockSize, timing) == 24 * BlocksNeeded(rate, blockSize, timing)
  {
  }

  // How many blocks are buffered: a product of two unsigned int.
  function Buffering(rate: nat, blockSize: nat, timing: nat): nat
    requires 0 < rate && 0 < BytesToMicroseconds(rate, blockSize)
  {
    BlocksNeeded(rate, blockSize, timing) * DEFAULT_BUFFERING % UINT_VALUES
  }

  // So many blocks last, at the true rate, at least 24 times the time constraint (in milliseconds).
  predicate Covers(blocks: nat, blockSize: nat, rate: nat, timing: nat) {
    blocks * blockSize * 1000 >= DEFAULT_BUFFERING * timing * rate
  }

  lemma UnwrappedCovers(rate: nat, blockSize: nat, timing: nat)
    requires 0 < rate && 0 < BytesToMicroseconds(rate, blockSize)
    ensures Covers(BlocksNeeded(rate, blockSize, timing) * DEFAULT_BUFFERING, blockSize, rate, timing)
  {
    var us := BytesToMicroseconds(rate, blockSize);
    var n := CeilDiv(timing * 1000, us);
    CeilDivBounds(timing * 1000, us);
    DivBounds(blockSize * MICROSECONDS, rate);
    assert (n * us) * rate >= (timing * 1000) * rate by { MulMonotone(timing * 1000, n * us, rate); }
    assert n * (us * rate) <= n * (blockSize * MICROSECONDS) by { MulMonotone(us * rate, blockSize * MICROSECONDS, n); }
    assert (n * us) * rate == n * (us * rate);
    assert n * (blockSize * MICROSECONDS) == (n * blockSize * 1000) * 1000;
    assert (timing * 1000) * rate == (timing * rate) * 1000;
    assert n * blockSize * 1000 >= timing * rate;
    assert (n * DEFAULT_BUFFERING) * blockSize * 1000 == DEFAULT_BUFFERING * (n * blockSize * 1000);
    assert DEFAULT_BUFFERING * timing * rate == DEFAULT_BUFFERING * (timing * rate);
  }

  // Blocks that cover the constraint cover it although each lasts less than a microsecond more than its duration.
  lemma CoveringTakesTime(rate: nat, blockSize: nat, timing: nat, blocks: nat)
    requires 0 < rate && 0 < blocks && Covers(blocks, blockSize, rate, timing)
    ensures DEFAULT_BUFFERING * (timing * 1000) < blocks * (BytesToMicroseconds(rate, blockSize) + 1)
  {
    var us := BytesToMicroseconds(rate, blockSize);
    DivBounds(blockSize * MICROSECONDS, rate);
    assert blockSize * MICROSECONDS + 1 <= (us + 1) * rate;
    assert blocks * (blockSize * MICROSECONDS + 1) <= blocks * ((us + 1) * rate) by {
      MulMonotone(blockSize * MICROSECONDS + 1, (us + 1) * rate, blocks);
    }
    assert blocks * ((us + 1) * rate) == (blocks * (us + 1)) * rate;
    assert blocks * (blockSize * MICROSECONDS + 1) == (blocks * blockSize * 1000) * 1000 + blocks;
    assert (DEFAULT_BUFFERING * timing * rate) * 1000 == (DEFAULT_BUFFERING * (timing * 1000)) * rate;
    MulCancel(DEFAULT_BUFFERING * (timing * 1000), blocks * (us + 1), rate);
  }

  // What is left of a product that wrapped round is too little.
  lemma WrappedIsShort(needed: nat, us: nat, t: nat, left: nat)
    requires 0 < us && needed * us < t + us
    requires left < UINT_VALUES && left + UINT_VALUES <= needed * DEFAULT_BUFFERING
    ensures left * (us + 1) <= DEFAULT_BUFFERING * t
  {
    assert (left + UINT_VALUES) * us <= (needed * DEFAULT_BUFFERING) * us by {
      MulMonotone(left + UINT_VALUES, needed * DEFAULT_BUFFERING, us);
    }
    assert (needed * DEFAULT_BUFFERING) * us == DEFAULT_BUFFERING * (needed * us);
    assert (left + UINT_VALUES) * us == left * us + UINT_VALUES * us;
  }

  // What is buffered covers the time constraint if and only if the product does not wrap round.
  lemma BufferingCoversConstraintIff(rate: nat, blockSize: nat, timing: nat)
    requires 0 < rate && 0 < BytesToMicroseconds(rate, blockSize)
    ensures Covers(Buffering(rate, blockSize, timing), blockSize, rate, timing)
            <==> BlocksNeeded(rate, blockSize, timing) * DEFAULT_BUFFERING < UINT_VALUES
  {
    var us := BytesToMicroseconds(rate, blockSize);
    var needed := BlocksNeeded(rate, blockSize, timing);
    var blocks := Buffering(rate, blockSize, timing);
    CeilDivBounds(timing * 1000, us);
    UnwrappedCovers(rate, blockSize, timing);
    if UINT_VALUES <= needed * DEFAULT_BUFFERING && Covers(blocks, blockSize, rate, timing) {
      DivBounds(needed * DEFAULT_BUFFERING, UINT_VALUES);
      WrappedIsShort(needed, us, timing * 1000, blocks);
      if blocks == 0 {
        MulMonotone(1, timing, rate);
      } else {
        CoveringTakesTime(rate, blockSize, timing, blocks);
      }
      assert false;
    }
  }

  // Blocks of one byte at 8000 bytes per second, and a constraint of a little over six hours.
  lemma BufferingCanWrap()
    ensures BytesToMicroseconds(8000, 1) == 125
    ensures Buffering(8000, 1, 22_369_622) == 128 && !Covers(128, 1, 8000, 22_369_622)
  {
  }

  lemma ShortByLittle(t: nat, rate: nat, bytes: nat, size: nat, us: nat)
    requires 8000 <= rate && bytes <= size
    requires t * rate < bytes * MICROSECONDS + MICROSECONDS && size * MICROSECONDS < us * rate + rate
    ensures t < us + 126
  {
    assert MICROSECONDS <= 125 * rate;
    assert us * rate + 126 * rate == (us + 126) * rate;
    MulCancel(t, us + 126, rate);
  }

  // The block that holds the constraint is short of it by at most 125 microseconds.
  lemma UnconstrainedBlockDuration(rate: nat, timing: nat)
    requires 8000 <= rate && 1 <= timing && MicrosecondsToBytes(rate, timing * 1000) < 0x8000_0000
    ensures timing * 1000 <= BytesToMicroseconds(rate, BlockSize(rate, None, timing)) + 125
  {
    hide CeilPowerOfTwo;
    var t := timing * 1000;
    var bytes := MicrosecondsToBytes(rate, t);
    DivBounds(t * rate, MICROSECONDS);
    MulMonotone(1000, t, rate);
    CeilPowerOfTwoIsLeast(bytes);
    var size := BlockSize(rate, None, timing);
    DivBounds(size * MICROSECONDS, rate);
    ShortByLittle(t, rate, bytes, size, BytesToMicroseconds(rate, size));
  }

  // From 2^31 on there is no power of two to round up to.
  lemma NoBlockFromTopBit(x: nat)
    requires 0x8000_0000 <= x
    ensures CeilPowerOfTwo(x) == 0
  {
    BitLengthBounds(x);
    if BitLength(x) < 32 {
      Pow2Monotone(BitLength(x), 31);
      Pow2Of31();
      assert false;
    }
  }

  // Without a block-size constraint a size is found exactly when the time constraint needs less than 2^31 bytes; then
  // the factor is one or two.
  lemma UnconstrainedBuffering(rate: nat, timing: nat)
    requires 8000 <= rate && 1 <= timing
    ensures 0 < BytesToMicroseconds(rate, BlockSize(rate, None, timing))
            <==> MicrosecondsToBytes(rate, timing * 1000) < 0x8000_0000
    ensures 0 < BytesToMicroseconds(rate, BlockSize(rate, None, timing)) ==>
              var b := Buffering(rate, BlockSize(rate, None, timing), timing);
              b == DEFAULT_BUFFERING || b == 2 * DEFAULT_BUFFERING
  {
    hide CeilPowerOfTwo;
    var us := BytesToMicroseconds(rate, BlockSize(rate, None, timing));
    if 0x8000_0000 <= MicrosecondsToBytes(rate, timing * 1000) {
      NoBlockFromTopBit(MicrosecondsToBytes(rate, timing * 1000));
    } else {
      UnconstrainedBlockDuration(rate, timing);
      CeilDivBounds(timing * 1000, us);
      var n := CeilDiv(timing * 1000, us);
      assert n * us < 3 * us;
      MulCancel(n, 3, us);
    }
  }

  // The stream's block size and buffering; or the exception thrown; or, where the source divides by zero or converts a
  // quotient too large for unsigned int, nothing defined.
  datatype Sized = Sized(blockSize: nat, buffering: nat) | Refused | Undefined

  ghost predicate BlockSizesConflict(a: Option<nat>, b: Option<nat>) {
    a == Some(0) || b == Some(0) || (a.Some? && b.Some? && a != b)
  }

  function Largest(a: nat, b: nat, c: nat): nat {
    if a <= c && b <= c then c else if a <= b then b else a
  }

  // Neither refused nor undefined, the stream has the block size its endpoints agree on, or the one that fits the largest
  // constraint, and it covers all time constraints 24 times over if and only if the number of blocks does not wrap round.
  method MakeStream(source: Traits, sink: Traits, period: Option<nat>, f: AudioFormat) returns (r: Sized)
    ensures r.Refused? <==>
            || f == AudioFormat(0, 0, 0)
            || BlockSizesConflict(source.blockSizeConstraint, sink.blockSizeConstraint)
            || (sink.timeConstraint.None? && ValueOr(source.timeConstraint) == ValueOr(period) == 0)
    ensures !r.Refused? ==>
              var rate := BytesPerSecond(f);
              var agreed := if source.blockSizeConstraint.Some? then source.blockSizeConstraint else sink.blockSizeConstraint;
              var timing := Largest(ValueOr(sink.timeConstraint), ValueOr(source.timeConstraint), ValueOr(period));
              var size := BlockSize(rate, agreed, timing);
              && (r.Undefined? <==>
                  rate == 0 || BytesToMicroseconds(rate, size) == 0 || UINT_VALUES <= BlocksNeeded(rate, size, timing))
              && (r.Sized? ==>
                  && r.blockSize == size && r.buffering == Buffering(rate, size, timing)
                  && (agreed.Some? ==> r.blockSize == agreed.value)
                  && (agreed.None? ==> r.blockSize == CeilPowerOfTwo(MicrosecondsToBytes(rate, timing * 1000)))
                  && (BlocksNeeded(rate, size, timing) * DEFAULT_BUFFERING < UINT_VALUES <==>
                      forall c :: c in {source.timeConstraint, sink.timeConstraint, period} ==>
                        Covers(r.buffering, r.blockSize, rate, ValueOr(c))))
  {
    var constraints := [sink.timeConstraint, source.timeConstraint, period];
    var traits := [source, sink];
    var timing := GetTimingConstraints(constraints);
    var agreed := GetBlockSizeConstraint(traits);
    assert constraints[0] == sink.timeConstraint && constraints[1] == source.timeConstraint && constraints[2] == period;
    assert traits[0] == source && traits[1] == sink;
    if timing.InvalidArgument? || agreed.InvalidArgument? || f == AudioFormat(0, 0, 0) {
      return Refused;
    }
    var rate := BytesPerSecond(f);
    var size := BlockSize(rate, agreed.value, timing.value);
    if rate == 0 || BytesToMicroseconds(rate, size) == 0 || UINT_VALUES <= BlocksNeeded(rate, size, timing.value) {
      return Undefined;
    }
    var buffering := Buffering(rate, size, timing.value);
    BufferingCoversConstraintIff(rate, size, timing.value);
    LargestCovers(buffering, size, rate, source.timeConstraint, sink.timeConstraint, period, timing.value);
    return Sized(size, buffering);
  }

  // Covering the largest of three constraints is covering all.
  lemma LargestCovers(blocks: nat, size: nat, rate: nat, a: Option<nat>, b: Option<nat>, c: Option<nat>, timing: nat)
    requires Some(timing) in {a, b, c}
    requires ValueOr(a) <= timing && ValueOr(b) <= timing && ValueOr(c) <= timing
    ensures Covers(blocks, size, rate, timing) <==> forall o :: o in {a, b, c} ==> Covers(blocks, size, rate, ValueOr(o))
  {
    forall o | o in {a, b, c}
      ensures Covers(blocks, size, rate, timing) ==> Covers(blocks, size, rate, ValueOr(o))
    {
      MulMonotone(DEFAULT_BUFFERING * ValueOr(o), DEFAULT_BUFFERING * timing, rate);
    }
    assert ValueOr(Some(timing)) == timing;
  }

  // ----- calculate_shift

  function Smear(v: bv32): bv32 {
    var v1 := v | (v >> 1);
    var v2 := v1 | (v1 >> 2);
    var v3 := v2 | (v2 >> 4);
    var v4 := v3 | (v3 >> 8);
    v4 | (v4 >> 16)
  }

  // mult_bruijn_bit_position
  function Table(i: bv32): bv32 {
    if i == 0 then 0 else if i == 1 then 9 else if i == 2 then 1 else if i == 3 then 10 else
    if i == 4 then 13 else if i == 5 then 21 else if i == 6 then 2 else if i == 7 then 29 else
    if i == 8 then 11 else if i == 9 then 14 else if i == 10 then 16 else if i == 11 then 18 else
    if i == 12 then 22 else if i == 13 then 25 else if i == 14 then 3 else if i == 15 then 30 else
    if i == 16 then 8 else if i == 17 then 12 else if i == 18 then 20 else if i == 19 then 28 else
    if i == 20 then 15 else if i == 21 then 17 else if i == 22 then 24 else if i == 23 then 7 else
    if i == 24 then 19 else if i == 25 then 27 else if i == 26 then 23 else if i == 27 then 6 else
    if i == 28 then 26 else if i == 29 then 5 else if i == 30 then 4 else 31
  }

  function Shift(s: bv32): bv32 {
    Table((s * 0x07C4_ACDD) >> 27)
  }

  // Smearing copies the highest bit to all places below it.
  lemma SmearOnes(v: bv32)
    requires v != 0
    ensures Smear(v) & (Smear(v) + 1) == 0 && v <= Smear(v) && (Smear(v) >> 1) < v
  {
  }

  // A number without a zero below its highest bit is one of these.
  predicate IsOnes(s: bv32) {
    || s == 0x1 || s == 0x3 || s == 0x7 || s == 0xF
    || s == 0x1F || s == 0x3F || s == 0x7F || s == 0xFF
    || s == 0x1FF || s == 0x3FF || s == 0x7FF || s == 0xFFF
    || s == 0x1FFF || s == 0x3FFF || s == 0x7FFF || s == 0xFFFF
    || s == 0x1FFFF || s == 0x3FFFF || s == 0x7FFFF || s == 0xFFFFF
    || s == 0x1FFFFF || s == 0x3FFFFF || s == 0x7FFFFF || s == 0xFFFFFF
    || s == 0x1FFFFFF || s == 0x3FFFFFF || s == 0x7FFFFFF || s == 0xFFFFFFF
    || s == 0x1FFFFFFF || s == 0x3FFFFFFF || s == 0x7FFFFFFF || s == 0xFFFFFFFF
  }

  lemma OnesHaveNoGap(s: bv32)
    requires s != 0 && s & (s + 1) == 0
    ensures IsOnes(s)
  {
  }

  // The table has the position of the highest bit of each.
  lemma TableIsRightLow(s: bv32)
    requires IsOnes(s) && s <= 0xFF
    ensures Shift(s) < 32 && s >> Shift(s) == 1
  {
  }

  lemma TableIsRightMiddle(s: bv32)
    requires IsOnes(s) && 0xFF < s <= 0xFFFF
    ensures Shift(s) < 32 && s >> Shift(s) == 1
  {
  }

  lemma TableIsRightHigh(s: bv32)
    requires IsOnes(s) && 0xFFFF < s <= 0xFF_FFFF
    ensures Shift(s) < 32 && s >> Shift(s) == 1
  {
  }

  lemma TableIsRightTop(s: bv32)
    requires IsOnes(s) && 0xFF_FFFF < s
    ensures Shift(s) < 32 && s >> Shift(s) == 1
  {
  }

  lemma TableIsRight(s: bv32)
    requires IsOnes(s)
    ensures Shift(s) < 32 && s >> Shift(s) == 1
  {
    hide IsOnes;
    hide Shift;
    if s <= 0xFF {
      TableIsRightLow(s);
    } else if s <= 0xFFFF {
      TableIsRightMiddle(s);
    } else if s <= 0xFF_FFFF {
      TableIsRightHigh(s);
    } else {
      TableIsRightTop(s);
    }
  }

  // Every number that smears to s has its highest bit there too.
  lemma SameHighestBit(s: bv32, v: bv32, k: bv32)
    requires s & (s + 1) == 0 && v <= s && (s >> 1) < v && k < 32 && s >> k == 1
    ensures v >> k == 1
  {
  }

  // The logarithm of v to base 2, rounded down: shifted right by it, v is 1.
  method CalculateShift(v: bv32) returns (shift: bv32)
    ensures v != 0 ==> shift < 32 && v >> shift == 1
  {
    hide Shift;
    hide IsOnes;
    var s := v;
    s := s | (s >> 1);
    s := s | (s >> 2);
    s := s | (s >> 4);
    s := s | (s >> 8);
    s := s | (s >> 16);
    shift := Shift(s);
    if v != 0 {
      assert s == Smear(v);
      SmearOnes(v);
      OnesHaveNoGap(s);
      TableIsRight(s);
      SameHighestBit(s, v, shift);
    }
  }
}

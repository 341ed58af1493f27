/** The control state of audio::Stream (module-audio/Audio/Stream.cpp) at the granularity of blocks:
    four cursors that wrap around a fixed ring of blocks, and three counters.

    Every function below takes the same branches as the method of the same name. `StreamBuffer.Stream`
    shows that the byte-addressed original steps exactly as this machine does; this module shows what
    the machine means. */
module BlockRing {

  newtype uint8 = x: int | 0 <= x < 0x100

  type Block = seq<uint8>

  // std::size_t on the target: counters wrap modulo this.
  const SIZE_MODULUS := 0x1_0000_0000

  datatype Event = NoEvent | StreamFull | StreamHalfUsed | StreamEmpty | StreamOverflow | StreamUnderFlow

  // What a call hands back through its span: nothing, the null span, the bytes of a block, or (for a
  // reservation) a block to be filled in place.
  datatype Data = NoData | NullSpan | Bytes(block: Block) | Reserved(slot: nat)

  datatype Reply = Reply(ok: bool, event: Event, data: Data)

  datatype Ring = Ring(
    blockSize: nat,
    blocks: seq<Block>,
    start: nat,     // _dataStart
    end: nat,       // _dataEnd
    peekPos: nat,   // _peekPosition
    writePos: nat,  // _writeReservationPosition
    used: nat,      // _blocksUsed
    peeked: nat,    // _peekCount
    reserved: nat)  // _reserveCount
  {
    function Count(): nat { |blocks| }

    // What holds in every state, however the stream is used.
    ghost predicate WellFormed() {
      && 0 < blockSize
      && 0 < Count() < SIZE_MODULUS
      && (forall i :: 0 <= i < Count() ==> |blocks[i]| == blockSize)
      && start < Count() && end < Count() && peekPos < Count() && writePos < Count()
      && used < SIZE_MODULUS && peeked < SIZE_MODULUS && reserved < SIZE_MODULUS
    }
  }

  // One call on the stream. Fill is the producer writing through a span it got from reserve.
  datatype Op =
    | Push(data: Block)
    | Pop(size: nat)
    | Peek
    | Consume
    | Unpeek
    | Reserve
    | Commit
    | Release
    | Reset
    | Fill(slot: nat, bytes: Block)

  // A counter after one addition or subtraction of size_t.
  function Wrap(x: int): (y: nat)
    requires 0 - SIZE_MODULUS <= x < 2 * SIZE_MODULUS
    ensures y < SIZE_MODULUS
  {
    if x < 0 then x + SIZE_MODULUS else if x < SIZE_MODULUS then x else x - SIZE_MODULUS
  }

  // RawBlockIterator::operator++
  function Next(n: nat, i: nat): nat
    requires i < n
  {
    if i + 1 == n then 0 else i + 1
  }

  // The block k places after block i, going round.
  function At(n: nat, i: nat, k: nat): (slot: nat)
    requires i < n && k <= n
    ensures slot < n
  {
    if i + k < n then i + k else i + k - n
  }

  function StateEvent(used: nat, n: nat): Event {
    if used == n / 2 then StreamHalfUsed
    else if used == 0 then StreamEmpty
    else if used == n then StreamFull
    else NoEvent
  }

  function PushStep(r: Ring, data: Block): (Ring, Reply)
    requires r.WellFormed()
  {
    if |data| != r.blockSize then (r, Reply(false, NoEvent, NoData))
    else if r.end != r.writePos then (r, Reply(false, NoEvent, NoData))
    else if r.used == r.Count() then (r, Reply(false, StreamOverflow, NoData))
    else
      var end := Next(r.Count(), r.end);
      var used := Wrap(r.used + 1);
      (r.(blocks := r.blocks[r.end := data], end := end, used := used, writePos := end),
       Reply(true, StateEvent(used, r.Count()), NoData))
  }

  function PopStep(r: Ring, size: nat): (Ring, Reply)
    requires r.WellFormed()
  {
    if size != r.blockSize then (r, Reply(false, NoEvent, NoData))
    else if r.start != r.peekPos then (r, Reply(false, NoEvent, NoData))
    else if r.used == 0 then (r, Reply(false, StreamUnderFlow, NullSpan))
    else
      var start := Next(r.Count(), r.start);
      (r.(start := start, used := r.used - 1, peekPos := start),
       Reply(true, StateEvent(r.used - 1, r.Count()), Bytes(r.blocks[r.start])))
  }

  function PeekStep(r: Ring): (Ring, Reply)
    requires r.WellFormed()
  {
    if r.peeked < r.used then
      (r.(peekPos := Next(r.Count(), r.peekPos), peeked := Wrap(r.peeked + 1)),
       Reply(true, NoEvent, Bytes(r.blocks[r.peekPos])))
    else (r, Reply(false, StreamUnderFlow, NullSpan))
  }

  function ConsumeStep(r: Ring): (Ring, Reply)
    requires r.WellFormed()
  {
    var used := Wrap(r.used - r.peeked);
    (r.(used := used, peeked := 0, start := r.peekPos), Reply(true, StateEvent(used, r.Count()), NoData))
  }

  function UnpeekStep(r: Ring): (Ring, Reply) {
    (r.(peekPos := r.start, peeked := 0), Reply(true, NoEvent, NoData))
  }

  function ReserveStep(r: Ring): (Ring, Reply)
    requires r.WellFormed()
  {
    if Wrap(r.Count() - r.used) > r.reserved then
      var slot := Next(r.Count(), r.writePos);
      (r.(writePos := slot, reserved := Wrap(r.reserved + 1)), Reply(true, NoEvent, Reserved(slot)))
    else
      var slot := Next(r.Count(), r.peekPos);
      (r.(used := 0, end := r.peekPos, reserved := 1, writePos := slot),
       Reply(false, StreamOverflow, Reserved(slot)))
  }

  function CommitStep(r: Ring): (Ring, Reply)
    requires r.WellFormed()
  {
    var used := Wrap(r.used + r.reserved);
    (r.(used := used, reserved := 0, end := r.writePos), Reply(true, StateEvent(used, r.Count()), NoData))
  }

  function ReleaseStep(r: Ring): (Ring, Reply) {
    (r.(reserved := 0, writePos := r.end), Reply(true, NoEvent, NoData))
  }

  function ResetStep(r: Ring): (Ring, Reply) {
    (Ring(r.blockSize, r.blocks, 0, 0, 0, 0, 0, 0, 0), Reply(true, NoEvent, NoData))
  }

  function FillStep(r: Ring, slot: nat, bytes: Block): (Ring, Reply) {
    if slot < r.Count() && |bytes| == r.blockSize then
      (r.(blocks := r.blocks[slot := bytes]), Reply(true, NoEvent, NoData))
    else (r, Reply(false, NoEvent, NoData))
  }

  function Step(r: Ring, op: Op): (out: (Ring, Reply))
    requires r.WellFormed()
    ensures out.0.WellFormed() && out.0.blockSize == r.blockSize && out.0.Count() == r.Count()
  {
    match op
    case Push(data) => PushStep(r, data)
    case Pop(size) => PopStep(r, size)
    case Peek => PeekStep(r)
    case Consume => ConsumeStep(r)
    case Unpeek => UnpeekStep(r)
    case Reserve => ReserveStep(r)
    case Commit => CommitStep(r)
    case Release => ReleaseStep(r)
    case Reset => ResetStep(r)
    case Fill(slot, bytes) => FillStep(r, slot, bytes)
  }

  // ----- What every operation keeps

  // The counters are consistent and each cursor sits where the counters say.
  ghost predicate Consistent(r: Ring) {
    && r.WellFormed()
    && r.peeked <= r.used
    && r.used + r.reserved <= r.Count()
    && r.peekPos == At(r.Count(), r.start, r.peeked)
    && r.end == At(r.Count(), r.start, r.used)
    && r.writePos == At(r.Count(), r.start, r.used + r.reserved)
  }

  // The three calls that break the stream: a push that does not notice that every block is reserved, a
  // pop that does not notice that every block is peeked, and an overflowing reserve with a peek open.
  predicate Safe(r: Ring, op: Op) {
    match op
    case Push(data) => |data| == r.blockSize ==> r.reserved != r.Count()
    case Pop(size) => size == r.blockSize ==> r.peeked != r.Count()
    case Reserve => r.used + r.reserved == r.Count() ==> r.peeked == 0
    case _ => true
  }

  // The two "in progress" guards compare positions, so a full turn is invisible to them.
  lemma GuardsSeeOnlyPartialTurns(r: Ring)
    requires Consistent(r)
    ensures r.end != r.writePos <==> 0 < r.reserved < r.Count()
    ensures r.start != r.peekPos <==> 0 < r.peeked < r.Count()
  {
    assert 0 < r.reserved < r.Count() ==> At(r.Count(), r.start, r.used) != At(r.Count(), r.start, r.used + r.reserved);
  }

  lemma PushConsistentIffSafe(r: Ring, data: Block)
    requires Consistent(r)
    ensures Consistent(PushStep(r, data).0) <==> Safe(r, Push(data))
  {
    GuardsSeeOnlyPartialTurns(r);
  }

  lemma PopConsistentIffSafe(r: Ring, size: nat)
    requires Consistent(r)
    ensures Consistent(PopStep(r, size).0) <==> Safe(r, Pop(size))
  {
    GuardsSeeOnlyPartialTurns(r);
  }

  lemma ReserveConsistentIffSafe(r: Ring)
    requires Consistent(r)
    ensures Consistent(ReserveStep(r).0) <==> Safe(r, Reserve)
  {
  }

  lemma PeekConsistent(r: Ring)
    requires Consistent(r)
    ensures Consistent(PeekStep(r).0) && Consistent(UnpeekStep(r).0)
  {
  }

  lemma ConsumeConsistent(r: Ring)
    requires Consistent(r)
    ensures Consistent(ConsumeStep(r).0)
  {
  }

  lemma CommitConsistent(r: Ring)
    requires Consistent(r)
    ensures Consistent(CommitStep(r).0) && CommitStep(r).0.used == r.used + r.reserved
  {
  }

  lemma OtherStepsConsistent(r: Ring, slot: nat, bytes: Block)
    requires Consistent(r)
    ensures Consistent(ReleaseStep(r).0) && Consistent(ResetStep(r).0) && Consistent(FillStep(r, slot, bytes).0)
  {
  }

  // A step keeps the stream consistent exactly when it is not one of the three.
  lemma StepConsistentIffSafe(r: Ring, op: Op)
    requires Consistent(r)
    ensures Consistent(Step(r, op).0) <==> Safe(r, op)
  {
    match op
    case Push(data) => PushConsistentIffSafe(r, data);
    case Pop(size) => PopConsistentIffSafe(r, size);
    case Reserve => ReserveConsistentIffSafe(r);
    case Fill(slot, bytes) => OtherStepsConsistent(r, slot, bytes);
    case Consume => ConsumeConsistent(r);
    case Commit => CommitConsistent(r);
    case _ => PeekConsistent(r); OtherStepsConsistent(r, 0, []);
  }

  predicate SafeRun(r: Ring, ops: seq<Op>)
    requires r.WellFormed()
    decreases |ops|
  {
    ops == [] || (Safe(r, ops[0]) && SafeRun(Step(r, ops[0]).0, ops[1..]))
  }

  function Run(r: Ring, ops: seq<Op>): (out: (Ring, seq<Reply>))
    requires r.WellFormed()
    ensures out.0.WellFormed() && |out.1| == |ops|
    decreases |ops|
  {
    if ops == [] then (r, [])
    else
      var (next, reply) := Step(r, ops[0]);
      var (last, replies) := Run(next, ops[1..]);
      (last, [reply] + replies)
  }

  // Every run that avoids the three calls stays consistent, up to its last state.
  lemma {:induction false} SafeRunStaysConsistent(r: Ring, ops: seq<Op>)
    requires Consistent(r) && SafeRun(r, ops)
    ensures Consistent(Run(r, ops).0)
    decreases |ops|
  {
    if ops != [] {
      StepConsistentIffSafe(r, ops[0]);
      SafeRunStaysConsistent(Step(r, ops[0]).0, ops[1..]);
    }
  }

  // The first of them to be called leaves the stream inconsistent: the condition is exact.
  lemma {:induction false} FirstUnsafeCallBreaks(r: Ring, ops: seq<Op>, op: Op)
    requires Consistent(r) && SafeRun(r, ops)
    ensures Consistent(Step(Run(r, ops).0, op).0) <==> Safe(Run(r, ops).0, op)
  {
    SafeRunStaysConsistent(r, ops);
    StepConsistentIffSafe(Run(r, ops).0, op);
  }

  // All three are reachable from a fresh stream of one block.
  lemma UnsafeCallsAreReachable(b: Block)
    requires |b| == 1
    ensures var one := Ring(1, [[0]], 0, 0, 0, 0, 0, 0, 0);
            var peeked := Step(Step(one, Push(b)).0, Peek).0;
            && Consistent(one)
            && !Safe(Step(one, Reserve).0, Push(b))
            && !Safe(peeked, Pop(1)) && !Safe(peeked, Reserve)
  {
    var one := Ring(1, [[0]], 0, 0, 0, 0, 0, 0, 0);
    assert Step(one, Push(b)).0 == Ring(1, [b], 0, 0, 0, 0, 1, 0, 0);
  }
}

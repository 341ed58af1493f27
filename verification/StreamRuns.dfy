/** What whole runs of audio::Stream deliver.

    The copying calls (push, pop, peek, consume, unpeek) behave as a plain bounded queue of blocks.
    The zero-copy calls (reserve, commit, release) do not mix with that reading: reserve hands out the
    block after the cursor that push would have used, so everything committed is read one block late. */
module StreamRuns {
  import opened Basics
  import opened BlockRing

  // ----- The reference: a bounded queue of blocks with a read-ahead mark

  datatype Queue = Queue(capacity: nat, blockSize: nat, items: seq<Block>, peeked: nat)

  ghost predicate QueueOp(op: Op) {
    op.Push? || op.Pop? || op.Peek? || op.Consume? || op.Unpeek? || op.Reset?
  }

  // Announced after the number of blocks held may have changed: half (rounded down) comes before empty and full.
  ghost function QueueEvent(held: nat, capacity: nat): Event {
    if 2 * held <= capacity < 2 * held + 2 then StreamHalfUsed
    else if held == 0 then StreamEmpty
    else if held == capacity then StreamFull
    else NoEvent
  }

  lemma EventsAgree(held: nat, capacity: nat)
    ensures StateEvent(held, capacity) == QueueEvent(held, capacity)
  {
  }

  ghost function QueueStep(q: Queue, op: Op): (Queue, Reply)
    requires QueueOp(op) && q.peeked <= |q.items|
  {
    match op
    case Push(data) =>
      if |data| != q.blockSize then (q, Reply(false, NoEvent, NoData))
      else if |q.items| == q.capacity then (q, Reply(false, StreamOverflow, NoData))
      else (q.(items := q.items + [data]), Reply(true, QueueEvent(|q.items| + 1, q.capacity), NoData))
    case Pop(size) =>
      if size != q.blockSize || q.peeked != 0 then (q, Reply(false, NoEvent, NoData))
      else if q.items == [] then (q, Reply(false, StreamUnderFlow, NullSpan))
      else (q.(items := q.items[1..]), Reply(true, QueueEvent(|q.items| - 1, q.capacity), Bytes(q.items[0])))
    case Peek =>
      if q.peeked == |q.items| then (q, Reply(false, StreamUnderFlow, NullSpan))
      else (q.(peeked := q.peeked + 1), Reply(true, NoEvent, Bytes(q.items[q.peeked])))
    case Consume =>
      (q.(items := q.items[q.peeked..], peeked := 0),
       Reply(true, QueueEvent(|q.items| - q.peeked, q.capacity), NoData))
    case Unpeek => (q.(peeked := 0), Reply(true, NoEvent, NoData))
    case Reset => (q.(items := [], peeked := 0), Reply(true, NoEvent, NoData))
  }

  // The m blocks from block i onwards, going round.
  ghost function Turn(blocks: seq<Block>, i: nat, m: nat): (w: seq<Block>)
    requires i < |blocks| && m <= |blocks|
    ensures |w| == m
    ensures forall k :: 0 <= k < m ==> w[k] == blocks[At(|blocks|, i, k)]
  {
    seq(m, k requires 0 <= k < m => blocks[At(|blocks|, i, k)])
  }

  lemma TurnSplit(blocks: seq<Block>, i: nat, k: nat, m: nat)
    requires i < |blocks| && k + m <= |blocks|
    ensures Turn(blocks, i, k + m) == Turn(blocks, i, k) + Turn(blocks, At(|blocks|, i, k), m)
  {
  }

  lemma TurnUpdate(blocks: seq<Block>, i: nat, m: nat, slot: nat, b: Block)
    requires i < |blocks| && m <= |blocks| && slot < |blocks|
    requires forall k :: 0 <= k < m ==> At(|blocks|, i, k) != slot
    ensures Turn(blocks[slot := b], i, m) == Turn(blocks, i, m)
  {
  }

  // The m blocks from dataStart onwards, in reading order.
  ghost function Window(r: Ring, m: nat): (w: seq<Block>)
    requires r.start < r.Count() && m <= r.Count()
    ensures |w| == m
  {
    Turn(r.blocks, r.start, m)
  }

  ghost function Unread(r: Ring): (q: Queue)
    requires Consistent(r)
    ensures q.peeked <= |q.items|
  {
    Queue(r.Count(), r.blockSize, Window(r, r.used), r.peeked)
  }

  // ----- The copying calls refine the queue

  lemma PushRefinesQueue(r: Ring, data: Block)
    requires Consistent(r) && r.reserved == 0
    ensures Consistent(PushStep(r, data).0)
    ensures QueueStep(Unread(r), Push(data)) == (Unread(PushStep(r, data).0), PushStep(r, data).1)
  {
    hide StateEvent;
    hide QueueEvent;
    EventsAgree(r.used + 1, r.Count());
    PushConsistentIffSafe(r, data);
    var (r', reply) := PushStep(r, data);
    if reply.ok {
      TurnUpdate(r.blocks, r.start, r.used, r.end, data);
      TurnSplit(r'.blocks, r.start, r.used, 1);
      assert Turn(r'.blocks, r.end, 1) == [data];
    }
  }

  lemma PopRefinesQueue(r: Ring, size: nat)
    requires Consistent(r) && Safe(r, Pop(size))
    ensures Consistent(PopStep(r, size).0)
    ensures QueueStep(Unread(r), Pop(size)) == (Unread(PopStep(r, size).0), PopStep(r, size).1)
  {
    hide StateEvent;
    hide QueueEvent;
    if 0 < r.used {
      EventsAgree(r.used - 1, r.Count());
    }
    PopConsistentIffSafe(r, size);
    GuardsSeeOnlyPartialTurns(r);
    var (r', reply) := PopStep(r, size);
    if reply.ok {
      TurnSplit(r.blocks, r.start, 1, r.used - 1);
    }
  }

  lemma ConsumeRefinesQueue(r: Ring)
    requires Consistent(r)
    ensures Consistent(ConsumeStep(r).0)
    ensures QueueStep(Unread(r), Consume) == (Unread(ConsumeStep(r).0), ConsumeStep(r).1)
  {
    hide StateEvent;
    hide QueueEvent;
    EventsAgree(r.used - r.peeked, r.Count());
    ConsumeConsistent(r);
    TurnSplit(r.blocks, r.start, r.peeked, r.used - r.peeked);
  }

  lemma PeekRefinesQueue(r: Ring)
    requires Consistent(r)
    ensures Consistent(PeekStep(r).0) && Consistent(UnpeekStep(r).0)
    ensures QueueStep(Unread(r), Peek) == (Unread(PeekStep(r).0), PeekStep(r).1)
    ensures QueueStep(Unread(r), Unpeek) == (Unread(UnpeekStep(r).0), UnpeekStep(r).1)
  {
    PeekConsistent(r);
  }

  // With nothing reserved, one call answers as the queue does, and leaves the stream holding what the queue
  // holds, exactly when it is not the pop that misses a peek of every block. A refused call changes nothing.
  lemma StepRefinesQueue(r: Ring, op: Op)
    requires Consistent(r) && r.reserved == 0 && QueueOp(op)
    ensures Safe(r, op) ==>
              && Consistent(Step(r, op).0) && Step(r, op).0.reserved == 0
              && QueueStep(Unread(r), op) == (Unread(Step(r, op).0), Step(r, op).1)
    ensures !Safe(r, op) ==> QueueStep(Unread(r), op).1 != Step(r, op).1
    ensures (op.Push? || op.Pop? || op.Peek?) && !Step(r, op).1.ok ==> Step(r, op).0 == r
  {
    match op
    case Push(data) => PushRefinesQueue(r, data);
    case Pop(size) =>
      GuardsSeeOnlyPartialTurns(r);
      if Safe(r, op) { PopRefinesQueue(r, size); }
    case Consume => ConsumeRefinesQueue(r);
    case Reset => OtherStepsConsistent(r, 0, []);
    case _ => PeekRefinesQueue(r);
  }

  ghost function QueueRun(q: Queue, ops: seq<Op>): (Queue, seq<Reply>)
    requires q.peeked <= |q.items| && forall i :: 0 <= i < |ops| ==> QueueOp(ops[i])
    decreases |ops|
  {
    if ops == [] then (q, [])
    else
      var (next, reply) := QueueStep(q, ops[0]);
      var (last, replies) := QueueRun(next, ops[1..]);
      (last, [reply] + replies)
  }

  // Every run: same answers, same events, same blocks in the same order, same final contents.
  lemma {:induction false} RunRefinesQueue(r: Ring, ops: seq<Op>)
    requires Consistent(r) && r.reserved == 0 && SafeRun(r, ops)
    requires forall i :: 0 <= i < |ops| ==> QueueOp(ops[i])
    ensures Consistent(Run(r, ops).0)
    ensures QueueRun(Unread(r), ops) == (Unread(Run(r, ops).0), Run(r, ops).1)
    decreases |ops|
  {
    if ops != [] {
      StepRefinesQueue(r, ops[0]);
      RunRefinesQueue(Step(r, ops[0]).0, ops[1..]);
    }
  }

  // ----- Copying and zero-copy calls together: answers by counting

  // How many blocks there are, hold data, are peeked and are reserved.
  datatype Counts = Counts(blocks: nat, used: nat, peeked: nat, reserved: nat)

  datatype Signal = Signal(ok: bool, event: Event)

  ghost function CountStep(c: Counts, blockSize: nat, op: Op): (Counts, Signal)
    requires c.peeked <= c.used && c.used + c.reserved <= c.blocks
  {
    match op
    case Push(data) =>
      if |data| != blockSize || 0 < c.reserved < c.blocks then (c, Signal(false, NoEvent))
      else if c.used == c.blocks then (c, Signal(false, StreamOverflow))
      else (c.(used := c.used + 1), Signal(true, QueueEvent(c.used + 1, c.blocks)))
    case Pop(size) =>
      if size != blockSize || 0 < c.peeked < c.blocks then (c, Signal(false, NoEvent))
      else if c.used == 0 then (c, Signal(false, StreamUnderFlow))
      else (c.(used := c.used - 1), Signal(true, QueueEvent(c.used - 1, c.blocks)))
    case Peek =>
      if c.peeked == c.used then (c, Signal(false, StreamUnderFlow))
      else (c.(peeked := c.peeked + 1), Signal(true, NoEvent))
    case Consume =>
      (c.(used := c.used - c.peeked, peeked := 0), Signal(true, QueueEvent(c.used - c.peeked, c.blocks)))
    case Unpeek => (c.(peeked := 0), Signal(true, NoEvent))
    case Reserve =>
      if c.used + c.reserved == c.blocks then (c.(used := 0, reserved := 1), Signal(false, StreamOverflow))
      else (c.(reserved := c.reserved + 1), Signal(true, NoEvent))
    case Commit =>
      (c.(used := c.used + c.reserved, reserved := 0), Signal(true, QueueEvent(c.used + c.reserved, c.blocks)))
    case Release => (c.(reserved := 0), Signal(true, NoEvent))
    case Reset => (Counts(c.blocks, 0, 0, 0), Signal(true, NoEvent))
    case Fill(slot, bytes) => (c, Signal(slot < c.blocks && |bytes| == blockSize, NoEvent))
  }

  ghost function CountsOf(r: Ring): Counts {
    Counts(r.Count(), r.used, r.peeked, r.reserved)
  }

  // From a consistent stream every call, unsafe ones too, moves the counts and answers as this says, whatever the
  // cursors are; only a push and a write through a span change blocks.
  lemma StepCounts(r: Ring, op: Op)
    requires Consistent(r)
    ensures var (next, reply) := Step(r, op);
            && CountStep(CountsOf(r), r.blockSize, op) == (CountsOf(next), Signal(reply.ok, reply.event))
            && (!op.Push? && !op.Fill? ==> next.blocks == r.blocks)
            && (op.Fill? ==> next.blocks == if reply.ok then r.blocks[op.slot := op.bytes] else r.blocks)
            && (op.Commit? || op.Consume? || op.Unpeek? || op.Release? || op.Reset? ==> reply.data == NoData)
  {
    hide StateEvent;
    hide QueueEvent;
    GuardsSeeOnlyPartialTurns(r);
    EventsAgree(r.used + 1, r.Count());
    if 0 < r.used {
      EventsAgree(r.used - 1, r.Count());
    }
    EventsAgree(r.used - r.peeked, r.Count());
    EventsAgree(r.used + r.reserved, r.Count());
  }

  ghost function CountRun(c: Counts, blockSize: nat, ops: seq<Op>): seq<Signal>
    decreases |ops|
  {
    if ops == [] || !(c.peeked <= c.used && c.used + c.reserved <= c.blocks) then []
    else
      var (next, signal) := CountStep(c, blockSize, ops[0]);
      [signal] + CountRun(next, blockSize, ops[1..])
  }

  // So over every safe run of all calls the answers and events follow from the counts alone.
  lemma {:induction false} RunCounts(r: Ring, ops: seq<Op>)
    requires Consistent(r) && SafeRun(r, ops)
    ensures var replies, signals := Run(r, ops).1, CountRun(CountsOf(r), r.blockSize, ops);
            && |replies| == |signals| == |ops|
            && forall i :: 0 <= i < |ops| ==> signals[i] == Signal(replies[i].ok, replies[i].event)
    decreases |ops|
  {
    if ops != [] {
      hide CountStep;
      StepCounts(r, ops[0]);
      StepConsistentIffSafe(r, ops[0]);
      hide Consistent;
      RunCounts(Step(r, ops[0]).0, ops[1..]);
    }
  }

  // ----- What producer and consumer see

  // Kept by an observer of the calls: blocks handed in, blocks taken out for good, blocks peeked since the
  // last consume or unpeek, and the spans given out by reserve since the last commit or release.
  datatype Log = Log(accepted: seq<Block>, delivered: seq<Block>, pending: seq<Block>, open: seq<nat>)

  const EMPTY_LOG := Log([], [], [], [])

  ghost function Got(reply: Reply): seq<Block> {
    if reply.ok && reply.data.Bytes? then [reply.data.block] else []
  }

  // `written` is what the open spans hold at the time of the call.
  ghost function Observe(log: Log, op: Op, reply: Reply, written: seq<Block>): Log {
    match op
    case Push(data) => if reply.ok then log.(accepted := log.accepted + [data]) else log
    case Pop(_) => log.(delivered := log.delivered + Got(reply))
    case Peek => log.(pending := log.pending + Got(reply))
    case Consume => log.(delivered := log.delivered + log.pending, pending := [])
    case Unpeek => log.(pending := [])
    case Reserve =>
      if !reply.data.Reserved? then log
      else log.(open := if reply.ok then log.open + [reply.data.slot] else [reply.data.slot])
    case Commit => log.(accepted := log.accepted + written, open := [])
    case Release => log.(open := [])
    case Reset => EMPTY_LOG
    case Fill(_, _) => log
  }

  // The open reservations are the `reserved` blocks that follow dataEnd, in order.
  ghost predicate OpenMatches(log: Log, r: Ring)
    requires Consistent(r)
  {
    && |log.open| == r.reserved
    && forall k :: 0 <= k < r.reserved ==> log.open[k] == At(r.Count(), r.end, k + 1)
  }

  ghost function Written(log: Log, r: Ring): (w: seq<Block>)
    requires Consistent(r) && OpenMatches(log, r)
    ensures |w| == |log.open|
    ensures forall k :: 0 <= k < |w| ==> w[k] == r.blocks[log.open[k]]
  {
    Turn(r.blocks, Next(r.Count(), r.end), r.reserved)
  }

  ghost function ObserveStep(log: Log, r: Ring, op: Op): Log
    requires Consistent(r) && OpenMatches(log, r)
  {
    Observe(log, op, Step(r, op).1, Written(log, r))
  }

  lemma ReserveKeepsOpen(log: Log, r: Ring)
    requires Consistent(r) && OpenMatches(log, r) && Safe(r, Reserve)
    ensures Consistent(ReserveStep(r).0)
    ensures OpenMatches(ObserveStep(log, r, Reserve), ReserveStep(r).0)
  {
    ReserveConsistentIffSafe(r);
  }

  lemma PushKeepsOpen(log: Log, r: Ring, data: Block)
    requires Consistent(r) && OpenMatches(log, r) && Safe(r, Push(data))
    ensures Consistent(PushStep(r, data).0)
    ensures OpenMatches(ObserveStep(log, r, Push(data)), PushStep(r, data).0)
  {
    PushConsistentIffSafe(r, data);
    GuardsSeeOnlyPartialTurns(r);
  }

  // Whatever is called, the observer's list of open spans stays the blocks after dataEnd.
  lemma StepKeepsOpen(log: Log, r: Ring, op: Op)
    requires Consistent(r) && OpenMatches(log, r) && Safe(r, op)
    ensures Consistent(Step(r, op).0)
    ensures OpenMatches(ObserveStep(log, r, op), Step(r, op).0)
  {
    if op.Reserve? {
      ReserveKeepsOpen(log, r);
    } else if op.Push? {
      PushKeepsOpen(log, r, op.data);
    } else {
      StepConsistentIffSafe(r, op);
    }
  }

  // A safe run in which the producer writes only through spans it holds.
  ghost predicate ProperRun(log: Log, r: Ring, ops: seq<Op>)
    requires Consistent(r) && OpenMatches(log, r)
    decreases |ops|
  {
    ops == [] ||
    (Safe(r, ops[0]) && (ops[0].Fill? ==> ops[0].slot in log.open) &&
     (StepKeepsOpen(log, r, ops[0]);
      ProperRun(ObserveStep(log, r, ops[0]), Step(r, ops[0]).0, ops[1..])))
  }

  ghost function ObserveRun(log: Log, r: Ring, ops: seq<Op>): (out: (Log, Ring))
    requires Consistent(r) && OpenMatches(log, r) && ProperRun(log, r, ops)
    ensures Consistent(out.1) && OpenMatches(out.0, out.1)
    decreases |ops|
  {
    if ops == [] then (log, r)
    else
      StepKeepsOpen(log, r, ops[0]);
      ObserveRun(ObserveStep(log, r, ops[0]), Step(r, ops[0]).0, ops[1..])
  }

  // In every reachable state the open reservations are pairwise distinct; if any block is unread, they avoid all
  // unread blocks exactly while used + reserved stays below the block count; and the reservation that takes
  // the last free block is dataStart itself.
  lemma OpenReservationsInEveryRun(log: Log, r: Ring, ops: seq<Op>)
    requires Consistent(r) && OpenMatches(log, r) && ProperRun(log, r, ops)
    ensures var (l, s) := ObserveRun(log, r, ops);
            && |l.open| == s.reserved
            && (forall i, j :: 0 <= i < j < |l.open| ==> l.open[i] != l.open[j])
            && (0 < s.used && 0 < s.reserved ==>
                  ((forall i, j :: 0 <= i < |l.open| && 0 <= j < s.used ==> l.open[i] != At(s.Count(), s.start, j))
                   <==> s.used + s.reserved < s.Count()))
            && (0 < s.reserved && s.used + s.reserved == s.Count() ==> l.open[s.reserved - 1] == s.start)
  {
    var (l, s) := ObserveRun(log, r, ops);
    if 0 < s.used && 0 < s.reserved && s.used + s.reserved == s.Count() {
      assert l.open[s.reserved - 1] == At(s.Count(), s.start, 0);
    }
  }

  // ----- Conservation in the copying mode

  ghost predicate CopyingOp(op: Op) {
    op.Push? || op.Pop? || op.Peek? || op.Consume? || op.Unpeek?
  }

  // Everything accepted was delivered or is still queued, in order; what is pending is the queue's front.
  ghost predicate Balanced(log: Log, q: Queue) {
    && q.peeked <= |q.items|
    && log.accepted == log.delivered + q.items
    && log.pending == q.items[..q.peeked]
  }

  lemma QueueStepBalanced(log: Log, q: Queue, op: Op, written: seq<Block>)
    requires CopyingOp(op) && Balanced(log, q)
    ensures Balanced(Observe(log, op, QueueStep(q, op).1, written), QueueStep(q, op).0)
  {
    hide QueueEvent;
    var (q', reply) := QueueStep(q, op);
    if op.Consume? {
      assert q.items == q.items[..q.peeked] + q.items[q.peeked..];
    } else if op.Pop? && reply.ok {
      assert q.items == [q.items[0]] + q.items[1..];
    }
  }

  // Every run of copying calls delivers exactly the blocks accepted, in order and without repeats; what is
  // missing is still in the stream, and what is peeked is the front of that.
  lemma {:induction false} CopyingRunConserves(log: Log, r: Ring, ops: seq<Op>)
    requires Consistent(r) && r.reserved == 0 && OpenMatches(log, r) && ProperRun(log, r, ops)
    requires Balanced(log, Unread(r))
    requires forall i :: 0 <= i < |ops| ==> CopyingOp(ops[i])
    ensures var (l, s) := ObserveRun(log, r, ops);
            && l.accepted == l.delivered + Window(s, s.used)
            && l.pending == Window(s, s.used)[..s.peeked]
    decreases |ops|
  {
    if ops != [] {
      StepRefinesQueue(r, ops[0]);
      QueueStepBalanced(log, Unread(r), ops[0], Written(log, r));
      StepKeepsOpen(log, r, ops[0]);
      CopyingRunConserves(ObserveStep(log, r, ops[0]), Step(r, ops[0]).0, ops[1..]);
    }
  }

  // ----- The zero-copy mode is one block late

  ghost predicate ZeroCopyOp(op: Op) {
    op.Reserve? || op.Commit? || op.Release? || op.Fill? || op.Peek? || op.Consume? || op.Unpeek?
  }

  // A run in which a reservation never takes the last free block.
  ghost predicate RoomyRun(r: Ring, ops: seq<Op>)
    requires r.WellFormed()
    decreases |ops|
  {
    ops == [] ||
    ((ops[0].Reserve? ==> r.used + r.reserved + 1 < r.Count()) && RoomyRun(Step(r, ops[0]).0, ops[1..]))
  }

  // `stale` is what the first block held before anything was committed; `rest` is what is left to read,
  // counting the block under dataEnd; `peeked` of these have been looked at.
  ghost predicate LateBy(stale: Block, log: Log, rest: seq<Block>, peeked: nat) {
    && peeked <= |rest|
    && [stale] + log.accepted == log.delivered + rest
    && log.pending == rest[..peeked]
  }

  lemma LateAfterConsume(stale: Block, log: Log, rest: seq<Block>, peeked: nat)
    requires LateBy(stale, log, rest, peeked)
    ensures LateBy(stale, log.(delivered := log.delivered + log.pending, pending := []), rest[peeked..], 0)
  {
    assert rest == rest[..peeked] + rest[peeked..];
  }

  lemma LateAfterCommit(stale: Block, log: Log, rest: seq<Block>, peeked: nat, written: seq<Block>)
    requires LateBy(stale, log, rest, peeked)
    ensures LateBy(stale, log.(accepted := log.accepted + written, open := []), rest + written, peeked)
  {
    assert (rest + written)[..peeked] == rest[..peeked];
    Regroup([stale], log.accepted, written);
    Regroup(log.delivered, rest, written);
  }

  ghost predicate OneLate(stale: Block, log: Log, r: Ring)
    requires Consistent(r)
  {
    && r.used + r.reserved < r.Count()
    && LateBy(stale, log, Window(r, r.used + 1), r.peeked)
  }

  // What is left to read after each step.
  lemma WindowAfterCommit(log: Log, r: Ring)
    requires Consistent(r) && OpenMatches(log, r) && r.used + r.reserved < r.Count()
    ensures var r' := CommitStep(r).0;
            && Consistent(r') && r'.used == r.used + r.reserved && r'.reserved == 0 && r'.peeked == r.peeked
            && Window(r', r'.used + 1) == Window(r, r.used + 1) + Written(log, r)
  {
    assert Next(r.Count(), r.end) == At(r.Count(), r.start, r.used + 1);
    TurnSplit(r.blocks, r.start, r.used + 1, r.reserved);
    CommitConsistent(r);
  }

  lemma WindowAfterConsume(r: Ring)
    requires Consistent(r) && r.used + r.reserved < r.Count()
    ensures var r' := ConsumeStep(r).0;
            && Consistent(r') && r'.used == r.used - r.peeked && r'.reserved == r.reserved && r'.peeked == 0
            && Window(r', r'.used + 1) == Window(r, r.used + 1)[r.peeked..]
  {
    ConsumeConsistent(r);
    TurnSplit(r.blocks, r.start, r.peeked, r.used - r.peeked + 1);
  }

  lemma WindowAfterFill(log: Log, r: Ring, slot: nat, bytes: Block)
    requires Consistent(r) && OpenMatches(log, r) && r.used + r.reserved < r.Count() && slot in log.open
    ensures var r' := FillStep(r, slot, bytes).0;
            && Consistent(r') && r'.used == r.used && r'.reserved == r.reserved && r'.peeked == r.peeked
            && Window(r', r.used + 1) == Window(r, r.used + 1)
  {
    OtherStepsConsistent(r, slot, bytes);
    var k :| 0 <= k < r.reserved && slot == log.open[k];
    assert slot == At(r.Count(), r.start, r.used + k + 1);
    TurnUpdate(r.blocks, r.start, r.used + 1, slot, bytes);
  }

  lemma WindowAfterPeek(r: Ring)
    requires Consistent(r) && r.peeked < r.used < r.Count()
    ensures var (r', reply) := PeekStep(r);
            && Consistent(r') && r'.peeked == r.peeked + 1
            && Window(r, r.used + 1)[..r'.peeked] == Window(r, r.used + 1)[..r.peeked] + Got(reply)
  {
    PeekConsistent(r);
    var w := Window(r, r.used + 1);
    assert w[..r.peeked + 1] == w[..r.peeked] + [w[r.peeked]];
  }

  lemma CommitOneLate(stale: Block, log: Log, r: Ring)
    requires Consistent(r) && OpenMatches(log, r) && OneLate(stale, log, r)
    ensures Consistent(CommitStep(r).0) && OneLate(stale, ObserveStep(log, r, Commit), CommitStep(r).0)
  {
    WindowAfterCommit(log, r);
    LateAfterCommit(stale, log, Window(r, r.used + 1), r.peeked, Written(log, r));
  }

  lemma ConsumeOneLate(stale: Block, log: Log, r: Ring)
    requires Consistent(r) && OpenMatches(log, r) && OneLate(stale, log, r)
    ensures Consistent(ConsumeStep(r).0) && OneLate(stale, ObserveStep(log, r, Consume), ConsumeStep(r).0)
  {
    WindowAfterConsume(r);
    LateAfterConsume(stale, log, Window(r, r.used + 1), r.peeked);
  }

  lemma PeekOneLate(stale: Block, log: Log, r: Ring)
    requires Consistent(r) && OpenMatches(log, r) && OneLate(stale, log, r)
    ensures Consistent(PeekStep(r).0) && OneLate(stale, ObserveStep(log, r, Peek), PeekStep(r).0)
  {
    if r.peeked < r.used {
      WindowAfterPeek(r);
    }
  }

  // The remaining steps leave what is to be read alone.
  lemma OthersOneLate(stale: Block, log: Log, r: Ring, op: Op)
    requires Consistent(r) && OpenMatches(log, r) && OneLate(stale, log, r)
    requires op.Release? || op.Unpeek? || (op.Reserve? && r.used + r.reserved + 1 < r.Count())
    ensures Consistent(Step(r, op).0)
    ensures OneLate(stale, ObserveStep(log, r, op), Step(r, op).0)
  {
    StepConsistentIffSafe(r, op);
  }

  lemma StepOneLate(stale: Block, log: Log, r: Ring, op: Op)
    requires Consistent(r) && OpenMatches(log, r) && OneLate(stale, log, r)
    requires ZeroCopyOp(op) && (op.Fill? ==> op.slot in log.open)
    requires op.Reserve? ==> r.used + r.reserved + 1 < r.Count()
    ensures Consistent(Step(r, op).0)
    ensures OneLate(stale, ObserveStep(log, r, op), Step(r, op).0)
  {
    if op.Commit? {
      CommitOneLate(stale, log, r);
    } else if op.Consume? {
      ConsumeOneLate(stale, log, r);
    } else if op.Fill? {
      WindowAfterFill(log, r, op.slot, op.bytes);
    } else if op.Peek? {
      PeekOneLate(stale, log, r);
    } else {
      OthersOneLate(stale, log, r, op);
    }
  }

  lemma {:induction false} ZeroCopyRunOneLate(stale: Block, log: Log, r: Ring, ops: seq<Op>)
    requires Consistent(r) && OpenMatches(log, r) && ProperRun(log, r, ops)
    requires OneLate(stale, log, r) && RoomyRun(r, ops)
    requires forall i :: 0 <= i < |ops| ==> ZeroCopyOp(ops[i])
    ensures var (l, s) := ObserveRun(log, r, ops); OneLate(stale, l, s)
    decreases |ops|
  {
    if ops != [] {
      StepOneLate(stale, log, r, ops[0]);
      StepKeepsOpen(log, r, ops[0]);
      ZeroCopyRunOneLate(stale, ObserveStep(log, r, ops[0]), Step(r, ops[0]).0, ops[1..]);
    }
  }

  // A reader that is one late sees `stale` first and then the accepted blocks from the beginning.
  lemma LateReads(stale: Block, log: Log, rest: seq<Block>, peeked: nat)
    requires LateBy(stale, log, rest, peeked) && peeked < |rest|
    ensures var seen := log.delivered + log.pending;
            && |log.delivered| + |rest| == |log.accepted| + 1
            && (0 < |seen| ==> seen[0] == stale)
            && (forall i :: 1 <= i < |seen| ==> i - 1 < |log.accepted| && seen[i] == log.accepted[i - 1])
  {
    var seen, all := log.delivered + log.pending, [stale] + log.accepted;
    assert forall i :: 0 <= i < |seen| ==> seen[i] == all[i];
  }

  // From a reset stream: the first block read is whatever the buffer held there; the i-th after it is the
  // (i-1)-th committed. Nothing else is lost, repeated or reordered, and the counts balance.
  lemma ZeroCopyFromReset(r: Ring, ops: seq<Op>)
    requires r == ResetStep(r).0 && r.WellFormed()
    requires ProperRun(EMPTY_LOG, r, ops) && RoomyRun(r, ops)
    requires forall i :: 0 <= i < |ops| ==> ZeroCopyOp(ops[i])
    ensures var (l, s) := ObserveRun(EMPTY_LOG, r, ops);
            var seen := l.delivered + l.pending;
            && |l.delivered| + s.used == |l.accepted|
            && (0 < |seen| ==> seen[0] == r.blocks[0])
            && (forall i :: 1 <= i < |seen| ==> i - 1 < |l.accepted| && seen[i] == l.accepted[i - 1])
  {
    assert Window(r, 1) == [r.blocks[0]];
    ZeroCopyRunOneLate(r.blocks[0], EMPTY_LOG, r, ops);
    var (l, s) := ObserveRun(EMPTY_LOG, r, ops);
    LateReads(r.blocks[0], l, Window(s, s.used + 1), s.peeked);
  }
}

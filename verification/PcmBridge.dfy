/**
  The PCM bridge as one thread at a time sees it: the two frame queues and the
  reassembly of 10 ms and 20 ms slices, as objects updated in place. The
  interleavings are in PlayoutRing, CaptureRing and BridgeLifecycle.
 */
module PcmBridge {
  import Arithmetic

  newtype Sample = x: int | -0x8000 <= x < 0x8000

  const SAMPLES_PER_10MS: nat := 480
  const SAMPLES_PER_20MS: nat := 960
  const QUEUE_CAPACITY: nat := 4

  type Frame = f: seq<Sample> | |f| == SAMPLES_PER_20MS witness Silence(SAMPLES_PER_20MS)

  datatype Status = Ok | InvalidArgument | Stopped | InputFull | OutputEmpty

  function Silence(count: nat): (s: seq<Sample>)
    ensures |s| == count
  {
    seq(count, _ => 0)
  }

  function Flatten(frames: seq<Frame>): seq<Sample> {
    if frames == [] then [] else frames[0] + Flatten(frames[1..])
  }

  lemma {:induction false} FlattenAppend(frames: seq<Frame>, f: Frame)
    ensures Flatten(frames + [f]) == Flatten(frames) + f
  {
    if frames == [] {
      assert frames + [f] == [f] && [f][1..] == [];
      assert Flatten([f]) == f + Flatten([]);
    } else {
      assert (frames + [f])[1..] == frames[1..] + [f];
      FlattenAppend(frames[1..], f);
      assert frames[0] + (Flatten(frames[1..]) + f) == frames[0] + Flatten(frames[1..]) + f;
    }
  }

  /** The index after `value` in a ring of `capacity + 1` slots. */
  function Next(value: nat, capacity: nat): nat
    requires value <= capacity
  {
    if value == capacity then 0 else value + 1
  }

  lemma NextWraps(value: nat, capacity: nat)
    requires value <= capacity
    ensures Next(value, capacity) == (value + 1) % (capacity + 1)
  {
    if value == capacity {
      Arithmetic.DivideUnique(value + 1, 1, 0, capacity + 1);
    } else {
      Arithmetic.DivideUnique(value + 1, 0, value + 1, capacity + 1);
    }
  }

  /** A ring with one slot always empty; it refines a bounded queue. */
  class CaptureQueue {
    const capacity: nat
    const frames: array<Frame>
    var read: nat
    var write: nat

    ghost predicate Valid()
      reads this
    {
      frames.Length == capacity + 1 && read <= capacity && write <= capacity
    }

    ghost function Contents(): (c: seq<Frame>)
      reads this, frames
      requires Valid()
      ensures |c| <= capacity
    {
      if read <= write then frames[read..write] else frames[read..] + frames[..write]
    }

    constructor (capacity: nat)
      ensures Valid() && Contents() == [] && this.capacity == capacity && fresh(frames)
    {
      this.capacity := capacity;
      frames := new Frame[capacity + 1](_ => Silence(SAMPLES_PER_20MS));
      read, write := 0, 0;
    }

    method Push(frame: Frame) returns (ok: bool)
      requires Valid()
      modifies this, frames
      ensures Valid()
      ensures ok == (|old(Contents())| < capacity)
      ensures Contents() == if ok then old(Contents()) + [frame] else old(Contents())
    {
      var next := Next(write, capacity);
      if next == read {
        return false;
      }
      frames[write] := frame;
      write := next;
      return true;
    }

    method Pop() returns (ok: bool, frame: Frame)
      requires Valid()
      modifies this
      ensures Valid()
      ensures ok == (old(Contents()) != [])
      ensures ok ==> old(Contents()) == [frame] + Contents()
      ensures !ok ==> Contents() == old(Contents())
    {
      frame := Silence(SAMPLES_PER_20MS);
      if read == write {
        return false, frame;
      }
      frame := frames[read];
      read := Next(read, capacity);
      return true, frame;
    }

    method Reset()
      requires Valid()
      modifies this
      ensures Valid() && Contents() == []
    {
      read := 0;
      write := 0;
    }
  }

  /** The remainder of `position`, by repeated subtraction: see `SlotIsRemainder`. */
  function Slot(position: nat, capacity: nat): (i: nat)
    requires capacity > 0
    ensures i < capacity
    decreases position
  {
    if position < capacity then position else Slot(position - capacity, capacity)
  }

  lemma {:induction false} SlotIsRemainder(position: nat, capacity: nat)
    requires capacity > 0
    ensures Slot(position, capacity) == position % capacity
    decreases position
  {
    if position < capacity {
      Arithmetic.DivideUnique(position, 0, position, capacity);
    } else {
      SlotIsRemainder(position - capacity, capacity);
      Arithmetic.AddMultiple(position - capacity, 1, capacity);
    }
  }

  /** Within one lap, no other position has the slot of `p`. */
  lemma SlotUnshared(p: nat, first: nat, capacity: nat)
    requires capacity > 0 && first <= p < first + capacity
    ensures forall q :: first <= q < first + capacity && q != p ==> Slot(q, capacity) != Slot(p, capacity)
  {
    forall q | first <= q < first + capacity && q != p ensures Slot(q, capacity) != Slot(p, capacity) {
      SlotIsRemainder(p, capacity);
      SlotIsRemainder(q, capacity);
      if Slot(q, capacity) == Slot(p, capacity) {
        Arithmetic.SameRemainder(if p < q then p else q, if p < q then q else p, capacity);
      }
    }
  }

  /** The sequence-numbered ring, run by one thread at a time; a push into a full ring drops the oldest frame. */
  class PlayoutQueue {
    const capacity: nat
    const sequences: array<nat>
    const frames: array<Frame>
    var enqueue: nat
    var dequeue: nat

    ghost predicate Valid()
      reads this, sequences
    {
      && 2 <= capacity == sequences.Length == frames.Length
      && dequeue <= enqueue <= dequeue + capacity
      && (forall p :: dequeue <= p < enqueue ==> sequences[Slot(p, capacity)] == p + 1)
      && (forall p :: enqueue <= p < dequeue + capacity ==> sequences[Slot(p, capacity)] == p)
    }

    ghost function Contents(): (c: seq<Frame>)
      reads this, sequences, frames
      requires Valid()
      ensures |c| == enqueue - dequeue <= capacity
    {
      var first := dequeue;
      seq(enqueue - first, k requires 0 <= k reads frames => frames[Slot(first + k, capacity)])
    }

    constructor (capacity: nat)
      requires capacity >= 2
      ensures Valid() && Contents() == [] && this.capacity == capacity && fresh(sequences) && fresh(frames)
    {
      this.capacity := capacity;
      sequences := new nat[capacity](i => i);
      frames := new Frame[capacity](_ => Silence(SAMPLES_PER_20MS));
      enqueue, dequeue := 0, 0;
    }

    method TryPush(frame: Frame) returns (ok: bool)
      requires Valid()
      modifies this, sequences, frames
      ensures Valid()
      ensures ok == (|old(Contents())| < capacity)
      ensures Contents() == if ok then old(Contents()) + [frame] else old(Contents())
    {
      var position := enqueue;
      var cell := Slot(position, capacity);
      if enqueue == dequeue + capacity {
        FullCell();
      } else {
        SlotUnshared(position, dequeue, capacity);
      }
      if sequences[cell] < position {
        return false;
      }
      assert sequences[cell] == position;  // alone, a thread never sees a later lap
      enqueue := position + 1;
      frames[cell] := frame;
      sequences[cell] := position + 1;
      assert Contents() == old(Contents()) + [frame];
      return true;
    }

    /** In a full ring the cell of the next position still holds the oldest frame. */
    lemma FullCell()
      requires Valid() && enqueue == dequeue + capacity
      ensures sequences[Slot(enqueue, capacity)] == dequeue + 1
    {
    }

    method Pop() returns (ok: bool, frame: Frame)
      requires Valid()
      modifies this, sequences
      ensures Valid() && enqueue == old(enqueue)
      ensures ok == (old(Contents()) != [])
      ensures ok ==> old(Contents()) == [frame] + Contents()
      ensures !ok ==> Contents() == old(Contents())
    {
      var position := dequeue;
      var cell := Slot(position, capacity);
      SlotUnshared(position, dequeue, capacity);
      assert Slot(position + capacity, capacity) == cell;
      ghost var was := Contents();
      frame := Silence(SAMPLES_PER_20MS);
      if sequences[cell] < position + 1 {
        return false, frame;
      }
      assert sequences[cell] == position + 1;
      dequeue := position + 1;
      frame := frames[cell];
      sequences[cell] := position + capacity;
      assert was[0] == frame;
      assert Contents() == was[1..];
      return true, frame;
    }

    /** Keeps the newest `capacity` frames. */
    method PushDroppingOldest(frame: Frame) returns (dropped: bool)
      requires Valid()
      modifies this, sequences, frames
      ensures Valid()
      ensures dropped == (|old(Contents())| == capacity)
      ensures Contents() == (if dropped then old(Contents())[1..] else old(Contents())) + [frame]
    {
      dropped := false;
      var pushed := TryPush(frame);
      while !pushed
        invariant Valid()
        invariant !pushed ==> Contents() == old(Contents()) && |Contents()| == capacity && !dropped
        invariant pushed ==> dropped == (|old(Contents())| == capacity)
        invariant pushed ==> Contents() == (if dropped then old(Contents())[1..] else old(Contents())) + [frame]
        decreases !pushed
      {
        var popped, discarded := Pop();
        if popped {
          dropped := true;
        }
        pushed := TryPush(frame);
      }
    }

    method Reset()
      requires Valid()
      modifies this, sequences
      ensures Valid() && Contents() == []
    {
      for index := 0 to capacity
        invariant forall k :: 0 <= k < index ==> sequences[k] == k
      {
        sequences[index] := index;
      }
      enqueue := 0;
      dequeue := 0;
    }
  }

  /** Delivered, still to deliver and queued samples are exactly the accepted ones, in order. */
  ghost predicate CaptureConserved(
    accepted: seq<Sample>, delivered: seq<Sample>, rest: seq<Sample>, queue: seq<Frame>)
  {
    accepted == delivered + rest + Flatten(queue)
  }

  lemma AcceptFrame(
      accepted: seq<Sample>, delivered: seq<Sample>, rest: seq<Sample>, queue: seq<Frame>, frame: Frame)
    requires CaptureConserved(accepted, delivered, rest, queue)
    ensures CaptureConserved(accepted + frame, delivered, rest, queue + [frame])
  {
    FlattenAppend(queue, frame);
  }

  /** The 10 ms slice of a frame at offset 0, or at offset `SAMPLES_PER_10MS` when `second`. */
  function Half(frame: Frame, second: bool): (slice: seq<Sample>)
    ensures |slice| == SAMPLES_PER_10MS
  {
    if second then frame[SAMPLES_PER_10MS..] else frame[..SAMPLES_PER_10MS]
  }

  lemma HalvesJoin(first: seq<Sample>, second: seq<Sample>)
    requires |first| == SAMPLES_PER_10MS && |second| == SAMPLES_PER_10MS
    ensures Half(first + second, false) == first && Half(first + second, true) == second
  {
  }

  lemma DeliverFirstHalf(
      accepted: seq<Sample>, delivered: seq<Sample>, frame: Frame, queue: seq<Frame>, queue': seq<Frame>)
    requires CaptureConserved(accepted, delivered, [], queue) && queue == [frame] + queue'
    ensures CaptureConserved(accepted, delivered + Half(frame, false), Half(frame, true), queue')
  {
    assert queue[1..] == queue';
  }

  lemma DeliverSecondHalf(accepted: seq<Sample>, delivered: seq<Sample>, frame: Frame, queue: seq<Frame>)
    requires CaptureConserved(accepted, delivered, Half(frame, true), queue)
    ensures CaptureConserved(accepted, delivered + Half(frame, true), [], queue)
  {
  }

  /** The accepted slices are the assembled frames and the slice that waits for its second half. */
  ghost predicate PlayoutAssembled(accepted: seq<Sample>, assembled: seq<Frame>, rest: seq<Sample>) {
    accepted == Flatten(assembled) + rest
  }

  /** The queue holds the newest frames; each of the others was received by a consumer or counted as dropped. */
  ghost predicate PlayoutConserved(assembled: seq<Frame>, dropped: nat, played: nat, queue: seq<Frame>) {
    && |assembled| == dropped + played + |queue|
    && queue == assembled[|assembled| - |queue|..]
  }

  lemma PlayNext(assembled: seq<Frame>, dropped: nat, played: nat, frame: Frame, queue: seq<Frame>)
    requires PlayoutConserved(assembled, dropped, played, [frame] + queue)
    ensures PlayoutConserved(assembled, dropped, played + 1, queue)
  {
    assert ([frame] + queue)[1..] == queue;
  }

  lemma KeepNewest(assembled: seq<Frame>, dropped: nat, played: nat, queue: seq<Frame>, frame: Frame, full: bool)
    requires PlayoutConserved(assembled, dropped, played, queue) && (full ==> queue != [])
    ensures PlayoutConserved(
              assembled + [frame], dropped + (if full then 1 else 0), played,
              (if full then queue[1..] else queue) + [frame])
  {
  }

  lemma AssembleFrame(accepted: seq<Sample>, assembled: seq<Frame>, first: seq<Sample>, second: seq<Sample>)
    requires |first| == SAMPLES_PER_10MS && |second| == SAMPLES_PER_10MS
    requires PlayoutAssembled(accepted, assembled, first)
    ensures PlayoutAssembled(accepted + second, assembled + [first + second], [])
  {
    FlattenAppend(assembled, first + second);
  }

  /**
    Capture: 20 ms frames in, 10 ms slices out. `accepted` and `delivered` are history since
    the last reset: the samples of every accepted frame and of every delivered slice.
   */
  class CapturePath {
    const queue: CaptureQueue
    var current: Frame
    var secondHalf: bool
    ghost var accepted: seq<Sample>
    ghost var delivered: seq<Sample>

    ghost const Repr: set<object>

    /** The slice of the current frame that is still to be delivered. */
    ghost function Rest(): seq<Sample>
      reads this
    {
      if secondHalf then Half(current, true) else []
    }

    ghost predicate Valid()
      reads this, Repr
      ensures Valid() ==> this in Repr
    {
      && Repr == {this, queue, queue.frames}
      && queue.Valid() && queue.capacity == QUEUE_CAPACITY
      && CaptureConserved(accepted, delivered, Rest(), queue.Contents())
    }

    constructor ()
      ensures Valid() && fresh(Repr) && accepted == [] && delivered == []
    {
      var q := new CaptureQueue(QUEUE_CAPACITY);
      queue, Repr := q, {this, q, q.frames};
      current, secondHalf := Silence(SAMPLES_PER_20MS), false;
      accepted, delivered := [], [];
    }

    method PushFrame(frame: Frame) returns (ok: bool)
      requires Valid()
      modifies Repr
      ensures Valid() && ok == (|old(queue.Contents())| < QUEUE_CAPACITY)
      ensures accepted == old(accepted) + (if ok then frame else []) && delivered == old(delivered)
    {
      ghost var queued := queue.Contents();
      ok := queue.Push(frame);
      if ok {
        AcceptFrame(accepted, delivered, Rest(), queued, frame);
        accepted := accepted + frame;
      }
    }

    /** The second half of the current frame if it is due, else the first half of the next frame. */
    method NextSlice() returns (ok: bool, slice: seq<Sample>)
      requires Valid()
      modifies Repr
      ensures Valid() && |slice| == SAMPLES_PER_10MS
      ensures ok == (old(secondHalf) || old(queue.Contents()) != [])
      ensures delivered == old(delivered) + (if ok then slice else []) && accepted == old(accepted)
      ensures !ok ==> slice == Silence(SAMPLES_PER_10MS)
    {
      ghost var queued := queue.Contents();
      if !secondHalf {
        var popped, frame := queue.Pop();
        if !popped { return false, Silence(SAMPLES_PER_10MS); }
        current := frame;
        DeliverFirstHalf(accepted, delivered, frame, queued, queue.Contents());
      } else {
        DeliverSecondHalf(accepted, delivered, current, queued);
      }
      slice := Half(current, secondHalf);
      secondHalf := !secondHalf;
      delivered := delivered + slice;
      return true, slice;
    }

    /** `admitted` is whether the callback gate let the caller in; it does so until the bridge is stopped. */
    method PushCapture20ms(samples: array?<Sample>, admitted: bool) returns (status: Status)
      requires Valid()
      requires samples != null ==> samples.Length == SAMPLES_PER_20MS
      modifies Repr
      ensures Valid()
      ensures status == if samples == null then InvalidArgument else if !admitted then Stopped
                        else if |old(queue.Contents())| == QUEUE_CAPACITY then InputFull else Ok
      ensures accepted == old(accepted) + if status.Ok? then old(samples[..]) else []
      ensures delivered == old(delivered)
    {
      if samples == null { return InvalidArgument; }
      if !admitted { return Stopped; }
      var pushed := PushFrame(samples[..]);
      return if pushed then Ok else InputFull;
    }

    method PopCapture10ms(samples: array?<Sample>, admitted: bool) returns (status: Status)
      requires Valid() && samples !in Repr
      requires samples != null ==> samples.Length == SAMPLES_PER_10MS
      modifies Repr, samples
      ensures Valid()
      ensures status == if samples == null then InvalidArgument else if !admitted then Stopped
                        else if !old(secondHalf) && old(queue.Contents()) == [] then OutputEmpty else Ok
      ensures samples != null && !status.Ok? ==> samples[..] == Silence(SAMPLES_PER_10MS)
      ensures delivered == old(delivered) + if status.Ok? then samples[..] else []
      ensures accepted == old(accepted)
    {
      if samples == null { return InvalidArgument; }
      if !admitted {
        Fill(samples, Silence(SAMPLES_PER_10MS));
        return Stopped;
      }
      var ok, slice := NextSlice();
      Fill(samples, slice);
      return if ok then Ok else OutputEmpty;
    }

    /** The part of Drain that empties capture. */
    method Reset()
      requires Valid()
      modifies Repr
      ensures Valid() && queue.Contents() == [] && !secondHalf && accepted == [] && delivered == []
    {
      queue.Reset();
      current := Silence(SAMPLES_PER_20MS);
      secondHalf := false;
      accepted, delivered := [], [];
    }
  }

  /**
    Playout: 10 ms slices in, 20 ms frames out. History since the last reset: the samples of
    every accepted slice, the frames assembled from them, and the frames consumers received;
    `lost` counts the frames dropped in that time.
   */
  class PlayoutPath {
    const queue: PlayoutQueue
    var pending: Frame
    var pendingFirstHalf: bool
    var droppedFrames: nat
    ghost var accepted: seq<Sample>
    ghost var assembled: seq<Frame>
    ghost var played: nat
    ghost var lost: nat

    ghost const Repr: set<object>

    /** The slice that waits for its second half. */
    ghost function Rest(): seq<Sample>
      reads this
    {
      if pendingFirstHalf then Half(pending, false) else []
    }

    ghost predicate Valid()
      reads this, Repr
      ensures Valid() ==> this in Repr
    {
      && Repr == {this, queue, queue.sequences, queue.frames}
      && queue.Valid() && queue.capacity == QUEUE_CAPACITY
      && PlayoutAssembled(accepted, assembled, Rest())
      && PlayoutConserved(assembled, lost, played, queue.Contents())
      && lost <= droppedFrames
    }

    constructor ()
      ensures Valid() && fresh(Repr) && droppedFrames == 0
      ensures accepted == [] && assembled == [] && played == 0 && lost == 0
    {
      var q := new PlayoutQueue(QUEUE_CAPACITY);
      queue, Repr := q, {this, q, q.sequences, q.frames};
      pending, pendingFirstHalf := Silence(SAMPLES_PER_20MS), false;
      droppedFrames := 0;
      accepted, assembled, played, lost := [], [], 0, 0;
    }

    /** Keeps the first half of a frame; the second half completes the frame and pushes it. */
    method PushSlice(slice: seq<Sample>)
      requires Valid() && |slice| == SAMPLES_PER_10MS
      modifies Repr
      ensures Valid() && accepted == old(accepted) + slice && played == old(played)
      ensures var full := old(pendingFirstHalf) && |old(queue.Contents())| == QUEUE_CAPACITY;
              && droppedFrames == old(droppedFrames) + (if full then 1 else 0)
              && lost == old(lost) + if full then 1 else 0
    {
      if !pendingFirstHalf {
        HalvesJoin(slice, Half(pending, true));
        pending := slice + Half(pending, true);
        pendingFirstHalf := true;
        accepted := accepted + slice;
        return;
      }
      AssembleFrame(accepted, assembled, Half(pending, false), slice);
      pending := Half(pending, false) + slice;
      pendingFirstHalf := false;
      accepted := accepted + slice;
      PushFrame(pending);
    }

    /** Pushes an assembled frame; a frame dropped for it is counted. */
    method PushFrame(frame: Frame)
      requires queue.Valid() && queue.capacity == QUEUE_CAPACITY && Repr == {this, queue, queue.sequences, queue.frames}
      requires PlayoutConserved(assembled, lost, played, queue.Contents()) && lost <= droppedFrames
      modifies queue, queue.sequences, queue.frames, `assembled, `lost, `droppedFrames
      ensures queue.Valid() && PlayoutConserved(assembled, lost, played, queue.Contents()) && lost <= droppedFrames
      ensures assembled == old(assembled) + [frame]
      ensures var full := |old(queue.Contents())| == QUEUE_CAPACITY;
              && droppedFrames == old(droppedFrames) + (if full then 1 else 0)
              && lost == old(lost) + if full then 1 else 0
    {
      KeepNewest(assembled, lost, played, queue.Contents(), frame, |queue.Contents()| == QUEUE_CAPACITY);
      assembled := assembled + [frame];
      var dropped := queue.PushDroppingOldest(frame);
      if dropped {
        droppedFrames, lost := droppedFrames + 1, lost + 1;
      }
    }

    method NextFrame() returns (ok: bool, frame: Frame)
      requires Valid()
      modifies Repr
      ensures Valid() && ok == (old(queue.Contents()) != [])
      ensures ok ==> frame == old(queue.Contents())[0] && queue.Contents() == old(queue.Contents())[1..]
      ensures played == old(played) + (if ok then 1 else 0)
      ensures accepted == old(accepted) && droppedFrames == old(droppedFrames) && lost == old(lost)
    {
      ok, frame := queue.Pop();
      if ok {
        PlayNext(assembled, lost, played, frame, queue.Contents());
        played := played + 1;
      }
    }

    method PushPlayout10ms(samples: array?<Sample>, admitted: bool) returns (status: Status)
      requires Valid()
      requires samples != null ==> samples.Length == SAMPLES_PER_10MS
      modifies Repr
      ensures Valid()
      ensures status == if samples == null then InvalidArgument else if !admitted then Stopped else Ok
      ensures accepted == old(accepted) + if status.Ok? then old(samples[..]) else []
      ensures var full := status.Ok? && old(pendingFirstHalf) && |old(queue.Contents())| == QUEUE_CAPACITY;
              && droppedFrames == old(droppedFrames) + (if full then 1 else 0)
              && lost == old(lost) + if full then 1 else 0
      ensures played == old(played)
    {
      if samples == null { return InvalidArgument; }
      if !admitted { return Stopped; }
      PushSlice(samples[..]);
      return Ok;
    }

    method PopPlayout20ms(samples: array?<Sample>, admitted: bool) returns (status: Status)
      requires Valid() && samples !in Repr
      requires samples != null ==> samples.Length == SAMPLES_PER_20MS
      modifies Repr, samples
      ensures Valid()
      ensures status == if samples == null then InvalidArgument else if !admitted then Stopped
                        else if old(queue.Contents()) == [] then OutputEmpty else Ok
      ensures status.Ok? ==> samples[..] == old(queue.Contents())[0]
      ensures status.Ok? ==> queue.Contents() == old(queue.Contents())[1..]
      ensures samples != null && !status.Ok? ==> samples[..] == Silence(SAMPLES_PER_20MS)
      ensures played == old(played) + (if status.Ok? then 1 else 0)
      ensures accepted == old(accepted) && droppedFrames == old(droppedFrames) && lost == old(lost)
    {
      if samples == null { return InvalidArgument; }
      if !admitted {
        Fill(samples, Silence(SAMPLES_PER_20MS));
        return Stopped;
      }
      var ok, frame := NextFrame();
      if !ok {
        Fill(samples, Silence(SAMPLES_PER_20MS));
        return OutputEmpty;
      }
      Fill(samples, frame);
      return Ok;
    }

    /** The part of Drain that empties playout; the drop counter is kept. */
    method Reset()
      requires Valid()
      modifies Repr
      ensures Valid() && queue.Contents() == [] && !pendingFirstHalf && droppedFrames == old(droppedFrames)
      ensures accepted == [] && assembled == [] && played == 0 && lost == 0
    {
      queue.Reset();
      pending := Silence(SAMPLES_PER_20MS);
      pendingFirstHalf := false;
      accepted, assembled, played, lost := [], [], 0, 0;
    }
  }

  /** What conservation means to a listener: the slices delivered with status Ok are a prefix of the accepted frames. */
  lemma DeliveredIsPrefix(
      accepted: seq<Sample>, delivered: seq<Sample>, rest: seq<Sample>, queue: seq<Frame>)
    requires CaptureConserved(accepted, delivered, rest, queue)
    ensures delivered <= accepted
    ensures |accepted| == |delivered| + |rest| + SAMPLES_PER_20MS * |queue|
  {
    FlattenLength(queue);
  }

  lemma {:induction false} FlattenLength(frames: seq<Frame>)
    ensures |Flatten(frames)| == SAMPLES_PER_20MS * |frames|
  {
    if frames != [] {
      FlattenLength(frames[1..]);
    }
  }

  method Fill(target: array<Sample>, source: seq<Sample>)
    requires target.Length == |source|
    modifies target
    ensures target[..] == source
  {
    for i := 0 to |source|
      invariant target[..i] == source[..i]
    {
      target[i] := source[i];
    }
  }
}

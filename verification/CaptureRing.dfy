/**
  The capture queue under every interleaving of its one producer and its one consumer.
  Every atomic load and store of an index, and every copy of a frame, is one step.
 */
module CaptureRing {
  import Arithmetic

  /**
    What the two threads share: `capacity + 1` frames and the two indices. History: the
    frames whose push was published, and the frames whose pop was published.
   */
  datatype Shared<F> = Shared(frames: seq<F>, read: nat, write: nat, accepted: seq<F>, delivered: seq<F>)

  /** `since` is history: how many pops had been published when the producer loaded the read index. */
  datatype Producer<F> =
    | Resting
    | LoadedWrite(frame: F, write: nat)
    | LoadedBoth(frame: F, write: nat, read: nat, since: nat)
    | Copied(frame: F, write: nat)

  /** `until` is history: how many pushes had been published when the consumer loaded the write index. */
  datatype Consumer<F> =
    | Waiting
    | LoadedRead(read: nat)
    | LoadedEnds(read: nat, write: nat, until: nat)
    | Taken(read: nat, frame: F)

  datatype State<F> = State(shared: Shared<F>, producer: Producer<F>, consumer: Consumer<F>)

  function Next(index: nat, slots: nat): nat
    requires slots > 0
  {
    (index + 1) % slots
  }

  function Initial<F>(capacity: nat, blank: F): State<F> {
    State(Shared(seq(capacity + 1, _ => blank), 0, 0, [], []), Resting, Waiting)
  }

  /** Every index is one of a slot. */
  predicate Indexed<F>(s: State<F>) {
    var slots := |s.shared.frames|;
    && s.shared.write < slots && s.shared.read < slots
    && (s.producer.Resting? || s.producer.write < slots)
    && (s.consumer.Waiting? || s.consumer.read < slots)
  }

  /** Push: `frame` is what a resting producer pushes next. */
  function ProducerStep<F>(g: Shared<F>, p: Producer<F>, frame: F): (Shared<F>, Producer<F>)
    requires Indexed(State(g, p, Waiting))
  {
    match p
    case Resting => (g, LoadedWrite(frame, g.write))
    case LoadedWrite(f, write) => (g, LoadedBoth(f, write, g.read, |g.delivered|))
    case LoadedBoth(f, write, read, _) =>
      if Next(write, |g.frames|) == read then (g, Resting)
      else (g.(frames := g.frames[write := f]), Copied(f, write))
    case Copied(f, write) => (g.(write := Next(write, |g.frames|), accepted := g.accepted + [f]), Resting)
  }

  function ConsumerStep<F>(g: Shared<F>, c: Consumer<F>): (Shared<F>, Consumer<F>)
    requires Indexed(State(g, Resting, c))
  {
    match c
    case Waiting => (g, LoadedRead(g.read))
    case LoadedRead(read) => (g, LoadedEnds(read, g.write, |g.accepted|))
    case LoadedEnds(read, write, _) =>
      if read == write then (g, Waiting) else (g, Taken(read, g.frames[read]))
    case Taken(read, f) => (g.(read := Next(read, |g.frames|), delivered := g.delivered + [f]), Waiting)
  }

  datatype Move<F> = Produce(frame: F) | Consume

  function Step<F>(s: State<F>, m: Move<F>): (s': State<F>)
    requires Indexed(s)
    ensures Indexed(s') && |s'.shared.frames| == |s.shared.frames|
  {
    match m
    case Produce(frame) =>
      var (shared, producer) := ProducerStep(s.shared, s.producer, frame);
      State(shared, producer, s.consumer)
    case Consume =>
      var (shared, consumer) := ConsumerStep(s.shared, s.consumer);
      State(shared, s.producer, consumer)
  }

  function Run<F>(s: State<F>, moves: seq<Move<F>>): (s': State<F>)
    requires Indexed(s)
    ensures Indexed(s') && |s'.shared.frames| == |s.shared.frames|
    decreases |moves|
  {
    if moves == [] then s else Run(Step(s, moves[0]), moves[1..])
  }

  // ---------------------------------------------------------------- invariant

  /** The ring holds exactly the frames accepted and not yet delivered, each in the slot of its number. */
  ghost predicate RingOk<F>(g: Shared<F>) {
    var slots := |g.frames|;
    && slots > 0
    && |g.delivered| <= |g.accepted| < |g.delivered| + slots
    && g.write == |g.accepted| % slots && g.read == |g.delivered| % slots
    && g.delivered == g.accepted[..|g.delivered|]
    && (forall n :: |g.delivered| <= n < |g.accepted| ==> g.frames[n % slots] == g.accepted[n])
  }

  ghost predicate ProducerOk<F>(g: Shared<F>, p: Producer<F>)
    requires |g.frames| > 0
  {
    match p
    case Resting => true
    case LoadedWrite(_, write) => write == g.write
    case LoadedBoth(_, write, read, since) =>
      write == g.write && read == since % |g.frames| && since <= |g.delivered| && |g.accepted| < since + |g.frames|
    case Copied(f, write) =>
      write == g.write && write < |g.frames| && g.frames[write] == f && |g.accepted| + 1 < |g.delivered| + |g.frames|
  }

  ghost predicate ConsumerOk<F>(g: Shared<F>, c: Consumer<F>)
    requires |g.frames| > 0
  {
    match c
    case Waiting => true
    case LoadedRead(read) => read == g.read
    case LoadedEnds(read, write, until) =>
      read == g.read && write == until % |g.frames| && |g.delivered| <= until <= |g.accepted|
    case Taken(read, f) => read == g.read && |g.delivered| < |g.accepted| && f == g.accepted[|g.delivered|]
  }

  ghost predicate Inv<F>(s: State<F>) {
    Indexed(s) && RingOk(s.shared) && ProducerOk(s.shared, s.producer) && ConsumerOk(s.shared, s.consumer)
  }

  lemma ProducerStepInv<F>(s: State<F>, frame: F)
    requires Inv(s)
    ensures Inv(Step(s, Produce(frame)))
  {
    var g := s.shared;
    var slots := |g.frames|;
    Arithmetic.Euclid(|g.accepted|, slots);
    if s.producer.LoadedBoth? {
      var since := s.producer.since;
      if Next(s.producer.write, slots) != s.producer.read {
        NotFull(|g.accepted|, since, slots);
        forall n | |g.delivered| <= n < |g.accepted| ensures n % slots != |g.accepted| % slots {
          if n % slots == |g.accepted| % slots { Arithmetic.SameRemainder(n, |g.accepted|, slots); }
        }
      }
    } else if s.producer.Copied? {
      NextIndex(|g.accepted|, slots);
    }
  }

  /** The next index after `w` is the index of `w + 1`. */
  lemma NextIndex(w: nat, slots: nat)
    requires slots > 0
    ensures Next(w % slots, slots) == (w + 1) % slots
  {
    Arithmetic.Euclid(w, slots);
    if slots == 1 {
      Arithmetic.DivideUnique(w + 1, w + 1, 0, 1);
      Arithmetic.DivideUnique(w, w, 0, 1);
      Arithmetic.DivideUnique(1, 1, 0, 1);
    } else {
      Arithmetic.NextRemainder(w, slots);
      Arithmetic.DivideUnique(w % slots, 0, w % slots, slots);
      Arithmetic.NextRemainder(w % slots, slots);
    }
  }

  /** The producer's test leaves one slot empty. */
  lemma NotFull(w: nat, since: nat, slots: nat)
    requires slots > 0 && since <= w < since + slots && Next(w % slots, slots) != since % slots
    ensures w + 1 < since + slots
  {
    NextIndex(w, slots);
    if w + 1 == since + slots {
      Arithmetic.AddMultiple(since, 1, slots);
    }
  }

  lemma ConsumerStepInv<F>(s: State<F>)
    requires Inv(s)
    ensures Inv(Step(s, Consume))
  {
    var g := s.shared;
    Arithmetic.Euclid(|g.delivered|, |g.frames|);
    NextIndex(|g.delivered|, |g.frames|);
  }

  lemma {:induction false} RunInv<F>(s: State<F>, moves: seq<Move<F>>)
    requires Inv(s)
    ensures Inv(Run(s, moves))
    decreases |moves|
  {
    if moves != [] {
      if moves[0].Produce? {
        ProducerStepInv(s, moves[0].frame);
      } else {
        ConsumerStepInv(s);
      }
      RunInv(Step(s, moves[0]), moves[1..]);
    }
  }

  // ---------------------------------------------------------------- theorems

  lemma FromInitial<F>(capacity: nat, blank: F, moves: seq<Move<F>>)
    ensures Inv(Run(Initial(capacity, blank), moves))
  {
    RunInv(Initial(capacity, blank), moves);
  }

  /** What the consumer got is a prefix of what the producer was told was accepted, at most `capacity` frames behind. */
  lemma DeliveredIsPrefix<F>(capacity: nat, blank: F, moves: seq<Move<F>>)
    ensures var g := Run(Initial(capacity, blank), moves).shared;
            g.delivered <= g.accepted && |g.accepted| <= |g.delivered| + capacity
  {
    FromInitial(capacity, blank, moves);
  }

  /** The slot the producer writes is never the slot the consumer reads. */
  lemma SlotsDiffer<F>(capacity: nat, blank: F, moves: seq<Move<F>>)
    ensures var s := Run(Initial(capacity, blank), moves);
            (s.producer.Copied? || (s.producer.LoadedBoth? && Next(s.producer.write, capacity + 1) != s.producer.read)) &&
            (s.consumer.Taken? || (s.consumer.LoadedEnds? && s.consumer.read != s.consumer.write)) ==>
              s.producer.write != s.consumer.read
  {
    var s := Run(Initial(capacity, blank), moves);
    FromInitial(capacity, blank, moves);
    var slots := capacity + 1;
    var w, r := |s.shared.accepted|, |s.shared.delivered|;
    if s.producer.LoadedBoth? && Next(s.producer.write, slots) != s.producer.read {
      NotFull(w, s.producer.since, slots);
    }
    if r < w && w % slots == r % slots {
      Arithmetic.SameRemainder(r, w, slots);
    }
  }

  /** A push alone is refused exactly when the ring holds `capacity` frames. */
  lemma SoloPush<F>(s: State<F>, frame: F)
    requires Inv(s) && s.producer.Resting?
    ensures var p := Produce(frame);
            var full := |s.shared.accepted| == |s.shared.delivered| + |s.shared.frames| - 1;
            var s3 := Step(Step(Step(s, p), p), p);
            if full then s3 == s else Step(s3, p).shared.accepted == s.shared.accepted + [frame]
  {
    var g := s.shared;
    var slots := |g.frames|;
    var w, r := |g.accepted|, |g.delivered|;
    NextIndex(w, slots);
    if w + 1 == r + slots {
      Arithmetic.AddMultiple(r, 1, slots);
    } else if (w + 1) % slots == r % slots {
      Arithmetic.SameRemainder(r, w + 1, slots);
    }
  }

  /** A pop alone is refused exactly when the ring is empty, and otherwise delivers the oldest frame. */
  lemma SoloPop<F>(s: State<F>)
    requires Inv(s) && s.consumer.Waiting?
    ensures var s3 := Step(Step(Step(s, Consume), Consume), Consume);
            if s.shared.accepted == s.shared.delivered then s3 == s
            else Step(s3, Consume).shared.delivered == s.shared.accepted[..|s.shared.delivered| + 1]
  {
    var w, r := |s.shared.accepted|, |s.shared.delivered|;
    if r < w && w % |s.shared.frames| == r % |s.shared.frames| {
      Arithmetic.SameRemainder(r, w, |s.shared.frames|);
    }
  }
}

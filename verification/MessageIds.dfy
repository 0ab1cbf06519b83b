/** The arithmetic of Telegram message IDs: 16-slot buckets, one per second, in the int32 space of a scope. */
module MessageIds {

  const MAX_ID: int := 0x7fff_ffff
  const SLOTS: int := 16
  const MAX_SECOND: int := (MAX_ID - SLOTS + 1) / SLOTS
  const INITIAL_SECOND: int := 0x4000_0000 / SLOTS
  const MAX_SAFE_INTEGER: int := 0x1f_ffff_ffff_ffff

  datatype Result<T> = Ok(value: T) | RangeError

  predicate IsTimestamp(value: int) {
    -MAX_SAFE_INTEGER <= value <= MAX_SAFE_INTEGER
  }

  /** The first message of a scope decides its epoch. */
  function InitialEpoch(timestamp: int): Result<int> {
    if IsTimestamp(timestamp) then Ok(timestamp - INITIAL_SECOND) else RangeError
  }

  function Bucket(epoch: int, timestamp: int): Result<int> {
    if !IsTimestamp(epoch) || !IsTimestamp(timestamp) then RangeError
    else
      var second := timestamp - epoch;
      if second <= 0 || second > MAX_SECOND then RangeError else Ok(second * SLOTS)
  }

  function Min(a: int, b: int): int { if a <= b then a else b }

  function Max(a: int, b: int): int { if a >= b then a else b }

  function ClampedBucket(epoch: int, timestamp: int): Result<int> {
    if !IsTimestamp(epoch) || !IsTimestamp(timestamp) then RangeError
    else Ok(Max(1, Min(MAX_SECOND, timestamp - epoch)) * SLOTS)
  }

  function BucketStart(id: int): int {
    id / SLOTS * SLOTS
  }

  /** The bucket of an ID is the one multiple of 16 at most 15 below it. */
  lemma BucketStartIs(id: int, start: int)
    ensures start == BucketStart(id) <==> start % SLOTS == 0 && start <= id < start + SLOTS
  {
  }

  /** The first message of a scope is placed exactly in the middle of the ID space. */
  lemma FirstMessageIsCentred(timestamp: int)
    requires IsTimestamp(timestamp) && IsTimestamp(timestamp - INITIAL_SECOND)
    ensures Bucket(InitialEpoch(timestamp).value, timestamp) == Ok(0x4000_0000)
  {
  }

  /**
    Clamping agrees with the exact bucket wherever there is one, never fails where the exact bucket
    fails for its distance, always leaves room for 16 IDs, and keeps the order of the timestamps.
   */
  lemma ClampingExtends(epoch: int, timestamp: int, later: int)
    requires IsTimestamp(epoch) && IsTimestamp(timestamp) && IsTimestamp(later) && timestamp <= later
    ensures Bucket(epoch, timestamp).Ok? ==> ClampedBucket(epoch, timestamp) == Bucket(epoch, timestamp)
    ensures var b := ClampedBucket(epoch, timestamp);
            b.Ok? && b.value % SLOTS == 0 && SLOTS <= b.value && b.value + SLOTS - 1 <= MAX_ID
    ensures ClampedBucket(epoch, timestamp).value <= ClampedBucket(epoch, later).value
  {
  }

  /** The exact bucket fails precisely outside the window of about 4.25 years, and the window is the whole ID space. */
  lemma WindowIsTight(epoch: int, timestamp: int)
    requires IsTimestamp(epoch) && IsTimestamp(timestamp)
    ensures Bucket(epoch, timestamp).Ok? <==>
              SLOTS <= (timestamp - epoch) * SLOTS && (timestamp - epoch) * SLOTS + SLOTS - 1 <= MAX_ID
  {
  }
}

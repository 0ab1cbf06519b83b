/**
  Allocation of message IDs: an outward search over 16-slot buckets from a preferred
  bucket, between the IDs of the neighbouring messages, widened to the whole ID space
  when the gap is too small.
 */
module SlotAllocator {
  import opened MessageIds

  datatype Option<T> = None | Some(value: T)

  /** The exclusive bounds set by the neighbouring messages. */
  datatype Bounds = Bounds(lower: Option<int>, upper: Option<int>)

  const UNBOUNDED: Bounds := Bounds(None, None)

  predicate Within(bounds: Bounds, id: int) {
    && SLOTS <= id <= MAX_ID
    && (bounds.lower.Some? ==> bounds.lower.value < id)
    && (bounds.upper.Some? ==> id < bounds.upper.value)
  }

  /** The IDs an allocation may use: in bounds, not taken in the scope, not held by the message already. */
  ghost function Free(occupied: set<int>, existing: seq<int>, bounds: Bounds): set<int> {
    set id: int | SLOTS <= id <= MAX_ID && Within(bounds, id) && id !in occupied && id !in existing
  }

  ghost predicate Distinct(s: seq<int>) {
    forall i, j :: 0 <= i < j < |s| ==> s[i] != s[j]
  }

  predicate Ascending(s: seq<int>) {
    forall i, j :: 0 <= i < j < |s| ==> s[i] < s[j]
  }

  datatype Range = Range(first: int, last: int)

  /** The buckets that can hold an ID in bounds. */
  function BucketRange(bounds: Bounds): (r: Option<Range>)
    ensures r.Some? ==>
              r.value.first % SLOTS == 0 && r.value.last % SLOTS == 0 &&
              SLOTS <= r.value.first <= r.value.last && r.value.last + SLOTS - 1 <= MAX_ID
    ensures forall id :: Within(bounds, id) ==> r.Some? && r.value.first <= BucketStart(id) <= r.value.last
  {
    var firstCandidate := (if bounds.lower.Some? then bounds.lower.value else 0) + 1;
    var lastCandidate := (if bounds.upper.Some? then bounds.upper.value else MAX_ID + 1) - 1;
    var first := Max(SLOTS, BucketStart(firstCandidate));
    var last := Min(BucketStart(MAX_ID), BucketStart(lastCandidate));
    if first <= last then Some(Range(first, last)) else None
  }

  /** Where a message with an ordering key starts its search. */
  function OrderedPreferredId(bounds: Bounds): (id: int)
    ensures SLOTS <= id <= MAX_ID
  {
    var preferred :=
      if bounds.lower.Some? && bounds.upper.Some? then (bounds.lower.value + bounds.upper.value) / 2
      else if bounds.lower.Some? then bounds.lower.value + 1
      else if bounds.upper.Some? then bounds.upper.value - 1
      else 0x4000_0000;
    Max(SLOTS, Min(MAX_ID, preferred))
  }

  /** The preferred ID is strictly between the neighbours whenever any ID is. */
  lemma PreferredIsWithin(bounds: Bounds, id: int)
    requires Within(bounds, id)
    ensures Within(bounds, OrderedPreferredId(bounds))
  {
  }

  /**
    With two neighbours that leave room the search begins in the middle between them, with one right beside it,
    and with none in the middle of all IDs.
   */
  lemma PreferredIsNearest(bounds: Bounds, id: int)
    requires Within(bounds, id)
    ensures var preferred := OrderedPreferredId(bounds);
            && (bounds.lower.Some? && bounds.upper.Some? && SLOTS <= bounds.lower.value && bounds.upper.value <= MAX_ID ==>
                  0 <= (bounds.upper.value - preferred) - (preferred - bounds.lower.value) <= 1)
            && (bounds.lower.Some? && bounds.upper.None? && SLOTS <= bounds.lower.value ==>
                  preferred == bounds.lower.value + 1)
            && (bounds.lower.None? && bounds.upper.Some? && bounds.upper.value <= MAX_ID ==>
                  preferred == bounds.upper.value - 1)
            && (bounds == UNBOUNDED ==> preferred == 0x4000_0000)
  {
  }

  // -------------------------------------------------------------- middle out

  /** The first `k` values put out are the `k` adjacent values of the input from `lo` on. */
  ghost predicate WindowAt(values: seq<int>, output: seq<int>, k: nat, lo: nat) {
    k <= |output| && lo + k <= |values| && multiset(output[..k]) == multiset(values[lo..lo + k])
  }

  ghost predicate IsWindow(values: seq<int>, output: seq<int>, k: nat) {
    exists lo: nat :: WindowAt(values, output, k, lo)
  }

  /** `output` holds the values from `lo` to `hi`, put out from the middle outwards. */
  ghost predicate Grown(values: seq<int>, output: seq<int>, lo: nat, hi: nat) {
    && lo <= hi <= |values| && |output| == hi - lo
    && (forall k: nat :: k <= |output| ==> IsWindow(values, output, k))
    && WindowAt(values, output, hi - lo, lo)
  }

  lemma WindowStays(values: seq<int>, output: seq<int>, v: int, k: nat)
    requires k <= |output| && IsWindow(values, output, k)
    ensures IsWindow(values, output + [v], k)
  {
    assert (output + [v])[..k] == output[..k];
    var lo: nat :| WindowAt(values, output, k, lo);
    assert WindowAt(values, output + [v], k, lo);
  }

  lemma WindowGrows(values: seq<int>, output: seq<int>, lo: nat, hi: nat, up: bool)
    requires lo <= hi <= |values| && |output| == hi - lo && WindowAt(values, output, hi - lo, lo)
    requires if up then hi < |values| else lo > 0
    ensures if up then WindowAt(values, output + [values[hi]], hi + 1 - lo, lo)
            else WindowAt(values, output + [values[lo - 1]], hi - (lo - 1), lo - 1)
  {
    assert output[..|output|] == output;
    if up {
      assert (output + [values[hi]])[..hi + 1 - lo] == output + [values[hi]];
      assert values[lo..lo + (hi + 1 - lo)] == values[lo..hi] + [values[hi]];
    } else {
      assert (output + [values[lo - 1]])[..hi - (lo - 1)] == output + [values[lo - 1]];
      assert values[lo - 1..lo - 1 + (hi - (lo - 1))] == [values[lo - 1]] + values[lo..hi];
    }
  }

  lemma Grow(values: seq<int>, output: seq<int>, lo: nat, hi: nat, up: bool)
    requires Grown(values, output, lo, hi) && (if up then hi < |values| else lo > 0)
    ensures if up then Grown(values, output + [values[hi]], lo, hi + 1)
            else Grown(values, output + [values[lo - 1]], lo - 1, hi)
  {
    hide WindowAt;
    var v := if up then values[hi] else values[lo - 1];
    WindowGrows(values, output, lo, hi, up);
    forall k: nat | k <= |output| ensures IsWindow(values, output + [v], k) {
      WindowStays(values, output, v, k);
    }
  }

  lemma GrownAll(values: seq<int>, output: seq<int>)
    requires Grown(values, output, 0, |values|)
    ensures multiset(output) == multiset(values) && forall k: nat :: k <= |values| ==> IsWindow(values, output, k)
  {
    assert values[0..0 + |values|] == values && output[..|output|] == output;
  }

  lemma GrownFromOne(values: seq<int>, middle: nat)
    requires middle < |values|
    ensures Grown(values, [values[middle]], middle, middle + 1)
  {
    var output := [values[middle]];
    assert values[middle..middle + 1] == output && output[..1] == output;
    assert WindowAt(values, output, 0, middle) && WindowAt(values, output, 1, middle);
  }

  /**
    The index of the value that is put out as number `k` of `n`: the two sides take turns, the preferred one
    first; when there is one value too many, the last is on the far side.
   */
  function MiddleOutIndex(n: nat, preferForward: bool, k: nat): (index: nat)
    requires k < n
    ensures index < n
  {
    var middle, distance := (n - 1) / 2, (k + 1) / 2;
    if (k % 2 == 1) == preferForward || distance > middle then middle + distance else middle - distance
  }

  /**
    The values from the middle outwards, one side and the other in turn: a permutation every prefix of which is
    a run of adjacent values.
   */
  method MiddleOut(values: seq<int>, preferForward: bool) returns (output: seq<int>)
    ensures multiset(output) == multiset(values) && |output| == |values|
    ensures forall k: nat :: k <= |values| ==> IsWindow(values, output, k)
    ensures forall k :: 0 <= k < |values| ==> output[k] == values[MiddleOutIndex(|values|, preferForward, k)]
  {
    hide WindowAt, IsWindow, Grown;
    if |values| < 2 {
      ShortWindows(values);
      return values;
    }
    var middle := (|values| - 1) / 2;
    output := [values[middle]];
    var distance := 1;
    ghost var lo: nat, hi: nat := middle, middle + 1;
    GrownFromOne(values, middle);
    while |output| < |values|
      invariant distance >= 1 && |output| == hi - lo && Grown(values, output, lo, hi)
      invariant lo == Max(0, middle - distance + 1) && hi == Min(|values|, middle + distance)
      invariant forall k :: 0 <= k < |output| ==> output[k] == values[MiddleOutIndex(|values|, preferForward, k)]
      decreases |values| - distance
    {
      var indices := if preferForward then [middle + distance, middle - distance]
                     else [middle - distance, middle + distance];
      var i := 0;
      while i < 2
        invariant 0 <= i <= 2 && |output| == hi - lo && Grown(values, output, lo, hi)
        invariant lo == Max(0, middle - distance + if i == 2 || (i == 1 && !preferForward) then 0 else 1)
        invariant hi == Min(|values|, middle + distance + if i == 2 || (i == 1 && preferForward) then 1 else 0)
        invariant forall k :: 0 <= k < |output| ==> output[k] == values[MiddleOutIndex(|values|, preferForward, k)]
      {
        var index := indices[i];
        if 0 <= index < |values| {
          Grow(values, output, lo, hi, index > middle);
          output := output + [values[index]];
          lo, hi := if index > middle then lo else lo - 1, if index > middle then hi + 1 else hi;
        }
        i := i + 1;
      }
      distance := distance + 1;
    }
    GrownAll(values, output);
  }

  lemma ShortWindows(values: seq<int>)
    requires |values| < 2
    ensures forall k: nat :: k <= |values| ==> IsWindow(values, values, k)
  {
    forall k: nat | k <= |values| ensures IsWindow(values, values, k) {
      assert WindowAt(values, values, k, 0);
    }
  }

  // ------------------------------------------------------------------- search

  /** How early the search reaches the bucket at an offset: the preferred bucket, then outwards, preferred side first. */
  function RankOfOffset(offset: int, preferForward: bool): nat {
    if offset == 0 then 0
    else if (offset > 0) == preferForward then 2 * Abs(offset) - 1
    else 2 * Abs(offset)
  }

  /** How early the search reaches the bucket of an ID. */
  function Rank(preferredBucket: int, preferForward: bool, id: int): nat {
    RankOfOffset((BucketStart(id) - preferredBucket) / SLOTS, preferForward)
  }

  function Abs(x: int): nat { if x < 0 then -x else x }

  /** The offset of the bucket reached with a rank. */
  function OffsetAt(preferForward: bool, rank: nat): int {
    if (rank % 2 == 1) == preferForward then (rank + 1) / 2 else -((rank + 1) / 2)
  }

  /** The bucket reached with a rank. */
  function BucketAt(preferredBucket: int, preferForward: bool, rank: nat): int {
    preferredBucket + OffsetAt(preferForward, rank) * SLOTS
  }

  lemma RankOfOffsetAt(offset: int, preferForward: bool, rank: nat)
    ensures offset == OffsetAt(preferForward, rank) <==> RankOfOffset(offset, preferForward) == rank
  {
  }

  lemma RankOfBucket(preferredBucket: int, preferForward: bool, rank: nat, id: int)
    requires preferredBucket % SLOTS == 0
    ensures BucketStart(id) == BucketAt(preferredBucket, preferForward, rank) <==>
            Rank(preferredBucket, preferForward, id) == rank
  {
    var p, m := preferredBucket / SLOTS, BucketStart(id) / SLOTS;
    assert BucketStart(id) == m * SLOTS && preferredBucket == p * SLOTS;
    hide BucketStart, OffsetAt, RankOfOffset;
    assert (BucketStart(id) - preferredBucket) / SLOTS == m - p;
    RankOfOffsetAt(m - p, preferForward, rank);
  }

  /** What a search has found so far: distinct IDs, the given ones first, the others free. */
  ghost predicate Found(occupied: set<int>, existing: seq<int>, bounds: Bounds, given: seq<int>, ids: seq<int>, count: nat) {
    && given <= ids && |ids| <= count && Distinct(ids)
    && (forall i :: |given| <= i < |ids| ==> ids[i] in Free(occupied, existing, bounds))
  }

  lemma {:induction false} CountAtMostOne(t: seq<int>, x: int)
    requires Distinct(t)
    ensures multiset(t)[x] <= 1
  {
    if t != [] {
      var init, last := t[..|t| - 1], t[|t| - 1];
      assert t == init + [last];
      CountAtMostOne(init, x);
      assert x in multiset(init) <==> x in init;
    }
  }

  lemma SameElements(s: seq<int>, t: seq<int>)
    requires multiset(s) == multiset(t) && Distinct(t)
    ensures Distinct(s) && forall x :: x in s <==> x in t
  {
    forall x ensures x in s <==> x in t {
      assert x in s <==> x in multiset(s);
      assert x in t <==> x in multiset(t);
    }
    forall i, j | 0 <= i < j < |s| ensures s[i] != s[j] {
      CountAtMostOne(t, s[i]);
      assert s == s[..j] + s[j..];
      assert s[..j][i] == s[i] && s[j..][0] == s[j];
      assert s[i] in multiset(s[..j]) && s[j] in multiset(s[j..]);
      assert multiset(s)[s[i]] == multiset(s[..j])[s[i]] + multiset(s[j..])[s[i]];
    }
  }

  /** The free IDs of a range, in order. */
  method AvailableBetween(occupied: set<int>, existing: seq<int>, ids: seq<int>, first: int, last: int)
      returns (available: seq<int>)
    ensures Ascending(available)
    ensures forall id :: id in available <==>
              first <= id <= last && id !in existing && id !in ids && id !in occupied
  {
    available := [];
    var candidate := first;
    while candidate <= last
      invariant first <= candidate && (if first > last then candidate == first else candidate <= last + 1)
      invariant Ascending(available)
      invariant forall i :: 0 <= i < |available| ==> available[i] < candidate
      invariant forall id :: id in available <==>
                  first <= id < candidate && id !in existing && id !in ids && id !in occupied
      decreases last - candidate
    {
      if !(candidate in existing || candidate in ids) && candidate !in occupied {
        available := available + [candidate];
      }
      candidate := candidate + 1;
    }
  }

  lemma TakeMore(
      occupied: set<int>, existing: seq<int>, bounds: Bounds, given: seq<int>, ids: seq<int>, count: nat, more: seq<int>)
    requires Found(occupied, existing, bounds, given, ids, count) && |ids| + |more| <= count
    requires Distinct(more)
    requires forall i :: 0 <= i < |more| ==> more[i] !in ids && more[i] in Free(occupied, existing, bounds)
    ensures Found(occupied, existing, bounds, given, ids + more, count)
  {
  }

  /**
    Which IDs of a bucket are taken when not all are needed: from the middle outwards, so that none
    left over lies between two taken, or else the smallest.
   */
  ghost predicate Picked(available: seq<int>, taken: seq<int>, centerSlots: bool) {
    forall left :: left in available && left !in taken ==>
      if centerSlots then forall i, j :: 0 <= i < |taken| && 0 <= j < |taken| ==> !(taken[i] < left < taken[j])
      else forall i :: 0 <= i < |taken| ==> taken[i] < left
  }

  /** The free IDs of a bucket in the order in which they are taken: from the middle outwards, or ascending. */
  function SlotAt(available: seq<int>, preferForward: bool, centerSlots: bool, k: nat): int
    requires k < |available|
  {
    if centerSlots then available[MiddleOutIndex(|available|, preferForward, k)] else available[k]
  }

  /** The IDs of one bucket among those offered, in order. */
  ghost predicate IsBucketOf(offered: set<int>, bucket: int, available: seq<int>) {
    Ascending(available) && forall id :: id in available <==> id in offered && BucketStart(id) == bucket
  }

  /** Slot `k` is not taken before slot `j`. */
  predicate InTurn(available: seq<int>, preferForward: bool, centerSlots: bool, ids: seq<int>, j: nat, k: nat)
    requires j < k < |available|
  {
    SlotAt(available, preferForward, centerSlots, k) in ids ==> SlotAt(available, preferForward, centerSlots, j) in ids
  }

  /** In every bucket the IDs taken are the first ones in the order in which they are taken. */
  ghost predicate SlotsInTurn(offered: set<int>, preferForward: bool, centerSlots: bool, ids: seq<int>) {
    forall bucket: int, available: seq<int>, j: nat, k: nat :: IsBucketOf(offered, bucket, available) && j < k < |available| ==>
      InTurn(available, preferForward, centerSlots, ids, j, k)
  }

  lemma HeadOrTail(s: seq<int>, x: int)
    requires s != []
    ensures x in s <==> x == s[0] || x in s[1..]
  {
    assert s == [s[0]] + s[1..];
  }

  lemma {:induction false} AscendingUnique(s: seq<int>, t: seq<int>)
    requires Ascending(s) && Ascending(t) && forall x :: x in s <==> x in t
    ensures s == t
  {
    assert s != [] ==> s[0] in s;
    assert t != [] ==> t[0] in t;
    if s != [] {
      AscendingTail(s);
      AscendingTail(t);
      HeadOrTail(s, t[0]);
      HeadOrTail(t, s[0]);
      assert s[0] in t && t[0] in s;
      forall x ensures x in s[1..] <==> x in t[1..] {
        HeadOrTail(s, x);
        HeadOrTail(t, x);
      }
      AscendingUnique(s[1..], t[1..]);
    }
  }

  /** The number under which the value at an index is put out. */
  function TurnOf(n: nat, preferForward: bool, index: nat): (k: nat)
    requires index < n
    ensures k < n && MiddleOutIndex(n, preferForward, k) == index
  {
    var middle := (n - 1) / 2;
    var distance := if index > middle then index - middle else middle - index;
    if distance == 0 then 0
    else if (index > middle) == preferForward || distance > middle then 2 * distance - 1
    else 2 * distance
  }

  /** The first few slots of a bucket. */
  ghost function Slots(available: seq<int>, preferForward: bool, centerSlots: bool, n: nat): (slots: set<int>)
    requires n <= |available|
  {
    if n == 0 then {}
    else Slots(available, preferForward, centerSlots, n - 1) + {SlotAt(available, preferForward, centerSlots, n - 1)}
  }

  lemma {:induction false} SlotsAre(available: seq<int>, preferForward: bool, centerSlots: bool, n: nat)
    requires Ascending(available) && n <= |available|
    ensures |Slots(available, preferForward, centerSlots, n)| == n
    ensures forall k: nat :: k < |available| ==>
              (SlotAt(available, preferForward, centerSlots, k) in Slots(available, preferForward, centerSlots, n) <==> k < n)
  {
    if n > 0 {
      SlotsAre(available, preferForward, centerSlots, n - 1);
      forall k: nat | k < |available| && k != n - 1
        ensures SlotAt(available, preferForward, centerSlots, k) != SlotAt(available, preferForward, centerSlots, n - 1)
      {
        if SlotAt(available, preferForward, centerSlots, k) == SlotAt(available, preferForward, centerSlots, n - 1) {
          SlotsDiffer(available, preferForward, centerSlots, k, n - 1);
        }
      }
    }
  }

  lemma HasSlot(available: seq<int>, preferForward: bool, centerSlots: bool, id: int) returns (k: nat)
    requires id in available
    ensures k < |available| && SlotAt(available, preferForward, centerSlots, k) == id
  {
    var index: nat :| index < |available| && available[index] == id;
    k := if centerSlots then TurnOf(|available|, preferForward, index) else index;
  }

  /** The slots in turn up to the first that was not taken. */
  lemma {:induction false} TakenUpTo(
      offered: set<int>, preferForward: bool, centerSlots: bool, ids: seq<int>, bucket: int, available: seq<int>, m: nat)
      returns (n: nat)
    requires SlotsInTurn(offered, preferForward, centerSlots, ids) && IsBucketOf(offered, bucket, available)
    requires m <= |available| && forall k: nat :: k < m ==> SlotAt(available, preferForward, centerSlots, k) in ids
    ensures n <= |available|
    ensures forall k: nat :: k < |available| ==> (SlotAt(available, preferForward, centerSlots, k) in ids <==> k < n)
    decreases |available| - m
  {
    if m == |available| || SlotAt(available, preferForward, centerSlots, m) !in ids {
      n := m;
      forall k: nat | m < k < |available| ensures SlotAt(available, preferForward, centerSlots, k) !in ids {
        assert InTurn(available, preferForward, centerSlots, ids, m, k);
      }
    } else {
      n := TakenUpTo(offered, preferForward, centerSlots, ids, bucket, available, m + 1);
    }
  }

  /**
    What was taken of a bucket: of its free IDs in order, `n` of them taken, these are the first `n`, or, with
    centring, the first `n` from the middle outwards, the preferred side first.
   */
  lemma FirstSlots(
      offered: set<int>, preferForward: bool, centerSlots: bool, ids: seq<int>, bucket: int, available: seq<int>, n: nat)
    requires SlotsInTurn(offered, preferForward, centerSlots, ids) && IsBucketOf(offered, bucket, available)
    requires n == |set id | id in ids && id in available|
    ensures n <= |available|
    ensures forall k: nat :: k < |available| ==>
              (SlotAt(available, preferForward, centerSlots, k) in ids <==> k < n)
  {
    var m := TakenUpTo(offered, preferForward, centerSlots, ids, bucket, available, 0);
    hide SlotsInTurn, SlotAt, MiddleOutIndex;
    TakenAreSlots(preferForward, centerSlots, ids, available, m);
  }

  lemma TakenAreSlots(preferForward: bool, centerSlots: bool, ids: seq<int>, available: seq<int>, m: nat)
    requires Ascending(available) && m <= |available|
    requires forall k: nat :: k < |available| ==> (SlotAt(available, preferForward, centerSlots, k) in ids <==> k < m)
    ensures m == |set id | id in ids && id in available|
  {
    var taken := set id | id in ids && id in available;
    var slots := Slots(available, preferForward, centerSlots, m);
    SlotsAre(available, preferForward, centerSlots, m);
    SlotsAreAvailable(available, preferForward, centerSlots, m);
    hide SlotAt, Slots, Ascending;
    forall id ensures id in taken <==> id in slots {
      if id in available {
        var k := HasSlot(available, preferForward, centerSlots, id);
      }
    }
    assert taken == slots;
  }

  lemma {:induction false} SlotsAreAvailable(available: seq<int>, preferForward: bool, centerSlots: bool, n: nat)
    requires n <= |available|
    ensures forall id :: id in Slots(available, preferForward, centerSlots, n) ==> id in available
  {
    if n > 0 {
      SlotsAreAvailable(available, preferForward, centerSlots, n - 1);
    }
  }

  /** Taking the first few of one bucket, of which nothing was taken before, leaves all buckets taken in turn. */
  lemma TakingKeepsTurns(
      offered: set<int>, preferForward: bool, centerSlots: bool, ids: seq<int>, bucket: int, available: seq<int>,
      more: seq<int>)
    requires SlotsInTurn(offered, preferForward, centerSlots, ids) && IsBucketOf(offered, bucket, available)
    requires forall id :: id in available ==> id !in ids
    requires |more| <= |available| && forall k: nat :: k < |more| ==> more[k] == SlotAt(available, preferForward, centerSlots, k)
    ensures SlotsInTurn(offered, preferForward, centerSlots, ids + more)
  {
    forall b: int, av: seq<int>, j: nat, k: nat | IsBucketOf(offered, b, av) && j < k < |av|
      ensures InTurn(av, preferForward, centerSlots, ids + more, j, k)
    {
      var taken := SlotAt(av, preferForward, centerSlots, k);
      assert taken in av && InTurn(av, preferForward, centerSlots, ids, j, k);
      if taken in more {
        var i: nat :| i < |more| && more[i] == taken;
        assert taken in available;
        AscendingUnique(av, available);
        SlotsDiffer(available, preferForward, centerSlots, i, k);
        assert more[j] == SlotAt(av, preferForward, centerSlots, j);
      }
    }
  }

  lemma SlotsDiffer(available: seq<int>, preferForward: bool, centerSlots: bool, i: nat, k: nat)
    requires Ascending(available) && i < |available| && k < |available|
    requires SlotAt(available, preferForward, centerSlots, i) == SlotAt(available, preferForward, centerSlots, k)
    ensures i == k
  {
    if centerSlots {
      var a, b := MiddleOutIndex(|available|, preferForward, i), MiddleOutIndex(|available|, preferForward, k);
      assert a == b;
      IndicesDiffer(|available|, preferForward, i, k);
    }
  }

  lemma IndicesDiffer(n: nat, preferForward: bool, i: nat, k: nat)
    requires i < n && k < n && MiddleOutIndex(n, preferForward, i) == MiddleOutIndex(n, preferForward, k)
    ensures i == k
  {
  }

  lemma MembersOfSlice(s: seq<int>, lo: nat, hi: nat)
    requires lo <= hi <= |s|
    ensures forall l: nat :: lo <= l < hi ==> s[l] in s[lo..hi]
  {
    forall l: nat | lo <= l < hi ensures s[l] in s[lo..hi] {
      assert s[lo..hi][l - lo] == s[l];
    }
  }

  lemma SameMembers(s: seq<int>, t: seq<int>)
    requires multiset(s) == multiset(t)
    ensures forall x :: x in s <==> x in t
  {
    forall x ensures x in s <==> x in t {
      assert x in s <==> x in multiset(s);
      assert x in t <==> x in multiset(t);
    }
  }

  /** What lies between two members of a run of adjacent values is in the run. */
  lemma BetweenTaken(available: seq<int>, lo: nat, hi: nat, a: int, b: int, left: int)
    requires Ascending(available) && lo <= hi <= |available|
    requires a in available[lo..hi] && b in available[lo..hi] && left in available && left !in available[lo..hi]
    ensures !(a < left < b)
  {
    MembersOfSlice(available, lo, hi);
    var i :| lo <= i < hi && available[i] == a;
    var j :| lo <= j < hi && available[j] == b;
    var l: nat :| l < |available| && available[l] == left;
  }

  lemma WindowIsPicked(available: seq<int>, candidates: seq<int>, n: nat)
    requires Ascending(available) && n <= |candidates| && IsWindow(available, candidates, n)
    ensures Picked(available, candidates[..n], true)
  {
    var lo: nat :| WindowAt(available, candidates, n, lo);
    assert multiset(candidates[..n]) == multiset(available[lo..lo + n]);
    SameMembers(candidates[..n], available[lo..lo + n]);
    hide IsWindow, WindowAt, Ascending;
    SliceIsPicked(available, lo, lo + n, candidates[..n]);
  }

  lemma SliceIsPicked(available: seq<int>, lo: nat, hi: nat, taken: seq<int>)
    requires Ascending(available) && lo <= hi <= |available|
    requires forall x :: x in taken <==> x in available[lo..hi]
    ensures Picked(available, taken, true)
  {
    hide Ascending;
    forall left, i, j | left in available && left !in taken && 0 <= i < |taken| && 0 <= j < |taken|
      ensures !(taken[i] < left < taken[j])
    {
      var a, b := taken[i], taken[j];
      assert a in taken && b in taken;
      BetweenTaken(available, lo, hi, a, b, left);
    }
  }

  lemma PrefixIsPicked(available: seq<int>, n: nat)
    requires Ascending(available) && n <= |available|
    ensures Picked(available, available[..n], false)
  {
    MembersOfSlice(available, 0, n);
    assert available[0..n] == available[..n];
    forall left, i | left in available && left !in available[..n] && 0 <= i < n ensures available[i] < left {
      var l: nat :| l < |available| && available[l] == left;
    }
  }

  /** Takes the free IDs of one bucket that are not taken yet, until there are `count`. */
  method TakeFromBucket(
      occupied: set<int>, existing: seq<int>, bounds: Bounds, bucket: int, ghost given: seq<int>, ids: seq<int>,
      count: nat, centerSlots: bool, preferForward: bool)
      returns (ids': seq<int>)
    requires Found(occupied, existing, bounds, given, ids, count)
    requires bucket % SLOTS == 0 && SLOTS <= bucket && bucket + SLOTS - 1 <= MAX_ID
    ensures Found(occupied, existing, bounds, given, ids', count) && ids <= ids'
    ensures forall i :: |ids| <= i < |ids'| ==> BucketStart(ids'[i]) == bucket
    ensures |ids'| < count ==>
              forall id :: id in Free(occupied, existing, bounds) && BucketStart(id) == bucket ==> id in ids'
    ensures exists available ::
              && Ascending(available)
              && (forall id :: id in available <==>
                    BucketStart(id) == bucket && id in Free(occupied, existing, bounds) && id !in ids)
              && Picked(available, ids'[|ids|..], centerSlots)
              && |ids'| - |ids| <= |available|
              && forall k: nat :: k < |ids'| - |ids| ==> ids'[|ids| + k] == SlotAt(available, preferForward, centerSlots, k)
  {
    hide IsWindow, Found, Picked;
    var first := Max(bucket, (if bounds.lower.Some? then bounds.lower.value else bucket - 1) + 1);
    var last := Min(bucket + SLOTS - 1, (if bounds.upper.Some? then bounds.upper.value else bucket + SLOTS) - 1);
    var available := AvailableBetween(occupied, existing, ids, first, last);
    var candidates := available;
    if centerSlots {
      candidates := MiddleOut(available, preferForward);
    }
    SameElements(candidates, available);
    assert forall id :: first <= id <= last <==> BucketStart(id) == bucket && Within(bounds, id);
    ids' := TakeFirst(ids, candidates, count) by {
      FoundIsShort(occupied, existing, bounds, given, ids, count);
    }
    TakenFromBucket(occupied, existing, bounds, bucket, given, ids, ids', count, candidates);
    var n := |ids'| - |ids|;
    assert ids'[|ids|..] == candidates[..n];
    forall k: nat | k < n ensures ids'[|ids| + k] == SlotAt(available, preferForward, centerSlots, k) {
      assert ids'[|ids| + k] == ids'[|ids|..][k];
    }
    if centerSlots {
      WindowIsPicked(available, candidates, n);
    } else {
      PrefixIsPicked(available, n);
    }
  }

  lemma FoundIsShort(
      occupied: set<int>, existing: seq<int>, bounds: Bounds, given: seq<int>, ids: seq<int>, count: nat)
    requires Found(occupied, existing, bounds, given, ids, count)
    ensures |ids| <= count
  {
  }

  lemma TakenFromBucket(
      occupied: set<int>, existing: seq<int>, bounds: Bounds, bucket: int, given: seq<int>, ids: seq<int>, ids': seq<int>,
      count: nat, candidates: seq<int>)
    requires Found(occupied, existing, bounds, given, ids, count) && Distinct(candidates)
    requires forall id :: id in candidates <==>
               BucketStart(id) == bucket && id in Free(occupied, existing, bounds) && id !in ids
    requires ids <= ids' && |ids'| <= count && ids'[|ids|..] <= candidates
    requires |ids'| < count ==> ids' == ids + candidates
    ensures Found(occupied, existing, bounds, given, ids', count)
    ensures forall i :: |ids| <= i < |ids'| ==> BucketStart(ids'[i]) == bucket
    ensures |ids'| < count ==>
              forall id :: id in Free(occupied, existing, bounds) && BucketStart(id) == bucket ==> id in ids'
  {
    hide Free, BucketStart;
    var more := ids'[|ids|..];
    assert ids' == ids + more;
    forall k | 0 <= k < |more| ensures more[k] in candidates && ids'[|ids| + k] == more[k] {
      assert more[k] == candidates[k];
    }
    TakeMore(occupied, existing, bounds, given, ids, count, more);
  }

  /** Appends candidates in order until there are `count` IDs. */
  method TakeFirst(ids: seq<int>, candidates: seq<int>, count: nat) returns (ids': seq<int>)
    requires |ids| <= count
    ensures ids <= ids' && |ids'| <= count && ids'[|ids|..] <= candidates
    ensures |ids'| < count ==> ids' == ids + candidates
  {
    ids' := ids;
    for i := 0 to |candidates|
      invariant ids' == ids + candidates[..i] && |ids'| <= count
    {
      if |ids'| >= count {
        break;
      }
      ids' := ids' + [candidates[i]];
    }
  }

  /**
    The search has gone through the ranks up to `rank`: what it took is no later than `rank`,
    what it left is no earlier, and not even in that rank unless the search is complete.
   */
  ghost predicate Swept(
      free: set<int>, preferredBucket: int, preferForward: bool, given: seq<int>, ids: seq<int>, count: nat, rank: int)
  {
    && (forall i :: |given| <= i < |ids| ==> Rank(preferredBucket, preferForward, ids[i]) <= rank)
    && (forall id :: id in free && id !in ids ==>
          Rank(preferredBucket, preferForward, id) >= rank + if |ids| < count then 1 else 0)
  }

  lemma SweepBucket(
      free: set<int>, preferredBucket: int, preferForward: bool, given: seq<int>, ids: seq<int>, ids': seq<int>,
      count: nat, rank: nat)
    requires preferredBucket % SLOTS == 0 && given <= ids <= ids' && |ids| < count
    requires Swept(free, preferredBucket, preferForward, given, ids, count, rank - 1)
    requires var bucket := BucketAt(preferredBucket, preferForward, rank);
             && (forall i :: |ids| <= i < |ids'| ==> BucketStart(ids'[i]) == bucket)
             && (|ids'| < count ==> forall id :: id in free && BucketStart(id) == bucket ==> id in ids')
    ensures Swept(free, preferredBucket, preferForward, given, ids', count, rank)
  {
    forall i | |given| <= i < |ids'| ensures Rank(preferredBucket, preferForward, ids'[i]) <= rank {
      if i < |ids| {
        assert ids'[i] == ids[i];
      } else {
        RankOfBucket(preferredBucket, preferForward, rank, ids'[i]);
      }
    }
    forall id | id in free && id !in ids'
      ensures Rank(preferredBucket, preferForward, id) >= rank + if |ids'| < count then 1 else 0
    {
      assert id !in ids;
      RankOfBucket(preferredBucket, preferForward, rank, id);
    }
  }

  /** The number of steps from the preferred bucket to the farther end of the range. */
  function Reach(preferredBucket: int, range: Range): int {
    Max(Abs(preferredBucket - range.first), Abs(range.last - preferredBucket)) / SLOTS
  }

  /** Every ID in bounds has a rank the search reaches. */
  lemma RankIsReached(bounds: Bounds, preferredBucket: int, preferForward: bool, id: int)
    requires preferredBucket % SLOTS == 0 && Within(bounds, id)
    ensures BucketRange(bounds).Some?
    ensures Rank(preferredBucket, preferForward, id) <= 2 * Reach(preferredBucket, BucketRange(bounds).value)
  {
    var range := BucketRange(bounds).value;
    var p, f, l, m := preferredBucket / SLOTS, range.first / SLOTS, range.last / SLOTS, BucketStart(id) / SLOTS;
    assert f <= m <= l;
    hide BucketRange, BucketStart;
    assert Reach(preferredBucket, range) == Max(Abs(p - f), Abs(l - p));
    assert (BucketStart(id) - preferredBucket) / SLOTS == m - p;
  }

  lemma SweepDone(
      occupied: set<int>, existing: seq<int>, bounds: Bounds, preferredBucket: int, preferForward: bool,
      given: seq<int>, ids: seq<int>, count: nat, rank: int)
    requires preferredBucket % SLOTS == 0 && |ids| < count
    requires Swept(Free(occupied, existing, bounds), preferredBucket, preferForward, given, ids, count, rank)
    requires BucketRange(bounds).Some? ==> rank >= 2 * Reach(preferredBucket, BucketRange(bounds).value)
    ensures forall id :: id in Free(occupied, existing, bounds) ==> id in ids
  {
    forall id | id in Free(occupied, existing, bounds) ensures id in ids {
      RankIsReached(bounds, preferredBucket, preferForward, id);
    }
  }

  lemma SweepStart(free: set<int>, preferredBucket: int, preferForward: bool, given: seq<int>, count: nat)
    ensures Swept(free, preferredBucket, preferForward, given, given, count, -1)
  {
  }

  lemma BucketAtIsAligned(preferredBucket: int, preferForward: bool, rank: nat)
    requires preferredBucket % SLOTS == 0
    ensures BucketAt(preferredBucket, preferForward, rank) % SLOTS == 0
  {
  }

  /** What a search after some given IDs can take. */
  ghost function Offered(occupied: set<int>, existing: seq<int>, bounds: Bounds, given: seq<int>): set<int> {
    Free(occupied, existing, bounds) - Elements(given)
  }

  /** A bucket that has just been reached: nothing was taken from it before, and what was taken now are its first slots. */
  lemma BucketInTurn(
      occupied: set<int>, existing: seq<int>, bounds: Bounds, preferredBucket: int, preferForward: bool,
      centerSlots: bool, given: seq<int>, ids: seq<int>, ids': seq<int>, count: nat, bucket: int, rank: nat, available: seq<int>)
    requires preferredBucket % SLOTS == 0 && given <= ids <= ids'
    requires bucket == BucketAt(preferredBucket, preferForward, rank)
    requires Swept(Free(occupied, existing, bounds), preferredBucket, preferForward, given, ids, count, rank - 1)
    requires SlotsInTurn(Offered(occupied, existing, bounds, given), preferForward, centerSlots, ids)
    requires Ascending(available) && forall id :: id in available <==>
               BucketStart(id) == bucket && id in Free(occupied, existing, bounds) && id !in ids
    requires |ids'| - |ids| <= |available|
    requires forall k: nat :: k < |ids'| - |ids| ==> ids'[|ids| + k] == SlotAt(available, preferForward, centerSlots, k)
    ensures SlotsInTurn(Offered(occupied, existing, bounds, given), preferForward, centerSlots, ids')
  {
    var offered, more := Offered(occupied, existing, bounds, given), ids'[|ids|..];
    forall i | |given| <= i < |ids| ensures BucketStart(ids[i]) != bucket {
      RankOfBucket(preferredBucket, preferForward, rank, ids[i]);
    }
    forall i | 0 <= i < |given| ensures ids[i] in Elements(given) && given[i] in ids {
      assert ids[i] == given[i];
    }
    assert forall id :: id in offered && BucketStart(id) == bucket ==> id !in ids;
    assert forall id :: id in available ==> id in offered;
    assert ids' == ids + more;
    hide SlotsInTurn, SlotAt, Swept, Ascending, Free, BucketAt, BucketStart;
    TakingKeepsTurns(offered, preferForward, centerSlots, ids, bucket, available, more);
  }

  /** One bucket of the search, which is passed over when it is outside the range. */
  method VisitBucket(
      occupied: set<int>, existing: seq<int>, bounds: Bounds, preferredBucket: int, preferForward: bool,
      centerSlots: bool, ghost given: seq<int>, ids: seq<int>, count: nat, bucket: int, ghost rank: nat)
      returns (ids': seq<int>)
    requires preferredBucket % SLOTS == 0 && BucketRange(bounds).Some? && |ids| < count && given <= ids
    requires bucket == BucketAt(preferredBucket, preferForward, rank)
    requires Found(occupied, existing, bounds, given, ids, count)
    requires Swept(Free(occupied, existing, bounds), preferredBucket, preferForward, given, ids, count, rank - 1)
    requires SlotsInTurn(Offered(occupied, existing, bounds, given), preferForward, centerSlots, ids)
    ensures Found(occupied, existing, bounds, given, ids', count) && ids <= ids'
    ensures Swept(Free(occupied, existing, bounds), preferredBucket, preferForward, given, ids', count, rank)
    ensures SlotsInTurn(Offered(occupied, existing, bounds, given), preferForward, centerSlots, ids')
  {
    hide Found, Swept, Free, Distinct, BucketStart, BucketRange, BucketAt, Rank, Picked, Ascending, SlotAt, SlotsInTurn, Offered;
    BucketAtIsAligned(preferredBucket, preferForward, rank);
    ids' := ids;
    var range := BucketRange(bounds).value;
    if range.first <= bucket <= range.last {
      ids' := TakeFromBucket(occupied, existing, bounds, bucket, given, ids, count, centerSlots, preferForward);
      ghost var available :| Ascending(available)
        && (forall id :: id in available <==>
              BucketStart(id) == bucket && id in Free(occupied, existing, bounds) && id !in ids)
        && |ids'| - |ids| <= |available|
        && (forall k: nat :: k < |ids'| - |ids| ==> ids'[|ids| + k] == SlotAt(available, preferForward, centerSlots, k));
      BucketInTurn(
        occupied, existing, bounds, preferredBucket, preferForward, centerSlots, given, ids, ids', count, bucket, rank,
        available);
    } else {
      NothingOutside(occupied, existing, bounds, bucket);
    }
    SweepBucket(Free(occupied, existing, bounds), preferredBucket, preferForward, given, ids, ids', count, rank);
  }

  /** The buckets at one distance from the preferred bucket, preferred side first. */
  method SweepDistance(
      occupied: set<int>, existing: seq<int>, bounds: Bounds, preferredBucket: int, preferForward: bool,
      centerSlots: bool, ghost given: seq<int>, ids: seq<int>, count: nat, distance: nat)
      returns (ids': seq<int>, ghost rank: int)
    requires preferredBucket % SLOTS == 0 && BucketRange(bounds).Some? && |ids| < count && given <= ids
    requires Found(occupied, existing, bounds, given, ids, count)
    requires Swept(Free(occupied, existing, bounds), preferredBucket, preferForward, given, ids, count,
                   if distance == 0 then -1 else 2 * distance - 2)
    requires SlotsInTurn(Offered(occupied, existing, bounds, given), preferForward, centerSlots, ids)
    ensures Found(occupied, existing, bounds, given, ids', count) && ids <= ids'
    ensures Swept(Free(occupied, existing, bounds), preferredBucket, preferForward, given, ids', count, rank)
    ensures |ids'| < count ==> rank == 2 * distance
    ensures SlotsInTurn(Offered(occupied, existing, bounds, given), preferForward, centerSlots, ids')
  {
    hide Found, Swept, Free, Distinct, BucketStart, BucketRange, BucketAt, Rank, SlotsInTurn, Offered;
    ghost var start := if distance == 0 then -1 else 2 * distance - 2;
    var buckets :=
      if distance == 0 then [preferredBucket]
      else if preferForward then [preferredBucket + distance * SLOTS, preferredBucket - distance * SLOTS]
      else [preferredBucket - distance * SLOTS, preferredBucket + distance * SLOTS];
    BucketsHaveRanks(preferredBucket, preferForward, distance, buckets);
    ids', rank := ids, start;
    var i := 0;
    while i < |buckets| && |ids'| < count
      invariant 0 <= i <= |buckets| && ids <= ids' && given <= ids'
      invariant Found(occupied, existing, bounds, given, ids', count)
      invariant Swept(Free(occupied, existing, bounds), preferredBucket, preferForward, given, ids', count, rank)
      invariant |ids'| < count ==> rank == start + i
      invariant SlotsInTurn(Offered(occupied, existing, bounds, given), preferForward, centerSlots, ids')
    {
      rank := rank + 1;
      ids' := VisitBucket(
        occupied, existing, bounds, preferredBucket, preferForward, centerSlots, given, ids', count, buckets[i], rank);
      i := i + 1;
    }
  }

  lemma BucketsHaveRanks(preferredBucket: int, preferForward: bool, distance: nat, buckets: seq<int>)
    requires buckets ==
      if distance == 0 then [preferredBucket]
      else if preferForward then [preferredBucket + distance * SLOTS, preferredBucket - distance * SLOTS]
      else [preferredBucket - distance * SLOTS, preferredBucket + distance * SLOTS]
    ensures forall i :: 0 <= i < |buckets| ==>
              buckets[i] == BucketAt(preferredBucket, preferForward, if distance == 0 then i else 2 * distance - 1 + i)
  {
  }

  /** Searches outwards within bounds, after the IDs taken before. */
  method Collect(
      occupied: set<int>, existing: seq<int>, bounds: Bounds, preferredBucket: int, preferForward: bool,
      centerSlots: bool, given: seq<int>, count: nat)
      returns (ids: seq<int>)
    requires preferredBucket % SLOTS == 0 && Distinct(given) && |given| <= count
    ensures Found(occupied, existing, bounds, given, ids, count)
    ensures |ids| < count ==> forall id :: id in Free(occupied, existing, bounds) ==> id in ids
    ensures exists rank :: Swept(Free(occupied, existing, bounds), preferredBucket, preferForward, given, ids, count, rank)
    ensures SlotsInTurn(Offered(occupied, existing, bounds, given), preferForward, centerSlots, ids)
  {
    assert Found(occupied, existing, bounds, given, given, count);
    hide Found, Swept, Free, Distinct, BucketStart, BucketRange, SlotsInTurn, Offered;
    ids := given;
    ghost var rank := -1;
    SweepStart(Free(occupied, existing, bounds), preferredBucket, preferForward, given, count);
    NothingTaken(occupied, existing, bounds, given, preferForward, centerSlots);
    var range := BucketRange(bounds);
    if range.Some? {
      var maxDistance := Reach(preferredBucket, range.value);
      var distance := 0;
      while |ids| < count && distance <= maxDistance
        invariant distance >= 0 && given <= ids
        invariant Found(occupied, existing, bounds, given, ids, count)
        invariant Swept(Free(occupied, existing, bounds), preferredBucket, preferForward, given, ids, count, rank)
        invariant |ids| < count ==> rank == if distance == 0 then -1 else 2 * distance - 2
        invariant SlotsInTurn(Offered(occupied, existing, bounds, given), preferForward, centerSlots, ids)
        decreases maxDistance - distance
      {
        ids, rank := SweepDistance(
          occupied, existing, bounds, preferredBucket, preferForward, centerSlots, given, ids, count, distance);
        distance := distance + 1;
      }
    }
    if |ids| < count {
      SweepDone(occupied, existing, bounds, preferredBucket, preferForward, given, ids, count, rank);
    }
  }

  lemma NothingTaken(
      occupied: set<int>, existing: seq<int>, bounds: Bounds, given: seq<int>, preferForward: bool, centerSlots: bool)
    ensures SlotsInTurn(Offered(occupied, existing, bounds, given), preferForward, centerSlots, given)
  {
    forall bucket: int, available: seq<int>, j: nat, k: nat |
      IsBucketOf(Offered(occupied, existing, bounds, given), bucket, available) && j < k < |available|
      ensures InTurn(available, preferForward, centerSlots, given, j, k)
    {
      assert SlotAt(available, preferForward, centerSlots, k) in available;
    }
  }

  lemma NothingOutside(occupied: set<int>, existing: seq<int>, bounds: Bounds, bucket: int)
    requires BucketRange(bounds).Some?
    requires bucket < BucketRange(bounds).value.first || BucketRange(bounds).value.last < bucket
    ensures forall id :: id in Free(occupied, existing, bounds) ==> BucketStart(id) != bucket
  {
  }

  // --------------------------------------------------------------- allocation

  ghost function Elements(s: seq<int>): set<int> {
    set x | x in s
  }

  lemma {:induction false} DistinctCount(s: seq<int>)
    requires Distinct(s)
    ensures |Elements(s)| == |s|
  {
    if s != [] {
      var init, last := s[..|s| - 1], s[|s| - 1];
      DistinctCount(init);
      assert s == init + [last] && last !in init;
      assert Elements(s) == Elements(init) + {last};
    }
  }

  lemma SubsetCount(a: set<int>, b: set<int>)
    requires a <= b
    ensures |a| <= |b| && (|a| == |b| ==> a == b)
  {
    assert b == a + (b - a);
    assert |b| == |a| + |b - a|;
    if |a| == |b| {
      assert b - a == {};
    }
  }

  lemma AscendingCons(head: int, tail: seq<int>)
    requires Ascending(tail) && forall y :: y in tail ==> head < y
    ensures Ascending([head] + tail)
  {
    forall i, j | 0 <= i < j < 1 + |tail| ensures ([head] + tail)[i] < ([head] + tail)[j] {
      assert tail[j - 1] in tail;
    }
  }

  lemma AscendingTail(s: seq<int>)
    requires Ascending(s) && s != []
    ensures s == [s[0]] + s[1..] && Ascending(s[1..]) && forall y :: y in s[1..] ==> s[0] < y
  {
  }

  function Insert(x: int, sorted: seq<int>): (r: seq<int>)
    requires Ascending(sorted) && x !in sorted
    ensures Ascending(r) && |r| == |sorted| + 1
    ensures forall y :: y in r <==> y == x || y in sorted
  {
    hide Ascending;
    if sorted == [] then AscendingCons(x, sorted); [x] + sorted
    else
      AscendingTail(sorted);
      if x < sorted[0] then AscendingCons(x, sorted); [x] + sorted
      else
        var rest := Insert(x, sorted[1..]);
        AscendingCons(sorted[0], rest);
        [sorted[0]] + rest
  }

  function Sort(s: seq<int>): (r: seq<int>)
    requires Distinct(s)
    ensures Ascending(r) && |r| == |s| && forall x :: x in r <==> x in s
  {
    if s == [] then [] else
      assert s == [s[0]] + s[1..] && s[0] !in s[1..];
      Insert(s[0], Sort(s[1..]))
  }

  /** What an allocation of `count` IDs promises. */
  ghost predicate Allocated(occupied: set<int>, existing: seq<int>, bounds: Bounds, count: nat, ids: seq<int>) {
    && |ids| == count && Ascending(ids)
    && (forall id :: id in ids ==> id in Free(occupied, existing, UNBOUNDED))
    && var free := Free(occupied, existing, bounds);
       if |free| >= count then forall id :: id in ids ==> id in free
       else forall id :: id in free ==> id in ids
  }

  /** Among the IDs offered, none left over is in a bucket searched before that of one taken. */
  ghost predicate NearestFirst(offered: set<int>, preferredBucket: int, preferForward: bool, ids: seq<int>) {
    forall taken, left :: taken in ids && taken in offered && left in offered && left !in ids ==>
      Rank(preferredBucket, preferForward, taken) <= Rank(preferredBucket, preferForward, left)
  }

  /** Among the IDs offered, those taken are in the nearest buckets, and in each bucket the first slots in turn. */
  ghost predicate Placed(offered: set<int>, preferredBucket: int, preferForward: bool, centerSlots: bool, ids: seq<int>) {
    NearestFirst(offered, preferredBucket, preferForward, ids) && SlotsInTurn(offered, preferForward, centerSlots, ids)
  }

  lemma FoundCount(
      occupied: set<int>, existing: seq<int>, bounds: Bounds, ids: seq<int>, count: nat)
    requires Found(occupied, existing, bounds, [], ids, count)
    requires |ids| < count ==> forall id :: id in Free(occupied, existing, bounds) ==> id in ids
    ensures |ids| == Min(count, |Free(occupied, existing, bounds)|)
  {
    var free := Free(occupied, existing, bounds);
    DistinctCount(ids);
    assert Elements(ids) <= free by {
      forall id | id in ids ensures id in free {
        var i :| 0 <= i < |ids| && ids[i] == id;
      }
    }
    SubsetCount(Elements(ids), free);
    if |ids| < count {
      assert Elements(ids) == free;
    }
  }

  lemma WidenedCount(
      occupied: set<int>, existing: seq<int>, bounds: Bounds, given: seq<int>, ids: seq<int>, count: nat)
    requires Found(occupied, existing, bounds, [], given, count)
    requires Found(occupied, existing, UNBOUNDED, given, ids, count)
    ensures Found(occupied, existing, UNBOUNDED, [], ids, count)
  {
    forall i | 0 <= i < |ids| ensures ids[i] in Free(occupied, existing, UNBOUNDED) {
      if i < |given| {
        assert ids[i] == given[i];
      }
    }
  }

  /**
    Allocates `count` IDs: as many as possible between the neighbours, the rest, if the gap is too
    small, anywhere in the scope. It fails only when the whole scope has fewer than `count` free IDs.
   */
  method Allocate(
      occupied: set<int>, existing: seq<int>, bounds: Bounds, preferredId: int, live: bool, centerSlots: bool,
      count: nat)
      returns (r: Result<seq<int>>)
    ensures r.Ok? <==> |Free(occupied, existing, UNBOUNDED)| >= count
    ensures r.Ok? ==> Allocated(occupied, existing, bounds, count, r.value)
    ensures r.Ok? ==>
              var preferForward := live || count > 1 || existing != [];
              var free := Free(occupied, existing, bounds);
              Placed(free, BucketStart(preferredId), preferForward, centerSlots, r.value) &&
              Placed(Free(occupied, existing, UNBOUNDED) - free, BucketStart(preferredId), preferForward, centerSlots, r.value)
  {
    var preferredBucket := BucketStart(preferredId);
    var preferForward := live || count > 1 || existing != [];
    ghost var free, all := Free(occupied, existing, bounds), Free(occupied, existing, UNBOUNDED);
    assert free <= all;
    SubsetCount(free, all);
    hide Found, Swept, Free, BucketStart, Rank, Distinct, Ascending, Allocated, Placed, Sort, UNBOUNDED, SlotsInTurn, Elements, Offered, BucketRange;
    EmptyIsDistinct();
    var ids := Collect(occupied, existing, bounds, preferredBucket, preferForward, centerSlots, [], count);
    FoundCount(occupied, existing, bounds, ids, count);
    FoundIsFree(occupied, existing, bounds, [], ids, count);
    OfferedAtFirst(occupied, existing, bounds);
    if |ids| < count && (bounds.lower.Some? || bounds.upper.Some?) {
      var bounded := ids;
      ids := Collect(occupied, existing, UNBOUNDED, preferredBucket, preferForward, centerSlots, bounded, count);
      WidenedCount(occupied, existing, bounds, bounded, ids, count);
      FoundCount(occupied, existing, UNBOUNDED, ids, count);
      FoundIsFree(occupied, existing, UNBOUNDED, [], ids, count);
      ghost var rank :| Swept(all, preferredBucket, preferForward, bounded, ids, count, rank);
      OfferedThen(occupied, existing, bounds, bounded);
      WidenedIsPlaced(free, all, preferredBucket, preferForward, centerSlots, bounded, ids, count, rank);
    } else {
      ghost var rank :| Swept(free, preferredBucket, preferForward, [], ids, count, rank);
      BoundedIsPlaced(free, all, preferredBucket, preferForward, centerSlots, ids, count, rank);
    }
    if |ids| < count {
      return RangeError;
    }
    AllocatedFrom(occupied, existing, bounds, ids, count);
    return Ok(Sort(ids));
  }

  lemma OfferedAtFirst(occupied: set<int>, existing: seq<int>, bounds: Bounds)
    ensures Offered(occupied, existing, bounds, []) == Free(occupied, existing, bounds)
  {
  }

  lemma OfferedThen(occupied: set<int>, existing: seq<int>, bounds: Bounds, given: seq<int>)
    requires forall id :: id in given <==> id in Free(occupied, existing, bounds)
    ensures Offered(occupied, existing, UNBOUNDED, given) ==
            Free(occupied, existing, UNBOUNDED) - Free(occupied, existing, bounds)
  {
  }

  /** Sorting does not change which slots were taken. */
  lemma SortedInTurn(offered: set<int>, preferForward: bool, centerSlots: bool, ids: seq<int>)
    requires Distinct(ids) && SlotsInTurn(offered, preferForward, centerSlots, ids)
    ensures SlotsInTurn(offered, preferForward, centerSlots, Sort(ids))
  {
    forall bucket: int, available: seq<int>, j: nat, k: nat | IsBucketOf(offered, bucket, available) && j < k < |available|
      ensures InTurn(available, preferForward, centerSlots, Sort(ids), j, k)
    {
      assert InTurn(available, preferForward, centerSlots, ids, j, k);
    }
  }

  /** All IDs came from the search in bounds. */
  lemma BoundedIsPlaced(
      free: set<int>, all: set<int>, preferredBucket: int, preferForward: bool, centerSlots: bool, ids: seq<int>,
      count: nat, rank: int)
    requires Swept(free, preferredBucket, preferForward, [], ids, count, rank) && Distinct(ids)
    requires SlotsInTurn(free, preferForward, centerSlots, ids)
    requires forall id :: id in ids ==> id in free
    ensures Placed(free, preferredBucket, preferForward, centerSlots, Sort(ids))
    ensures Placed(all - free, preferredBucket, preferForward, centerSlots, Sort(ids))
  {
    SortedInTurn(free, preferForward, centerSlots, ids);
    forall bucket: int, available: seq<int>, j: nat, k: nat |
      IsBucketOf(all - free, bucket, available) && j < k < |available|
      ensures InTurn(available, preferForward, centerSlots, Sort(ids), j, k)
    {
      assert SlotAt(available, preferForward, centerSlots, k) in available;
    }
  }

  /** The search in bounds took every free ID there, and the wider search the rest. */
  lemma WidenedIsPlaced(
      free: set<int>, all: set<int>, preferredBucket: int, preferForward: bool, centerSlots: bool, given: seq<int>,
      ids: seq<int>, count: nat, rank: int)
    requires Swept(all, preferredBucket, preferForward, given, ids, count, rank) && Distinct(ids) && given <= ids
    requires SlotsInTurn(all - free, preferForward, centerSlots, ids)
    requires forall id :: id in given <==> id in free
    ensures Placed(free, preferredBucket, preferForward, centerSlots, Sort(ids))
    ensures Placed(all - free, preferredBucket, preferForward, centerSlots, Sort(ids))
  {
    WidenedIsNearest(free, all, preferredBucket, preferForward, given, ids, count, rank);
    WidenedInTurn(free, all, preferForward, centerSlots, given, ids);
  }

  lemma WidenedIsNearest(
      free: set<int>, all: set<int>, preferredBucket: int, preferForward: bool, given: seq<int>, ids: seq<int>,
      count: nat, rank: int)
    requires Swept(all, preferredBucket, preferForward, given, ids, count, rank) && Distinct(ids) && given <= ids
    requires forall id :: id in given <==> id in free
    ensures NearestFirst(free, preferredBucket, preferForward, Sort(ids))
    ensures NearestFirst(all - free, preferredBucket, preferForward, Sort(ids))
  {
    assert forall id :: id in given ==> id in ids;
    forall taken, left | taken in Sort(ids) && taken in all - free && left in all - free && left !in Sort(ids)
      ensures Rank(preferredBucket, preferForward, taken) <= Rank(preferredBucket, preferForward, left)
    {
      assert taken in ids && left !in ids && taken !in given;
    }
  }

  lemma WidenedInTurn(free: set<int>, all: set<int>, preferForward: bool, centerSlots: bool, given: seq<int>, ids: seq<int>)
    requires Distinct(ids) && given <= ids && SlotsInTurn(all - free, preferForward, centerSlots, ids)
    requires forall id :: id in given <==> id in free
    ensures SlotsInTurn(free, preferForward, centerSlots, Sort(ids))
    ensures SlotsInTurn(all - free, preferForward, centerSlots, Sort(ids))
  {
    SortedInTurn(all - free, preferForward, centerSlots, ids);
    forall bucket: int, available: seq<int>, j: nat, k: nat |
      IsBucketOf(free, bucket, available) && j < k < |available|
      ensures InTurn(available, preferForward, centerSlots, Sort(ids), j, k)
    {
      var slot := SlotAt(available, preferForward, centerSlots, j);
      assert slot in available && slot in given;
      var i :| 0 <= i < |given| && given[i] == slot;
      assert ids[i] == slot;
    }
  }

  lemma AllocatedFrom(occupied: set<int>, existing: seq<int>, bounds: Bounds, ids: seq<int>, count: nat)
    requires Distinct(ids) && |ids| == count
    requires forall id :: id in ids ==> id in Free(occupied, existing, UNBOUNDED)
    requires if |Free(occupied, existing, bounds)| >= count then forall id :: id in ids ==> id in Free(occupied, existing, bounds)
             else forall id :: id in Free(occupied, existing, bounds) ==> id in ids
    ensures Allocated(occupied, existing, bounds, count, Sort(ids))
  {
    hide Free;
  }

  lemma EmptyIsDistinct()
    ensures Distinct([])
  {
  }

  lemma FoundIsFree(occupied: set<int>, existing: seq<int>, bounds: Bounds, given: seq<int>, ids: seq<int>, count: nat)
    requires Found(occupied, existing, bounds, given, ids, count)
    ensures Distinct(ids) && |ids| <= count && given <= ids
    ensures forall id :: id in ids ==> id in given || id in Free(occupied, existing, bounds)
  {
  }
}

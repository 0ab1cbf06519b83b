/**
  What an issue of a login token does, in terms of the entries alone: which expire, which one is replaced, which
  one gives way, and with which refusal an issue fails; and the order of the entries, which over every run is that
  of their issues.
 */
module LoginTokenIssues {
  import opened LoginTokens

  type Entries = map<string, Entry>

  // ------------------------------------------------------------------ in entries

  /** The entries that an issue finds, without those that a cleanup due expires. */
  function AfterCleanup(s: State, clock: Clock): Entries {
    if clock.check < s.nextCleanupAt then s.entries
    else map k | k in s.entries && s.entries[k].expiresAt > clock.expire :: s.entries[k]
  }

  /** The entries an issue decides on: an expired entry of the auth key is gone too. */
  function AtDecision(s: State, authKeyId: string, clock: Clock): Entries {
    WithoutOwnExpired(AfterCleanup(s, clock), authKeyId, clock.look)
  }

  function WithoutOwnExpired(entries: Entries, authKeyId: string, now: int): Entries {
    map k | k in entries && !(entries[k].authKeyId == authKeyId && entries[k].expiresAt <= now) :: entries[k]
  }

  predicate Owns(entries: Entries, authKeyId: string) {
    exists k :: k in entries && entries[k].authKeyId == authKeyId
  }

  predicate OwnsUnevictable(entries: Entries, authKeyId: string) {
    exists k :: k in entries && entries[k].authKeyId == authKeyId && !Evictable(entries[k])
  }

  predicate OwnsOfSource(entries: Entries, authKeyId: string, source: Option<string>) {
    exists k :: k in entries && entries[k].authKeyId == authKeyId && entries[k].source == source
  }

  predicate Evictable(e: Entry) {
    e.identity.None? && !e.claimed
  }

  function OfSource(entries: Entries, source: string): set<string> {
    set k | k in entries && entries[k].source == Some(source)
  }

  /** The auth key has nothing to replace, and the store has no room. */
  ghost predicate NeedsRoom(entries: Entries, c: Config, authKeyId: string) {
    !Owns(entries, authKeyId) && |entries| >= c.maxEntries
  }

  /** The result of an issue that finds these entries. */
  ghost function Verdict(entries: Entries, c: Config, authKeyId: string, token: string, source: Option<string>): IssueResult {
    if OwnsUnevictable(entries, authKeyId) then Full
    else if token in entries && entries[token].authKeyId != authKeyId then Full
    else if source.Some? && source.value != "" && |OfSource(entries, source.value)| >= c.maxEntriesPerSource &&
      !OwnsOfSource(entries, authKeyId, source) then SourceLimit
    else if NeedsRoom(entries, c, authKeyId) && forall k :: k in entries ==> !Evictable(entries[k]) then Full
    else Issued
  }

  /** The first key in the order whose entry is neither approved nor claimed. */
  ghost predicate IsOldest(entries: Entries, order: seq<string>, k: string) {
    exists n :: 0 <= n < |order| && order[n] == k && k in entries && Evictable(entries[k]) &&
      forall m :: 0 <= m < n ==> order[m] in entries ==> !Evictable(entries[order[m]])
  }

  // -------------------------------------------------------------------- proofs

  lemma {:induction false} ExpiredEntries(s: State, keys: seq<string>, now: int)
    ensures Expired(s, keys, now).entries ==
            map k | k in s.entries && !(k in keys && s.entries[k].expiresAt <= now) :: s.entries[k]
    decreases |keys|
  {
    if keys != [] {
      assert keys == [keys[0]] + keys[1..];
      ExpiredEntries(Looked(s, keys[0], now), keys[1..], now);
    }
  }

  lemma CleanedUpEntries(s: State, c: Config, clock: Clock)
    requires Agree(s)
    ensures CleanedUp(s, c, clock).entries == AfterCleanup(s, clock)
  {
    if clock.check >= s.nextCleanupAt {
      ExpiredEntries(s, s.order, clock.expire);
    }
  }

  /** What the auth key has, found by its index, is what it has in the entries. */
  ghost predicate Finds(entries: Entries, authKeyId: string, previous: Option<string>, previousEntry: Option<Entry>) {
    && (previousEntry.Some? <==> Owns(entries, authKeyId))
    && (forall k :: k in entries && entries[k].authKeyId == authKeyId ==>
          previous == Some(k) && previousEntry == Some(entries[k]))
    && (forall k :: previous == Some(k) && k in entries ==> entries[k].authKeyId == authKeyId)
  }

  /** The index of auth keys leads to the entry of the auth key, if it has one. */
  lemma OwnEntry(s: State, authKeyId: string)
    requires TokensAgree(s.entries, s.tokenByAuthKey)
    ensures forall k :: k in s.entries ==> (s.entries[k].authKeyId == authKeyId <==> Previous(s, authKeyId) == Some(k))
    ensures Previous(s, authKeyId).Some? ==> Previous(s, authKeyId).value in s.entries
  {
  }

  lemma LookedEntries(s: State, authKeyId: string, now: int)
    requires TokensAgree(s.entries, s.tokenByAuthKey) && "" !in s.entries
    ensures var previous := Previous(s, authKeyId);
            (if previous.None? || previous.value == "" then s else Looked(s, previous.value, now)).entries ==
            WithoutOwnExpired(s.entries, authKeyId, now)
  {
    OwnEntry(s, authKeyId);
    hide Previous;
  }

  lemma LiveEntry(s: State, authKeyId: string, clock: Clock)
    requires TokensAgree(s.entries, s.tokenByAuthKey) && "" !in s.entries
    ensures Finds(
              WithoutOwnExpired(s.entries, authKeyId, clock.look), authKeyId,
              Previous(s, authKeyId), PreviousEntry(s, authKeyId, clock))
  {
    OwnEntry(s, authKeyId);
    var previous := Previous(s, authKeyId);
    if PreviousEntry(s, authKeyId, clock).Some? {
      assert previous.value in WithoutOwnExpired(s.entries, authKeyId, clock.look);
    }
    hide Previous;
  }

  lemma LookingEntries(s: State, c: Config, authKeyId: string, clock: Clock)
    requires Valid(s, c) && "" !in s.entries
    ensures Looking(s, c, authKeyId, clock).entries == AtDecision(s, authKeyId, clock)
    ensures var cleaned, entries := CleanedUp(s, c, clock), AtDecision(s, authKeyId, clock);
            Finds(entries, authKeyId, Previous(cleaned, authKeyId), PreviousEntry(cleaned, authKeyId, clock))
  {
    var cleaned := CleanedUp(s, c, clock);
    CleanedUpEntries(s, c, clock);
    CleanedUpValid(s, c, clock);
    ValidTokens(cleaned, c);
    hide CleanedUp, Valid, TokensAgree, AfterCleanup, Looked, PreviousEntry, Previous, Finds, WithoutOwnExpired;
    LookedEntries(cleaned, authKeyId, clock.look);
    LiveEntry(cleaned, authKeyId, clock);
  }

  lemma SourceSizeIs(s: State, source: string)
    requires SourcesAgree(s.entries, s.tokensBySource) && source != ""
    ensures SourceSize(s, source) == |OfSource(s.entries, source)|
  {
    if source in s.tokensBySource {
      assert s.tokensBySource[source] == OfSource(s.entries, source);
    } else {
      assert OfSource(s.entries, source) == {};
    }
  }

  lemma {:induction false} OldestIsFirst(s: State, keys: seq<string>)
    ensures Oldest(s, keys).Some? ==> IsOldest(s.entries, keys, Oldest(s, keys).value)
    ensures Oldest(s, keys).None? ==> forall k :: k in keys && k in s.entries ==> !Evictable(s.entries[k])
  {
    if keys != [] {
      assert keys == [keys[0]] + keys[1..];
      OldestIsFirst(s, keys[1..]);
      if keys[0] in s.entries && Evictable(s.entries[keys[0]]) {
        assert keys[0] == keys[0];
      } else if Oldest(s, keys).Some? {
        var k := Oldest(s, keys).value;
        var n :| 0 <= n < |keys[1..]| && keys[1..][n] == k && forall m :: 0 <= m < n ==>
          keys[1..][m] in s.entries ==> !Evictable(s.entries[keys[1..][m]]);
        assert keys[n + 1] == k;
        forall m | 0 <= m < n + 1 && keys[m] in s.entries ensures !Evictable(s.entries[keys[m]]) {
          if m > 0 {
            assert keys[1..][m - 1] == keys[m];
          }
        }
      }
    }
  }

  lemma FoundOwn(entries: Entries, authKeyId: string, previous: Option<string>, previousEntry: Option<Entry>, source: Option<string>)
    requires Finds(entries, authKeyId, previous, previousEntry)
    ensures previousEntry.Some? <==> Owns(entries, authKeyId)
    ensures OwnsUnevictable(entries, authKeyId) <==> previousEntry.Some? && !Evictable(previousEntry.value)
    ensures OwnsOfSource(entries, authKeyId, source) <==> previousEntry.Some? && previousEntry.value.source == source
  {
    if previousEntry.Some? {
      var own :| own in entries && entries[own].authKeyId == authKeyId;
    }
  }

  lemma ScreenedIsVerdict(
      s: State, c: Config, authKeyId: string, previous: Option<string>, previousEntry: Option<Entry>, token: string,
      source: Option<string>)
    requires Finds(s.entries, authKeyId, previous, previousEntry) && SourcesAgree(s.entries, s.tokensBySource)
    ensures previousEntry.Some? <==> Owns(s.entries, authKeyId)
    ensures Screened(s, c, previous, previousEntry, token, source) ==
            if OwnsUnevictable(s.entries, authKeyId) then Full
            else if token in s.entries && s.entries[token].authKeyId != authKeyId then Full
            else if source.Some? && source.value != "" && |OfSource(s.entries, source.value)| >= c.maxEntriesPerSource &&
              !OwnsOfSource(s.entries, authKeyId, source) then SourceLimit
            else Issued
  {
    FoundOwn(s.entries, authKeyId, previous, previousEntry, source);
    if source.Some? && source.value != "" {
      SourceSizeIs(s, source.value);
    }
    hide SourcesAgree, OfSource, SourceSize, OwnsUnevictable, OwnsOfSource;
  }

  lemma NoneIsEvictable(s: State)
    requires OrderAgrees(s.entries, s.order)
    ensures Oldest(s, s.order).None? <==> forall k :: k in s.entries ==> !Evictable(s.entries[k])
  {
    OldestIsFirst(s, s.order);
    hide Oldest, Evictable;
  }

  lemma VerdictOf(
      s: State, c: Config, authKeyId: string, previous: Option<string>, previousEntry: Option<Entry>, token: string,
      source: Option<string>)
    requires Finds(s.entries, authKeyId, previous, previousEntry)
    requires SourcesAgree(s.entries, s.tokensBySource) && OrderAgrees(s.entries, s.order)
    ensures var screened := Screened(s, c, previous, previousEntry, token, source);
            Verdict(s.entries, c, authKeyId, token, source) ==
            if !screened.Issued? then screened
            else if previousEntry.None? && |s.entries| >= c.maxEntries && Oldest(s, s.order).None? then Full
            else Issued
  {
    ScreenedIsVerdict(s, c, authKeyId, previous, previousEntry, token, source);
    NoneIsEvictable(s);
    hide Finds, SourcesAgree, OrderAgrees, Screened, Oldest, Evictable, OfSource, Owns, OwnsUnevictable, OwnsOfSource;
  }

  /** An issue is decided by the entries alone. */
  lemma DecisionIsVerdict(s: State, c: Config, authKeyId: string, token: string, source: Option<string>, clock: Clock)
    requires Valid(s, c) && "" !in s.entries
    ensures Decision(s, c, authKeyId, token, source, clock) ==
            Verdict(AtDecision(s, authKeyId, clock), c, authKeyId, token, source)
  {
    var looking, cleaned := Looking(s, c, authKeyId, clock), CleanedUp(s, c, clock);
    LookingEntries(s, c, authKeyId, clock);
    LookingValid(s, c, authKeyId, clock);
    ValidParts(looking, c);
    hide Valid, Looking, CleanedUp, Previous, PreviousEntry, AtDecision, Oldest, Screened, SourcesAgree, OrderAgrees;
    hide Finds, Verdict, TokensAgree;
    VerdictOf(looking, c, authKeyId, Previous(cleaned, authKeyId), PreviousEntry(cleaned, authKeyId, clock), token, source);
  }

  lemma ValidParts(s: State, c: Config)
    requires Valid(s, c)
    ensures OrderAgrees(s.entries, s.order) && SourcesAgree(s.entries, s.tokensBySource)
    ensures TokensAgree(s.entries, s.tokenByAuthKey)
  {
  }

  lemma DeletedEntries(s: State, token: string)
    ensures Delete(s, token).entries == s.entries - {token}
  {
  }

  lemma AddedEntries(s: State, c: Config, authKeyId: string, token: string, source: Option<string>, clock: Clock)
    ensures Added(s, c, authKeyId, token, source, clock).entries ==
            s.entries[token := Entry(authKeyId, (clock.issue + c.ttl) / 1_000 * 1_000, None, false, source)]
  {
  }

  lemma OldestGivesWay(s: State, needsRoom: bool, k: string)
    requires OrderAgrees(s.entries, s.order)
    ensures var room := (if needsRoom && Oldest(s, s.order).Some? then Delete(s, Oldest(s, s.order).value) else s).entries;
            && (k in room <==> k in s.entries && !(needsRoom && IsOldest(s.entries, s.order, k)))
            && (k in room ==> room[k] == s.entries[k])
  {
    OldestIsOne(s, k);
    OldestIsFirst(s, s.order);
    if Oldest(s, s.order).Some? {
      DeletedEntries(s, Oldest(s, s.order).value);
    }
    hide Oldest, Delete, IsOldest, OrderAgrees;
  }

  /** What makes room: the oldest entry, if the auth key has nothing to replace and the store is full. */
  lemma RoomTakesOldest(s: State, c: Config, authKeyId: string, clock: Clock, k: string)
    requires Valid(s, c) && "" !in s.entries
    ensures var entries, room := AtDecision(s, authKeyId, clock), Room(s, c, authKeyId, clock).entries;
            var oldest := IsOldest(entries, Looking(s, c, authKeyId, clock).order, k);
            && (k in room <==> k in entries && !(NeedsRoom(entries, c, authKeyId) && oldest))
            && (k in room ==> room[k] == entries[k])
  {
    var looking, cleaned := Looking(s, c, authKeyId, clock), CleanedUp(s, c, clock);
    LookingEntries(s, c, authKeyId, clock);
    LookingValid(s, c, authKeyId, clock);
    ValidParts(looking, c);
    FoundOwn(looking.entries, authKeyId, Previous(cleaned, authKeyId), PreviousEntry(cleaned, authKeyId, clock), None);
    hide Valid, Looking, CleanedUp, Previous, PreviousEntry, AtDecision, Oldest, SourcesAgree, OrderAgrees, IsOldest;
    hide Delete, Evictable, TokensAgree, Owns, Finds;
    OldestGivesWay(looking, NeedsRoom(looking.entries, c, authKeyId), k);
  }

  lemma PreviousIsNotEmpty(s: State, c: Config, authKeyId: string, clock: Clock)
    requires Valid(s, c) && "" !in s.entries
    ensures Previous(CleanedUp(s, c, clock), authKeyId) != Some("")
  {
    var cleaned := CleanedUp(s, c, clock);
    CleanedUpEntries(s, c, clock);
    CleanedUpValid(s, c, clock);
    ValidParts(cleaned, c);
    hide Valid, CleanedUp, TokensAgree, Previous;
    OwnEntry(cleaned, authKeyId);
  }

  /** What clearing leaves of that: everything but what the auth key had. */
  lemma ClearingTakesOwn(s: State, c: Config, authKeyId: string, clock: Clock, k: string)
    requires Valid(s, c) && "" !in s.entries
    ensures var entries := AtDecision(s, authKeyId, clock);
            var room, cleared := Room(s, c, authKeyId, clock).entries, Cleared(s, c, authKeyId, clock).entries;
            && (k in cleared <==> k in room && !(k in entries && entries[k].authKeyId == authKeyId))
            && (k in cleared ==> cleared[k] == room[k])
  {
    hide Valid, Looking, CleanedUp, Previous, PreviousEntry, AtDecision, Room, NeedsRoom, IsOldest, Delete;
    RoomTakesOldest(s, c, authKeyId, clock, k);
    LookingEntries(s, c, authKeyId, clock);
    PreviousIsNotEmpty(s, c, authKeyId, clock);
    var previous := Previous(CleanedUp(s, c, clock), authKeyId);
    if previous.Some? {
      DeletedEntries(Room(s, c, authKeyId, clock), previous.value);
    }
  }

  /**
    An issue that succeeds takes away what the auth key had and, where that was nothing and there is no room, the
    oldest entry that is neither approved nor claimed; it adds its own entry, and changes nothing else.
   */
  lemma IssueExchanges(
      s: State, c: Config, authKeyId: string, token: string, source: Option<string>, clock: Clock, k: string)
    requires Valid(s, c) && "" !in s.entries && Decision(s, c, authKeyId, token, source, clock).Issued?
    ensures var entries, after := AtDecision(s, authKeyId, clock), Issue(s, c, authKeyId, token, source, clock).entries;
            var oldest := IsOldest(entries, Looking(s, c, authKeyId, clock).order, k);
            && token in after
            && after[token] == Entry(authKeyId, (clock.issue + c.ttl) / 1_000 * 1_000, None, false, source)
            && (k != token ==>
                  (k in after <==>
                     k in entries && entries[k].authKeyId != authKeyId && !(NeedsRoom(entries, c, authKeyId) && oldest)) &&
                  (k in after ==> after[k] == entries[k]))
  {
    RoomTakesOldest(s, c, authKeyId, clock, k);
    ClearingTakesOwn(s, c, authKeyId, clock, k);
    AddedEntries(Cleared(s, c, authKeyId, clock), c, authKeyId, token, source, clock);
    hide Added;
    hide Valid, Looking, AtDecision, Decision, Room, Cleared, NeedsRoom, IsOldest;
  }

  /** An issue that fails takes away what has expired, and nothing else. */
  lemma RefusalOnlyExpires(s: State, c: Config, authKeyId: string, token: string, source: Option<string>, clock: Clock)
    requires Valid(s, c) && "" !in s.entries && !Decision(s, c, authKeyId, token, source, clock).Issued?
    ensures Issue(s, c, authKeyId, token, source, clock).entries == AtDecision(s, authKeyId, clock)
  {
    LookingEntries(s, c, authKeyId, clock);
    hide Valid, Looking, AtDecision, Decision;
  }

  /** There is one oldest entry. */
  lemma OldestIsOne(s: State, k: string)
    requires OrderAgrees(s.entries, s.order)
    ensures IsOldest(s.entries, s.order, k) ==> Oldest(s, s.order) == Some(k)
  {
    OldestIsFirst(s, s.order);
    if IsOldest(s.entries, s.order, k) {
      var oldest := Oldest(s, s.order);
      var n :| 0 <= n < |s.order| && s.order[n] == k && forall m :: 0 <= m < n ==>
        s.order[m] in s.entries ==> !Evictable(s.entries[s.order[m]]);
      assert s.order[n] in s.order;
      var o :| 0 <= o < |s.order| && s.order[o] == oldest.value && forall m :: 0 <= m < o ==>
        s.order[m] in s.entries ==> !Evictable(s.entries[s.order[m]]);
    }
    hide Oldest;
  }

  // -------------------------------------------------------------- other events

  /** The token was claimed for that auth key and nothing has come of it yet. */
  predicate IsClaimed(entries: Entries, claim: Claim) {
    claim.token in entries && entries[claim.token].claimed && entries[claim.token].authKeyId == claim.authKeyId
  }

  /** The approved token of an auth key. */
  ghost predicate IsApproved(entries: Entries, authKeyId: string, k: string) {
    k in entries && k != "" && entries[k].authKeyId == authKeyId && entries[k].identity.Some?
  }

  /** The entries after looking up a token, which does something to it while it is live and else deletes it. */
  ghost function Touched(before: Entries, token: string, now: int, live: Entry -> Entry): Entries {
    if token !in before then before
    else if before[token].expiresAt <= now then before - {token}
    else before[token := live(before[token])]
  }

  /** What an approval makes of a live entry. */
  ghost function Approval(identity: Identity): Entry -> Entry {
    (e: Entry) => if Evictable(e) then Entry(e.authKeyId, e.expiresAt, Some(identity), false, e.source) else e
  }

  /** What a claim makes of a live entry. */
  ghost function Claiming(authKeyId: string): Entry -> Entry {
    (e: Entry) =>
      if e.authKeyId == authKeyId && e.identity.Some? && !e.claimed
      then Entry(e.authKeyId, e.expiresAt, e.identity, true, e.source) else e
  }

  /**
    What every event but an issue does to the entries: an approval sets the identity of an entry that is live and
    neither approved nor claimed; a claim marks one that is live, approved, not claimed and of that auth key; a
    commit deletes what was claimed for that auth key, and a rollback unmarks it; looking at an expired entry
    deletes it.
   */
  lemma OtherEventsAre(s: State, c: Config, event: Event, k: string)
    requires Agree(s) && !event.Issuing?
    ensures var before, after := s.entries, Next(s, c, event).entries;
            match event
            case Issuing(_, _, _, _) => true
            case Approving(token, identity, now) => after == Touched(before, token, now, Approval(identity))
            case Reading(token, now) => after == Touched(before, token, now, (e: Entry) => e)
            case Claiming(token, authKeyId, now) => after == Touched(before, token, now, Claiming(authKeyId))
            case ClaimingApproved(authKeyId, now) =>
              if IsApproved(before, authKeyId, k) then after == Touched(before, k, now, Claiming(authKeyId))
              else (forall l :: !IsApproved(before, authKeyId, l)) ==> after == before
            case Committing(claim) => after == if IsClaimed(before, claim) then before - {claim.token} else before
            case RollingBack(claim) =>
              after == if IsClaimed(before, claim)
                then before[claim.token := before[claim.token].(claimed := false)] else before
  {
    hide Agree, Delete, Approve, Claimed, ApprovedToken, Evictable, Issue;
    match event
    case Issuing(_, _, _, _) =>
    case Approving(token, identity, now) => ApprovalTouches(s, token, identity, now);
    case Reading(token, now) => LookTouches(s, token, now);
    case Claiming(token, authKeyId, now) => ClaimTouches(s, token, authKeyId, now);
    case ClaimingApproved(authKeyId, now) =>
      ApprovedIs(s, authKeyId, k);
      ClaimTouches(s, k, authKeyId, now);
      hide IsApproved, Touched, Claiming;
    case Committing(claim) => DeletedEntries(s, claim.token);
    case RollingBack(_) =>
  }

  lemma LookTouches(s: State, token: string, now: int)
    ensures Looked(s, token, now).entries == Touched(s.entries, token, now, (e: Entry) => e)
  {
    DeletedEntries(s, token);
    hide Delete;
  }

  lemma ApprovalTouches(s: State, token: string, identity: Identity, now: int)
    ensures Approve(s, token, identity, now).entries == Touched(s.entries, token, now, Approval(identity))
  {
    DeletedEntries(s, token);
    hide Delete;
  }

  lemma ClaimTouches(s: State, token: string, authKeyId: string, now: int)
    ensures Claimed(s, token, authKeyId, now).entries == Touched(s.entries, token, now, Claiming(authKeyId))
  {
    DeletedEntries(s, token);
    hide Delete;
  }

  lemma ApprovedIs(s: State, authKeyId: string, k: string)
    requires Agree(s)
    ensures IsApproved(s.entries, authKeyId, k) <==> ApprovedToken(s, authKeyId) == Some(k)
    ensures (forall l :: !IsApproved(s.entries, authKeyId, l)) ==> ApprovedToken(s, authKeyId).None?
  {
    hide OrderAgrees, TokensAgree, SourcesAgree;
    if ApprovedToken(s, authKeyId).Some? {
      assert IsApproved(s.entries, authKeyId, ApprovedToken(s, authKeyId).value);
    }
  }

  // --------------------------------------------------------------------- order

  ghost predicate Before(order: seq<string>, k: string, l: string) {
    exists a, b :: 0 <= a < b < |order| && order[a] == k && order[b] == l
  }

  /** The order of what is left is what it was. */
  ghost predicate KeepsOrder(before: seq<string>, after: seq<string>) {
    forall k, l :: Before(after, k, l) ==> Before(before, k, l)
  }

  lemma {:induction false} WithoutKeepsOrder(keys: seq<string>, key: string)
    ensures KeepsOrder(keys, Without(keys, key))
  {
    if keys != [] {
      WithoutKeepsOrder(keys[1..], key);
      forall k, l | Before(Without(keys, key), k, l) ensures Before(keys, k, l) {
        WithoutStep(keys, key, k, l);
      }
    }
  }

  lemma WithoutStep(keys: seq<string>, key: string, k: string, l: string)
    requires keys != [] && KeepsOrder(keys[1..], Without(keys[1..], key)) && Before(Without(keys, key), k, l)
    ensures Before(keys, k, l)
  {
    var rest := Without(keys[1..], key);
    if keys[0] != key {
      var a, b :| 0 <= a < b < |Without(keys, key)| && Without(keys, key)[a] == k && Without(keys, key)[b] == l;
      if a == 0 {
        assert rest[b - 1] == l;
        assert l in keys[1..];
        var n :| 0 <= n < |keys[1..]| && keys[1..][n] == l;
        assert keys[0] == k && keys[n + 1] == l;
        return;
      }
      assert rest[a - 1] == k && rest[b - 1] == l;
    }
    assert Before(keys[1..], k, l);
    var a, b :| 0 <= a < b < |keys[1..]| && keys[1..][a] == k && keys[1..][b] == l;
    assert keys[a + 1] == k && keys[b + 1] == l;
  }

  lemma DeleteKeepsOrder(s: State, token: string)
    ensures KeepsOrder(s.order, Delete(s, token).order)
  {
    WithoutKeepsOrder(s.order, token);
  }

  lemma {:induction false} ExpiredKeepsOrder(s: State, keys: seq<string>, now: int)
    ensures KeepsOrder(s.order, Expired(s, keys, now).order)
    decreases |keys|
  {
    hide Delete, Before;
    if keys != [] {
      DeleteKeepsOrder(s, keys[0]);
      ExpiredKeepsOrder(Looked(s, keys[0], now), keys[1..], now);
    }
  }

  lemma ClearedKeepsOrder(s: State, c: Config, authKeyId: string, clock: Clock)
    ensures KeepsOrder(s.order, Looking(s, c, authKeyId, clock).order)
    ensures KeepsOrder(s.order, Cleared(s, c, authKeyId, clock).order)
  {
    hide Delete, Before, Expired, PreviousEntry, Oldest;
    var cleaned, looking, room := CleanedUp(s, c, clock), Looking(s, c, authKeyId, clock), Room(s, c, authKeyId, clock);
    ExpiredKeepsOrder(s, s.order, clock.expire);
    assert KeepsOrder(s.order, cleaned.order);
    hide CleanedUp;
    var previous := Previous(cleaned, authKeyId);
    if previous.Some? {
      DeleteKeepsOrder(cleaned, previous.value);
      DeleteKeepsOrder(room, previous.value);
    }
    assert KeepsOrder(s.order, looking.order);
    hide Looking;
    if Oldest(looking, looking.order).Some? {
      DeleteKeepsOrder(looking, Oldest(looking, looking.order).value);
    }
    assert KeepsOrder(s.order, room.order);
    hide Room;
  }

  /** How an event can change the order: what is left keeps it, and what is issued goes to the end. */
  lemma OrderStep(s: State, c: Config, event: Event, k: string, l: string)
    requires Valid(s, c) && "" !in s.entries && Before(Next(s, c, event).order, k, l)
    ensures !IsIssue(s, c, event, k)
    ensures if IsIssue(s, c, event, l) then k in s.order else Before(s.order, k, l)
  {
    hide Before, Valid, Decision, Issue, Approve, Claimed, Commit, Rollback;
    if event.Issuing? {
      IssueOrder(s, c, event.authKeyId, event.token, event.source, event.clock, k, l);
    } else {
      OtherOrder(s, c, event);
    }
  }

  lemma OtherOrder(s: State, c: Config, event: Event)
    requires !event.Issuing?
    ensures KeepsOrder(s.order, Next(s, c, event).order)
  {
    hide Delete, Before, Issue, Approves, ClaimOf;
    match event
    case Issuing(_, _, _, _) =>
    case Approving(token, _, _) => DeleteKeepsOrder(s, token);
    case Reading(token, _) => DeleteKeepsOrder(s, token);
    case Claiming(token, _, _) => DeleteKeepsOrder(s, token);
    case ClaimingApproved(authKeyId, _) =>
      if ApprovedToken(s, authKeyId).Some? {
        DeleteKeepsOrder(s, ApprovedToken(s, authKeyId).value);
      }
    case Committing(claim) => DeleteKeepsOrder(s, claim.token);
    case RollingBack(_) =>
  }

  lemma IssueOrder(
      s: State, c: Config, authKeyId: string, token: string, source: Option<string>, clock: Clock, k: string, l: string)
    requires Valid(s, c) && "" !in s.entries && Before(Issue(s, c, authKeyId, token, source, clock).order, k, l)
    ensures if Decision(s, c, authKeyId, token, source, clock).Issued?
            then k != token && (if l == token then k in s.order else Before(s.order, k, l))
            else Before(s.order, k, l)
  {
    hide Before, Valid, Decision, Cleared, Looking;
    ClearedKeepsOrder(s, c, authKeyId, clock);
    if Decision(s, c, authKeyId, token, source, clock).Issued? {
      var cleared := Cleared(s, c, authKeyId, clock);
      ClearedValid(s, c, authKeyId, clock);
      ValidParts(cleared, c);
      ValidParts(s, c);
      TokenIsCleared(s, c, authKeyId, token, source, clock);
      AppendedLast(s.order, cleared.order, token, k, l);
    }
  }

  lemma TokenIsCleared(s: State, c: Config, authKeyId: string, token: string, source: Option<string>, clock: Clock)
    requires Valid(s, c) && "" !in s.entries && Decision(s, c, authKeyId, token, source, clock).Issued?
    ensures token !in Cleared(s, c, authKeyId, clock).entries
    ensures forall k :: k in Cleared(s, c, authKeyId, clock).entries ==> k in s.entries
  {
    hide Valid, Decision, Cleared, Looking;
    ClearedIsFree(s, c, authKeyId, token, source, clock);
    LookingShrinks(s, c, authKeyId, clock);
    ClearedShrinks(s, c, authKeyId, clock);
  }

  lemma AppendedLast(before: seq<string>, order: seq<string>, token: string, k: string, l: string)
    requires KeepsOrder(before, order) && token !in order && Before(order + [token], k, l)
    requires forall x :: x in order ==> x in before
    ensures k != token && if l == token then k in before else Before(before, k, l)
  {
    var a, b :| 0 <= a < b < |order + [token]| && (order + [token])[a] == k && (order + [token])[b] == l;
    assert order[a] == k && k in order;
    if b < |order| {
      assert order[b] == l && l in order;
      assert Before(order, k, l);
    }
  }

  /** Event `i` is the last before state `j` that issued the token. */
  ghost predicate LastIssue(states: seq<State>, events: seq<Event>, c: Config, i: nat, j: nat, k: string)
    requires |states| == |events| + 1 && i < j <= |events|
  {
    IsIssue(states[i], c, events[i], k) && forall m :: i < m < j ==> !IsIssue(states[m], c, events[m], k)
  }

  lemma {:induction false} LastIssueOf(states: seq<State>, events: seq<Event>, c: Config, j: nat, k: string) returns (i: nat)
    requires Run(states, events, c) && j < |states| && k in states[j].entries
    ensures i < j && LastIssue(states, events, c, i, j, k)
  {
    hide Next, IsIssue;
    assert j > 0;
    EntryStep(states[j - 1], c, events[j - 1], k);
    if IsIssue(states[j - 1], c, events[j - 1], k) {
      i := j - 1;
    } else {
      i := LastIssueOf(states, events, c, j - 1, k);
    }
  }

  /** In every run without empty tokens the entries are in the order of their issues, so the oldest is that issued first. */
  lemma {:induction false} OrderIsThatOfIssues(
      states: seq<State>, events: seq<Event>, c: Config, j: nat, k: string, l: string) returns (a: nat, b: nat)
    requires Run(states, events, c) && j < |states| && Before(states[j].order, k, l)
    requires forall i :: 0 <= i < j ==> !IssuesEmptyToken(events[i])
    ensures a < b < j && LastIssue(states, events, c, a, j, k) && LastIssue(states, events, c, b, j, l)
  {
    hide Next, IsIssue, Valid;
    assert j > 0;
    RunAgrees(states, events, c, j - 1);
    OrderStep(states[j - 1], c, events[j - 1], k, l);
    if IsIssue(states[j - 1], c, events[j - 1], l) {
      b := j - 1;
      ValidParts(states[j - 1], c);
      a := LastIssueOf(states, events, c, j - 1, k);
    } else {
      a, b := OrderIsThatOfIssues(states, events, c, j - 1, k, l);
    }
  }
}

/**
  In-memory, single-use QR login tokens: one map of entries and three indexes that must agree with it.
  Keys are the hexadecimal forms of tokens and auth keys; an empty token has the empty key.
 */
module LoginTokens {

  datatype Option<T> = None | Some(value: T)

  datatype Identity = Identity(platformId: string, platformSessionId: string)

  datatype Entry = Entry(
    authKeyId: string, expiresAt: int, identity: Option<Identity>, claimed: bool, source: Option<string>)

  datatype Claim = Claim(token: string, authKeyId: string, identity: Identity)

  datatype Config = Config(ttl: int, maxEntries: nat, maxEntriesPerSource: nat)

  /**
    What one issue reads from the clock, which need not stand still nor be monotone: whether a cleanup is due,
    what it expires, when the next one is due, whether the previous token has expired, and the time of issue.
   */
  datatype Clock = Clock(check: int, expire: int, schedule: int, look: int, issue: int)

  /** `order` lists the keys of `entries` by insertion, as the map of the program iterates over them. */
  datatype State = State(
    entries: map<string, Entry>, order: seq<string>, tokenByAuthKey: map<string, string>,
    approvedByAuthKey: map<string, string>, tokensBySource: map<string, set<string>>, nextCleanupAt: int)

  const EMPTY: State := State(map[], [], map[], map[], map[], 0)

  /** An empty source counts as none. */
  function Source(source: Option<string>): Option<string> {
    if source == Some("") then None else source
  }

  // --------------------------------------------------------------- operations

  function Without(keys: seq<string>, key: string): (r: seq<string>)
    ensures forall k :: k in r <==> k in keys && k != key
  {
    if keys == [] then []
    else
      assert keys == [keys[0]] + keys[1..];
      if keys[0] == key then Without(keys[1..], key) else [keys[0]] + Without(keys[1..], key)
  }

  function Unindexed(index: map<string, string>, authKeyId: string, token: string): map<string, string> {
    if authKeyId in index && index[authKeyId] == token then index - {authKeyId} else index
  }

  function Unsourced(tokensBySource: map<string, set<string>>, source: Option<string>, token: string): map<string, set<string>> {
    if Source(source).None? then tokensBySource
    else if source.value in tokensBySource && tokensBySource[source.value] - {token} != {}
    then tokensBySource[source.value := tokensBySource[source.value] - {token}]
    else tokensBySource - {source.value}
  }

  function Delete(s: State, token: string): State {
    if token !in s.entries then s
    else
      var e := s.entries[token];
      State(
        s.entries - {token}, Without(s.order, token),
        Unindexed(s.tokenByAuthKey, e.authKeyId, token), Unindexed(s.approvedByAuthKey, e.authKeyId, token),
        Unsourced(s.tokensBySource, e.source, token), s.nextCleanupAt)
  }

  /** Looking an entry up deletes it when it has expired. */
  function Looked(s: State, token: string, now: int): State {
    if token in s.entries && s.entries[token].expiresAt <= now then Delete(s, token) else s
  }

  function Live(s: State, token: string, now: int): Option<Entry> {
    if token in s.entries && s.entries[token].expiresAt > now then Some(s.entries[token]) else None
  }

  /** Deletes the expired among some keys, in order. */
  function Expired(s: State, keys: seq<string>, now: int): State
    decreases |keys|
  {
    if keys == [] then s else Expired(Looked(s, keys[0], now), keys[1..], now)
  }

  function CleanedUp(s: State, c: Config, clock: Clock): State {
    if clock.check < s.nextCleanupAt then s
    else Expired(s, s.order, clock.expire).(nextCleanupAt := clock.schedule + if c.ttl <= 10_000 then c.ttl else 10_000)
  }

  /** The oldest entry of some keys that is neither approved nor claimed. */
  function Oldest(s: State, keys: seq<string>): Option<string> {
    if keys == [] then None
    else if keys[0] in s.entries && s.entries[keys[0]].identity.None? && !s.entries[keys[0]].claimed then Some(keys[0])
    else Oldest(s, keys[1..])
  }

  datatype IssueResult = Issued | Full | SourceLimit

  function Previous(s: State, authKeyId: string): Option<string> {
    if authKeyId in s.tokenByAuthKey then Some(s.tokenByAuthKey[authKeyId]) else None
  }

  /** The live entry of the auth key that an issue replaces; an empty key passes for none. */
  function PreviousEntry(s: State, authKeyId: string, clock: Clock): Option<Entry> {
    var previous := Previous(s, authKeyId);
    if previous.None? || previous.value == "" then None else Live(s, previous.value, clock.look)
  }

  function SourceSize(s: State, source: string): nat {
    if source in s.tokensBySource then |s.tokensBySource[source]| else 0
  }

  /** The state in which an issue decides: after the cleanup, and without the expired previous entry. */
  function Looking(s: State, c: Config, authKeyId: string, clock: Clock): State {
    var cleaned := CleanedUp(s, c, clock);
    var previous := Previous(cleaned, authKeyId);
    if previous.None? || previous.value == "" then cleaned else Looked(cleaned, previous.value, clock.look)
  }

  /** The refusals of an issue that do not come from the number of entries. */
  function Screened(
      s: State, c: Config, previous: Option<string>, previousEntry: Option<Entry>, token: string, source: Option<string>)
      : IssueResult
  {
    if previousEntry.Some? && (previousEntry.value.identity.Some? || previousEntry.value.claimed) then Full
    else if previous != Some(token) && token in s.entries then Full
    else if Source(source).Some? && SourceSize(s, source.value) >= c.maxEntriesPerSource &&
      !(previousEntry.Some? && previousEntry.value.source == source) then SourceLimit
    else Issued
  }

  function Decision(s: State, c: Config, authKeyId: string, token: string, source: Option<string>, clock: Clock): IssueResult {
    var looking := Looking(s, c, authKeyId, clock);
    var cleaned := CleanedUp(s, c, clock);
    var previous, previousEntry := Previous(cleaned, authKeyId), PreviousEntry(cleaned, authKeyId, clock);
    var screened := Screened(looking, c, previous, previousEntry, token, source);
    if !screened.Issued? then screened
    else if previousEntry.None? && |looking.entries| >= c.maxEntries && Oldest(looking, looking.order).None? then Full
    else Issued
  }

  /** The state in which the oldest entry has made room, if that was needed. */
  function Room(s: State, c: Config, authKeyId: string, clock: Clock): State {
    var looking := Looking(s, c, authKeyId, clock);
    var oldest := Oldest(looking, looking.order);
    if PreviousEntry(CleanedUp(s, c, clock), authKeyId, clock).None? && |looking.entries| >= c.maxEntries && oldest.Some?
    then Delete(looking, oldest.value) else looking
  }

  /** The state before the new entry goes in: the previous entry of the auth key is gone too. */
  function Cleared(s: State, c: Config, authKeyId: string, clock: Clock): State {
    var previous := Previous(CleanedUp(s, c, clock), authKeyId);
    var room := Room(s, c, authKeyId, clock);
    if previous.None? || previous.value == "" then room else Delete(room, previous.value)
  }

  function Added(s: State, c: Config, authKeyId: string, token: string, source: Option<string>, clock: Clock): State {
    State(
      s.entries[token := Entry(authKeyId, (clock.issue + c.ttl) / 1_000 * 1_000, None, false, source)],
      if token in s.entries then s.order else s.order + [token],
      s.tokenByAuthKey[authKeyId := token], s.approvedByAuthKey,
      if Source(source).None? then s.tokensBySource
      else s.tokensBySource[source.value :=
        (if source.value in s.tokensBySource then s.tokensBySource[source.value] else {}) + {token}],
      s.nextCleanupAt)
  }

  function Issue(s: State, c: Config, authKeyId: string, token: string, source: Option<string>, clock: Clock): State {
    if Decision(s, c, authKeyId, token, source, clock).Issued?
    then Added(Cleared(s, c, authKeyId, clock), c, authKeyId, token, source, clock)
    else Looking(s, c, authKeyId, clock)
  }

  predicate Approves(s: State, token: string, now: int) {
    var e := Live(s, token, now);
    e.Some? && e.value.identity.None? && !e.value.claimed
  }

  function Approve(s: State, token: string, identity: Identity, now: int): State {
    if Approves(s, token, now)
    then s.(entries := s.entries[token := s.entries[token].(identity := Some(identity))],
            approvedByAuthKey := s.approvedByAuthKey[s.entries[token].authKeyId := token])
    else Looked(s, token, now)
  }

  function ClaimOf(s: State, token: string, authKeyId: string, now: int): Option<Claim> {
    var e := Live(s, token, now);
    if e.None? || e.value.authKeyId != authKeyId || e.value.identity.None? || e.value.claimed then None
    else Some(Claim(token, authKeyId, e.value.identity.value))
  }

  function Claimed(s: State, token: string, authKeyId: string, now: int): State {
    if ClaimOf(s, token, authKeyId, now).Some?
    then s.(entries := s.entries[token := s.entries[token].(claimed := true)])
    else Looked(s, token, now)
  }

  /** The token approved for an auth key; an empty key passes for none. */
  function ApprovedToken(s: State, authKeyId: string): Option<string> {
    if authKeyId in s.approvedByAuthKey && s.approvedByAuthKey[authKeyId] != ""
    then Some(s.approvedByAuthKey[authKeyId]) else None
  }

  predicate Concerns(s: State, claim: Claim) {
    claim.token in s.entries && s.entries[claim.token].claimed && s.entries[claim.token].authKeyId == claim.authKeyId
  }

  function Commit(s: State, claim: Claim): State {
    if Concerns(s, claim) then Delete(s, claim.token) else s
  }

  function Rollback(s: State, claim: Claim): State {
    if Concerns(s, claim)
    then s.(entries := s.entries[claim.token := s.entries[claim.token].(claimed := false)]) else s
  }

  datatype Event =
    | Issuing(authKeyId: string, token: string, source: Option<string>, clock: Clock)
    | Approving(token: string, identity: Identity, now: int)
    | Reading(token: string, now: int)
    | Claiming(token: string, authKeyId: string, now: int)
    | ClaimingApproved(authKeyId: string, now: int)
    | Committing(claim: Claim)
    | RollingBack(claim: Claim)

  function Next(s: State, c: Config, event: Event): State {
    match event
    case Issuing(authKeyId, token, source, clock) => Issue(s, c, authKeyId, token, source, clock)
    case Approving(token, identity, now) => Approve(s, token, identity, now)
    case Reading(token, now) => Looked(s, token, now)
    case Claiming(token, authKeyId, now) => Claimed(s, token, authKeyId, now)
    case ClaimingApproved(authKeyId, now) =>
      var token := ApprovedToken(s, authKeyId);
      if token.Some? then Claimed(s, token.value, authKeyId, now) else s
    case Committing(claim) => Commit(s, claim)
    case RollingBack(claim) => Rollback(s, claim)
  }

  // ---------------------------------------------------------------- agreement

  ghost predicate Distinct(keys: seq<string>) {
    forall i, j :: 0 <= i < j < |keys| ==> keys[i] != keys[j]
  }

  ghost predicate OrderAgrees(entries: map<string, Entry>, order: seq<string>) {
    Distinct(order) && forall k :: k in order <==> k in entries
  }

  /** The auth keys and the live entries correspond one to one. */
  ghost predicate TokensAgree(entries: map<string, Entry>, index: map<string, string>) {
    && (forall a :: a in index ==> index[a] in entries && entries[index[a]].authKeyId == a)
    && (forall k :: k in entries ==> entries[k].authKeyId in index && index[entries[k].authKeyId] == k)
  }

  /** The approved entries are exactly those with an identity, and nothing else can be claimed. */
  ghost predicate ApprovalsAgree(entries: map<string, Entry>, index: map<string, string>) {
    && (forall a :: a in index ==> index[a] in entries && entries[index[a]].authKeyId == a && entries[index[a]].identity.Some?)
    && (forall k :: k in entries && entries[k].identity.Some? ==>
          entries[k].authKeyId in index && index[entries[k].authKeyId] == k)
    && (forall k :: k in entries && entries[k].claimed ==> entries[k].identity.Some?)
  }

  /** The tokens of a source are exactly its live entries, and no source without any is kept. */
  ghost predicate SourcesAgree(entries: map<string, Entry>, index: map<string, set<string>>) {
    && (forall src :: src in index ==> src != "" && index[src] != {})
    && (forall src, k :: src in index ==> (k in index[src] <==> k in entries && entries[k].source == Some(src)))
    && (forall k :: k in entries && Source(entries[k].source).Some? ==> entries[k].source.value in index)
  }

  ghost predicate Agree(s: State) {
    && OrderAgrees(s.entries, s.order)
    && TokensAgree(s.entries, s.tokenByAuthKey)
    && ApprovalsAgree(s.entries, s.approvedByAuthKey)
    && SourcesAgree(s.entries, s.tokensBySource)
  }

  ghost predicate WithinLimits(entries: map<string, Entry>, index: map<string, set<string>>, c: Config) {
    && |entries| <= c.maxEntries
    && forall src :: src in index ==> |index[src]| <= c.maxEntriesPerSource
  }

  ghost predicate Valid(s: State, c: Config) {
    Agree(s) && WithinLimits(s.entries, s.tokensBySource, c)
  }

  lemma {:induction false} WithoutDistinct(keys: seq<string>, key: string)
    requires Distinct(keys)
    ensures Distinct(Without(keys, key))
  {
    if keys != [] {
      WithoutDistinct(keys[1..], key);
      assert keys[0] !in keys[1..];
      assert forall k :: k in Without(keys[1..], key) ==> k in keys[1..];
    }
  }

  lemma DeleteSources(s: State, token: string)
    requires SourcesAgree(s.entries, s.tokensBySource)
    ensures var after := Delete(s, token); SourcesAgree(after.entries, after.tokensBySource)
  {
  }

  lemma SmallerSet<T>(a: set<T>, b: set<T>)
    requires a <= b
    ensures |a| <= |b|
  {
    assert b == a + (b - a);
  }

  lemma DeleteLimits(s: State, c: Config, token: string)
    requires WithinLimits(s.entries, s.tokensBySource, c)
    ensures var after := Delete(s, token); WithinLimits(after.entries, after.tokensBySource, c)
    ensures token in s.entries ==> |Delete(s, token).entries| == |s.entries| - 1
  {
    if token in s.entries {
      var after := Delete(s, token);
      assert after.entries.Keys == s.entries.Keys - {token};
      forall src | src in after.tokensBySource ensures |after.tokensBySource[src]| <= c.maxEntriesPerSource {
        SmallerSet(after.tokensBySource[src], s.tokensBySource[src]);
      }
    }
  }

  lemma DeleteTokens(s: State, token: string)
    requires TokensAgree(s.entries, s.tokenByAuthKey)
    ensures var after := Delete(s, token); TokensAgree(after.entries, after.tokenByAuthKey)
  {
  }

  lemma DeleteApprovals(s: State, token: string)
    requires ApprovalsAgree(s.entries, s.approvedByAuthKey)
    ensures var after := Delete(s, token); ApprovalsAgree(after.entries, after.approvedByAuthKey)
  {
  }

  lemma DeleteOrder(s: State, token: string)
    requires OrderAgrees(s.entries, s.order)
    ensures var after := Delete(s, token); OrderAgrees(after.entries, after.order)
  {
    WithoutDistinct(s.order, token);
  }

  lemma DeleteValid(s: State, c: Config, token: string)
    requires Valid(s, c)
    ensures Valid(Delete(s, token), c)
  {
    DeleteOrder(s, token);
    DeleteTokens(s, token);
    DeleteApprovals(s, token);
    DeleteSources(s, token);
    DeleteLimits(s, c, token);
    hide OrderAgrees, TokensAgree, ApprovalsAgree, SourcesAgree, WithinLimits;
  }

  lemma {:induction false} ExpiredValid(s: State, c: Config, keys: seq<string>, now: int)
    requires Valid(s, c)
    ensures Valid(Expired(s, keys, now), c)
    decreases |keys|
  {
    if keys != [] {
      hide Valid, Delete;
      DeleteValid(s, c, keys[0]);
      ExpiredValid(Looked(s, keys[0], now), c, keys[1..], now);
    }
  }

  lemma CleanedUpValid(s: State, c: Config, clock: Clock)
    requires Valid(s, c)
    ensures Valid(CleanedUp(s, c, clock), c)
  {
    hide OrderAgrees, TokensAgree, ApprovalsAgree, SourcesAgree, WithinLimits, Expired;
    ExpiredValid(s, c, s.order, clock.expire);
  }

  lemma LookingValid(s: State, c: Config, authKeyId: string, clock: Clock)
    requires Valid(s, c)
    ensures Valid(Looking(s, c, authKeyId, clock), c)
  {
    hide Valid, Delete, CleanedUp;
    var cleaned := CleanedUp(s, c, clock);
    CleanedUpValid(s, c, clock);
    var previous := Previous(cleaned, authKeyId);
    if previous.Some? {
      DeleteValid(cleaned, c, previous.value);
    }
  }

  lemma {:induction false} OldestIsKept(s: State, keys: seq<string>)
    ensures Oldest(s, keys).Some? ==> Oldest(s, keys).value in keys && Oldest(s, keys).value in s.entries
  {
    if keys != [] {
      OldestIsKept(s, keys[1..]);
    }
  }

  lemma RoomValid(s: State, c: Config, authKeyId: string, clock: Clock)
    requires Valid(s, c)
    ensures Valid(Room(s, c, authKeyId, clock), c)
  {
    hide Valid, Delete, CleanedUp, Looking, PreviousEntry;
    LookingValid(s, c, authKeyId, clock);
    var looking := Looking(s, c, authKeyId, clock);
    if Oldest(looking, looking.order).Some? {
      DeleteValid(looking, c, Oldest(looking, looking.order).value);
    }
  }

  lemma ClearedValid(s: State, c: Config, authKeyId: string, clock: Clock)
    requires Valid(s, c)
    ensures Valid(Cleared(s, c, authKeyId, clock), c)
  {
    hide Valid, Delete, CleanedUp, Room;
    RoomValid(s, c, authKeyId, clock);
    var previous := Previous(CleanedUp(s, c, clock), authKeyId);
    if previous.Some? {
      DeleteValid(Room(s, c, authKeyId, clock), c, previous.value);
    }
  }

  /** Deleting an entry empties its place in the index of auth keys. */
  lemma DeletedIsGone(s: State, authKeyId: string, token: string)
    requires TokensAgree(s.entries, s.tokenByAuthKey) && Previous(s, authKeyId) == Some(token)
    ensures authKeyId !in Delete(s, token).tokenByAuthKey && token !in Delete(s, token).entries
  {
  }

  /** Entries and indexes lose nothing but the deleted. */
  ghost predicate Shrunk(before: State, after: State) {
    && (forall k :: k in after.entries ==> k in before.entries && after.entries[k] == before.entries[k])
    && (forall a :: a in after.tokenByAuthKey ==> a in before.tokenByAuthKey && after.tokenByAuthKey[a] == before.tokenByAuthKey[a])
    && (forall src :: src in after.tokensBySource ==>
          src in before.tokensBySource && after.tokensBySource[src] <= before.tokensBySource[src])
  }

  lemma DeleteShrinks(s: State, token: string)
    ensures Shrunk(s, Delete(s, token))
  {
  }

  lemma ShrunkTwice(a: State, b: State, c: State)
    requires Shrunk(a, b) && Shrunk(b, c)
    ensures Shrunk(a, c)
  {
  }

  lemma {:induction false} ExpiredShrinks(s: State, keys: seq<string>, now: int)
    ensures Shrunk(s, Expired(s, keys, now))
    decreases |keys|
  {
    if keys != [] {
      hide Shrunk, Delete;
      var rest := Looked(s, keys[0], now);
      ExpiredShrinks(rest, keys[1..], now);
      DeleteShrinks(s, keys[0]);
      SameShrinks(s, 0);
      ShrunkTwice(s, rest, Expired(rest, keys[1..], now));
    } else {
      SameShrinks(s, 0);
    }
  }

  lemma SameShrinks(s: State, nextCleanupAt: int)
    ensures Shrunk(s, s) && Shrunk(s, s.(nextCleanupAt := nextCleanupAt))
  {
  }

  lemma CleanedUpShrinks(s: State, c: Config, clock: Clock)
    ensures Shrunk(s, CleanedUp(s, c, clock))
  {
    hide Shrunk, Expired;
    var expired, cleaned := Expired(s, s.order, clock.expire), CleanedUp(s, c, clock);
    ExpiredShrinks(s, s.order, clock.expire);
    SameShrinks(s, 0);
    SameShrinks(expired, cleaned.nextCleanupAt);
    ShrunkTwice(s, expired, expired.(nextCleanupAt := cleaned.nextCleanupAt));
  }

  lemma LookingShrinks(s: State, c: Config, authKeyId: string, clock: Clock)
    ensures Shrunk(s, Looking(s, c, authKeyId, clock))
  {
    hide Shrunk, Delete, CleanedUp;
    var cleaned := CleanedUp(s, c, clock);
    CleanedUpShrinks(s, c, clock);
    var previous := Previous(cleaned, authKeyId);
    if previous.Some? {
      DeleteShrinks(cleaned, previous.value);
      ShrunkTwice(s, cleaned, Delete(cleaned, previous.value));
    }
  }

  lemma RoomShrinks(s: State, c: Config, authKeyId: string, clock: Clock)
    ensures Shrunk(Looking(s, c, authKeyId, clock), Room(s, c, authKeyId, clock))
  {
    hide Shrunk, Delete, Looking, PreviousEntry, CleanedUp;
    var looking := Looking(s, c, authKeyId, clock);
    SameShrinks(looking, 0);
    if Oldest(looking, looking.order).Some? {
      DeleteShrinks(looking, Oldest(looking, looking.order).value);
    }
  }

  lemma ClearedShrinks(s: State, c: Config, authKeyId: string, clock: Clock)
    ensures Shrunk(Looking(s, c, authKeyId, clock), Cleared(s, c, authKeyId, clock))
  {
    hide Shrunk, Delete, Looking, PreviousEntry, CleanedUp;
    var looking, room := Looking(s, c, authKeyId, clock), Room(s, c, authKeyId, clock);
    RoomShrinks(s, c, authKeyId, clock);
    var previous := Previous(CleanedUp(s, c, clock), authKeyId);
    if previous.Some? {
      DeleteShrinks(room, previous.value);
      ShrunkTwice(looking, room, Delete(room, previous.value));
    }
  }

  /** A live previous entry is neither expired nor makes room necessary. */
  lemma ReplacesLive(s: State, c: Config, authKeyId: string, clock: Clock)
    requires PreviousEntry(CleanedUp(s, c, clock), authKeyId, clock).Some?
    ensures var previous := Previous(CleanedUp(s, c, clock), authKeyId);
            && previous.Some? && previous.value in CleanedUp(s, c, clock).entries
            && Looking(s, c, authKeyId, clock) == CleanedUp(s, c, clock)
            && Cleared(s, c, authKeyId, clock) == Delete(CleanedUp(s, c, clock), previous.value)
  {
    hide CleanedUp, Delete, Oldest;
  }

  lemma ClearedHasRoom(s: State, c: Config, authKeyId: string, token: string, source: Option<string>, clock: Clock)
    requires Valid(s, c) && Decision(s, c, authKeyId, token, source, clock).Issued?
    ensures |Cleared(s, c, authKeyId, clock).entries| < c.maxEntries
  {
    hide CleanedUp, Delete, Agree;
    var looking, room, cleared := Looking(s, c, authKeyId, clock), Room(s, c, authKeyId, clock), Cleared(s, c, authKeyId, clock);
    if PreviousEntry(CleanedUp(s, c, clock), authKeyId, clock).Some? {
      ReplacesLive(s, c, authKeyId, clock);
      CleanedUpValid(s, c, clock);
      DeleteLimits(CleanedUp(s, c, clock), c, Previous(CleanedUp(s, c, clock), authKeyId).value);
    } else {
      LookingValid(s, c, authKeyId, clock);
      RoomValid(s, c, authKeyId, clock);
      OldestIsKept(looking, looking.order);
      if Oldest(looking, looking.order).Some? {
        DeleteLimits(looking, c, Oldest(looking, looking.order).value);
      }
      var previous := Previous(CleanedUp(s, c, clock), authKeyId);
      if previous.Some? {
        FewerEntries(room, previous.value);
      }
    }
  }

  lemma FewerEntries(s: State, token: string)
    ensures |Delete(s, token).entries| <= |s.entries|
  {
    SmallerSet(Delete(s, token).entries.Keys, s.entries.Keys);
  }

  lemma ClearedHasSourceRoom(s: State, c: Config, authKeyId: string, token: string, source: Option<string>, clock: Clock)
    requires Valid(s, c) && Decision(s, c, authKeyId, token, source, clock).Issued? && Source(source).Some?
    ensures SourceSize(Cleared(s, c, authKeyId, clock), source.value) < c.maxEntriesPerSource
  {
    hide CleanedUp, Oldest;
    var looking, cleared := Looking(s, c, authKeyId, clock), Cleared(s, c, authKeyId, clock);
    if SourceSize(looking, source.value) < c.maxEntriesPerSource {
      ClearedShrinks(s, c, authKeyId, clock);
      hide Delete, Looking, Cleared;
      if source.value in cleared.tokensBySource {
        SmallerSet(cleared.tokensBySource[source.value], looking.tokensBySource[source.value]);
      }
    } else {
      ReplacesLive(s, c, authKeyId, clock);
      CleanedUpValid(s, c, clock);
      hide Looking, Cleared;
      LeavesSource(CleanedUp(s, c, clock), c, Previous(CleanedUp(s, c, clock), authKeyId).value);
    }
  }

  lemma LeavesSource(s: State, c: Config, token: string)
    requires Valid(s, c) && token in s.entries && Source(s.entries[token].source).Some?
    ensures SourceSize(Delete(s, token), s.entries[token].source.value) < c.maxEntriesPerSource
  {
    hide OrderAgrees, TokensAgree, ApprovalsAgree, Unindexed, Without;
    var src := s.entries[token].source.value;
    assert token in s.tokensBySource[src];
    assert |s.tokensBySource[src] - {token}| == |s.tokensBySource[src]| - 1;
  }

  /** What is left of the auth key and of the token can only be an entry with the empty token. */
  lemma ClearedIsFree(s: State, c: Config, authKeyId: string, token: string, source: Option<string>, clock: Clock)
    requires Valid(s, c) && Decision(s, c, authKeyId, token, source, clock).Issued?
    ensures var cleared := Cleared(s, c, authKeyId, clock);
            && (authKeyId in cleared.tokenByAuthKey ==> cleared.tokenByAuthKey[authKeyId] == "")
            && (token in cleared.entries ==>
                  token == "" && authKeyId in cleared.tokenByAuthKey && cleared.tokenByAuthKey[authKeyId] == "")
  {
    hide CleanedUp, Delete, Oldest, Room, Valid, TokensAgree;
    var looking, room, cleared := Looking(s, c, authKeyId, clock), Room(s, c, authKeyId, clock), Cleared(s, c, authKeyId, clock);
    var cleaned := CleanedUp(s, c, clock);
    var previous := Previous(cleaned, authKeyId);
    LookingShrinksCleaned(s, c, authKeyId, clock);
    RoomShrinks(s, c, authKeyId, clock);
    ClearedShrinks(s, c, authKeyId, clock);
    RoomValid(s, c, authKeyId, clock);
    ClearedValid(s, c, authKeyId, clock);
    ValidTokens(room, c);
    ValidTokens(cleared, c);
    if previous.Some? && previous.value != "" {
      if Previous(room, authKeyId) == previous {
        DeletedIsGone(room, authKeyId, previous.value);
      }
      NotThere(room, previous.value);
    }
    if token in cleared.entries {
      CleanedUpValid(s, c, clock);
      ValidTokens(cleaned, c);
      IndexIsEntry(cleaned, authKeyId, token);
      EntryIsIndexed(cleared, token);
    }
  }

  lemma LookingShrinksCleaned(s: State, c: Config, authKeyId: string, clock: Clock)
    ensures Shrunk(CleanedUp(s, c, clock), Looking(s, c, authKeyId, clock))
  {
    hide Shrunk, Delete, CleanedUp;
    var cleaned := CleanedUp(s, c, clock);
    SameShrinks(cleaned, 0);
    if Previous(cleaned, authKeyId).Some? {
      DeleteShrinks(cleaned, Previous(cleaned, authKeyId).value);
    }
  }

  lemma ValidTokens(s: State, c: Config)
    requires Valid(s, c)
    ensures TokensAgree(s.entries, s.tokenByAuthKey)
  {
  }

  lemma NotThere(s: State, token: string)
    ensures token !in Delete(s, token).entries
  {
  }

  lemma EntryIsIndexed(s: State, token: string)
    requires TokensAgree(s.entries, s.tokenByAuthKey) && token in s.entries
    ensures Previous(s, s.entries[token].authKeyId) == Some(token)
  {
  }

  lemma IndexIsEntry(s: State, authKeyId: string, token: string)
    requires TokensAgree(s.entries, s.tokenByAuthKey) && Previous(s, authKeyId) == Some(token)
    ensures token in s.entries && s.entries[token].authKeyId == authKeyId
  {
  }

  /** What adding an entry needs from an entry with the same key, for the indexes to agree afterwards. */
  predicate Replaceable(s: State, authKeyId: string, token: string, source: Option<string>) {
    && (authKeyId in s.tokenByAuthKey ==> s.tokenByAuthKey[authKeyId] == token)
    && (token in s.entries ==>
          && s.entries[token].identity.None?
          && (Source(s.entries[token].source).None? || Source(s.entries[token].source) == Source(source)))
  }

  lemma AddedOrder(s: State, c: Config, authKeyId: string, token: string, source: Option<string>, clock: Clock)
    requires OrderAgrees(s.entries, s.order)
    ensures var after := Added(s, c, authKeyId, token, source, clock); OrderAgrees(after.entries, after.order)
  {
  }

  lemma AddedTokens(s: State, c: Config, authKeyId: string, token: string, source: Option<string>, clock: Clock)
    requires TokensAgree(s.entries, s.tokenByAuthKey)
    requires token in s.entries ==> s.entries[token].authKeyId == authKeyId
    ensures var after := Added(s, c, authKeyId, token, source, clock);
            TokensAgree(after.entries, after.tokenByAuthKey) <==>
              (authKeyId in s.tokenByAuthKey ==> s.tokenByAuthKey[authKeyId] == token)
  {
    var after := Added(s, c, authKeyId, token, source, clock);
    if authKeyId in s.tokenByAuthKey && s.tokenByAuthKey[authKeyId] != token {
      assert s.tokenByAuthKey[authKeyId] in after.entries;
    }
  }

  lemma AddedApprovals(s: State, c: Config, authKeyId: string, token: string, source: Option<string>, clock: Clock)
    requires ApprovalsAgree(s.entries, s.approvedByAuthKey)
    requires token in s.entries ==> s.entries[token].authKeyId == authKeyId
    ensures var after := Added(s, c, authKeyId, token, source, clock);
            ApprovalsAgree(after.entries, after.approvedByAuthKey) <==>
              (token in s.entries ==> s.entries[token].identity.None?)
  {
    var after := Added(s, c, authKeyId, token, source, clock);
    if token in s.entries && s.entries[token].identity.Some? {
      assert after.approvedByAuthKey[authKeyId] == token;
    }
  }

  lemma AddedSources(s: State, c: Config, authKeyId: string, token: string, source: Option<string>, clock: Clock)
    requires SourcesAgree(s.entries, s.tokensBySource)
    ensures var after := Added(s, c, authKeyId, token, source, clock);
            SourcesAgree(after.entries, after.tokensBySource) <==>
              (token in s.entries ==> Source(s.entries[token].source).None? || Source(s.entries[token].source) == Source(source))
  {
    var after := Added(s, c, authKeyId, token, source, clock);
    if token in s.entries && Source(s.entries[token].source).Some? && Source(s.entries[token].source) != Source(source) {
      var src := s.entries[token].source.value;
      assert src in after.tokensBySource && token in after.tokensBySource[src] && after.entries[token].source != Some(src);
    }
  }

  lemma AddedLimits(s: State, c: Config, authKeyId: string, token: string, source: Option<string>, clock: Clock)
    requires WithinLimits(s.entries, s.tokensBySource, c) && |s.entries| < c.maxEntries
    requires Source(source).Some? ==> SourceSize(s, source.value) < c.maxEntriesPerSource
    ensures var after := Added(s, c, authKeyId, token, source, clock); WithinLimits(after.entries, after.tokensBySource, c)
  {
    var after := Added(s, c, authKeyId, token, source, clock);
    assert after.entries.Keys == s.entries.Keys + {token};
  }

  /**
    An issue keeps the limits always, and the indexes exactly when what is left of the auth key after
    clearing can be replaced. Throwing issues keep everything.
   */
  lemma IssueKeepsAgreement(s: State, c: Config, authKeyId: string, token: string, source: Option<string>, clock: Clock)
    requires Valid(s, c)
    ensures var after := Issue(s, c, authKeyId, token, source, clock);
            && WithinLimits(after.entries, after.tokensBySource, c)
            && (Agree(after) <==>
                  (Decision(s, c, authKeyId, token, source, clock).Issued? ==>
                     Replaceable(Cleared(s, c, authKeyId, clock), authKeyId, token, source)))
  {
    hide Decision, Cleared, Looking, Added, OrderAgrees, TokensAgree, ApprovalsAgree, SourcesAgree, WithinLimits;
    LookingValid(s, c, authKeyId, clock);
    if Decision(s, c, authKeyId, token, source, clock).Issued? {
      var cleared := Cleared(s, c, authKeyId, clock);
      ClearedValid(s, c, authKeyId, clock);
      ClearedHasRoom(s, c, authKeyId, token, source, clock);
      if Source(source).Some? {
        ClearedHasSourceRoom(s, c, authKeyId, token, source, clock);
      }
      ClearedIsFree(s, c, authKeyId, token, source, clock);
      if token in cleared.entries {
        IndexIsEntry(cleared, authKeyId, token);
      }
      AddedOrder(cleared, c, authKeyId, token, source, clock);
      AddedTokens(cleared, c, authKeyId, token, source, clock);
      AddedApprovals(cleared, c, authKeyId, token, source, clock);
      AddedSources(cleared, c, authKeyId, token, source, clock);
      AddedLimits(cleared, c, authKeyId, token, source, clock);
    }
  }

  /** Without an entry for the empty token, an issue always keeps the indexes. */
  lemma IssueNeedsNoEmptyToken(s: State, c: Config, authKeyId: string, token: string, source: Option<string>, clock: Clock)
    requires Valid(s, c) && "" !in s.entries
    ensures Valid(Issue(s, c, authKeyId, token, source, clock), c)
  {
    IssueKeepsAgreement(s, c, authKeyId, token, source, clock);
    hide Decision, Cleared, Looking, Added, Agree, WithinLimits, TokensAgree;
    if Decision(s, c, authKeyId, token, source, clock).Issued? {
      ClearedIsFree(s, c, authKeyId, token, source, clock);
      ClearedValid(s, c, authKeyId, clock);
      var cleared := Cleared(s, c, authKeyId, clock);
      ValidTokens(cleared, c);
      LookingShrinks(s, c, authKeyId, clock);
      ClearedShrinks(s, c, authKeyId, clock);
      if authKeyId in cleared.tokenByAuthKey {
        IndexIsEntry(cleared, authKeyId, "");
        assert false;
      }
    }
  }

  lemma UpdateTokens(entries: map<string, Entry>, index: map<string, string>, token: string, e: Entry)
    requires TokensAgree(entries, index) && token in entries && e.authKeyId == entries[token].authKeyId
    ensures TokensAgree(entries[token := e], index)
  {
  }

  lemma UpdateSources(entries: map<string, Entry>, index: map<string, set<string>>, token: string, e: Entry)
    requires SourcesAgree(entries, index) && token in entries && e.source == entries[token].source
    ensures SourcesAgree(entries[token := e], index)
  {
  }

  /** An entry that keeps its auth key and source can change otherwise without touching those indexes. */
  lemma UpdateEntry(s: State, c: Config, token: string, e: Entry)
    requires Valid(s, c) && token in s.entries
    requires e.authKeyId == s.entries[token].authKeyId && e.source == s.entries[token].source
    ensures var entries := s.entries[token := e];
            && OrderAgrees(entries, s.order) && TokensAgree(entries, s.tokenByAuthKey)
            && SourcesAgree(entries, s.tokensBySource) && WithinLimits(entries, s.tokensBySource, c)
  {
    assert s.entries[token := e].Keys == s.entries.Keys;
    UpdateTokens(s.entries, s.tokenByAuthKey, token, e);
    UpdateSources(s.entries, s.tokensBySource, token, e);
    hide TokensAgree, SourcesAgree, ApprovalsAgree;
  }

  lemma ApproveApprovals(s: State, token: string, identity: Identity)
    requires TokensAgree(s.entries, s.tokenByAuthKey) && ApprovalsAgree(s.entries, s.approvedByAuthKey) && token in s.entries
    ensures ApprovalsAgree(
              s.entries[token := s.entries[token].(identity := Some(identity))],
              s.approvedByAuthKey[s.entries[token].authKeyId := token])
  {
    var a := s.entries[token].authKeyId;
    assert forall k :: k in s.entries && s.entries[k].authKeyId == a ==> k == token;
    hide TokensAgree;
  }

  lemma ApproveKeepsAgreement(s: State, c: Config, token: string, identity: Identity, now: int)
    requires Valid(s, c)
    ensures Valid(Approve(s, token, identity, now), c)
  {
    hide OrderAgrees, TokensAgree, ApprovalsAgree, SourcesAgree, WithinLimits, Delete;
    if Approves(s, token, now) {
      UpdateEntry(s, c, token, s.entries[token].(identity := Some(identity)));
      ApproveApprovals(s, token, identity);
    } else {
      DeleteValid(s, c, token);
    }
  }

  lemma ClaimedApprovals(entries: map<string, Entry>, index: map<string, string>, token: string, claimed: bool)
    requires ApprovalsAgree(entries, index) && token in entries && (claimed ==> entries[token].identity.Some?)
    ensures ApprovalsAgree(entries[token := entries[token].(claimed := claimed)], index)
  {
  }

  lemma ClaimedFlagAgrees(s: State, c: Config, token: string, claimed: bool)
    requires Valid(s, c) && token in s.entries && (claimed ==> s.entries[token].identity.Some?)
    ensures Valid(s.(entries := s.entries[token := s.entries[token].(claimed := claimed)]), c)
  {
    hide OrderAgrees, TokensAgree, ApprovalsAgree, SourcesAgree, WithinLimits;
    UpdateEntry(s, c, token, s.entries[token].(claimed := claimed));
    ClaimedApprovals(s.entries, s.approvedByAuthKey, token, claimed);
  }

  lemma ClaimKeepsAgreement(s: State, c: Config, token: string, authKeyId: string, now: int)
    requires Valid(s, c)
    ensures Valid(Claimed(s, token, authKeyId, now), c)
  {
    hide Valid;
    if ClaimOf(s, token, authKeyId, now).Some? {
      ClaimedFlagAgrees(s, c, token, true);
    } else {
      DeleteValid(s, c, token);
    }
  }

  // --------------------------------------------------------------------- runs

  ghost predicate Run(states: seq<State>, events: seq<Event>, c: Config) {
    && |states| == |events| + 1 && states[0] == EMPTY
    && forall i :: 0 <= i < |events| ==> states[i + 1] == Next(states[i], c, events[i])
  }

  predicate IssuesEmptyToken(event: Event) {
    event.Issuing? && event.token == ""
  }

  predicate IsIssue(s: State, c: Config, event: Event, token: string) {
    event.Issuing? && event.token == token &&
    Decision(s, c, event.authKeyId, token, event.source, event.clock).Issued?
  }

  /** The claim an event makes, if it succeeds. */
  function ClaimIn(s: State, event: Event): Option<Claim> {
    match event
    case Claiming(token, authKeyId, now) => ClaimOf(s, token, authKeyId, now)
    case ClaimingApproved(authKeyId, now) =>
      var token := ApprovedToken(s, authKeyId);
      if token.Some? then ClaimOf(s, token.value, authKeyId, now) else None
    case Issuing(_, _, _, _) => None
    case Approving(_, _, _) => None
    case Reading(_, _) => None
    case Committing(_) => None
    case RollingBack(_) => None
  }

  predicate IsApproval(s: State, event: Event, token: string) {
    event.Approving? && event.token == token && Approves(s, token, event.now)
  }

  predicate IsRollback(s: State, event: Event, token: string) {
    event.RollingBack? && event.claim.token == token && Concerns(s, event.claim)
  }

  predicate IsCommit(s: State, event: Event, token: string) {
    event.Committing? && event.claim.token == token && Concerns(s, event.claim)
  }

  predicate Claims(s: State, event: Event, token: string) {
    ClaimIn(s, event).Some? && ClaimIn(s, event).value.token == token
  }

  /** How one event can change an entry. */
  lemma EntryStep(s: State, c: Config, event: Event, k: string)
    requires k in Next(s, c, event).entries
    ensures var e := Next(s, c, event).entries[k];
            if IsIssue(s, c, event, k) then e.authKeyId == event.authKeyId && e.identity.None? && !e.claimed
            else
              && k in s.entries && e.authKeyId == s.entries[k].authKeyId
              && e.identity == (if IsApproval(s, event, k) then Some(event.identity) else s.entries[k].identity)
              && e.claimed == (!IsRollback(s, event, k) && (s.entries[k].claimed || Claims(s, event, k)))
  {
    hide Delete, Looked, Approve, Claimed, Rollback, ClaimOf, Approves, Concerns, Decision, Issue;
    match event {
      case Issuing(a, token, source, now) => IssueStep(s, c, event, k);
      case Approving(token, identity, now) => ApproveStep(s, token, identity, now, k);
      case Reading(token, now) => LookedStep(s, token, now, k);
      case Claiming(token, a, now) => ClaimStep(s, token, a, now, k);
      case ClaimingApproved(a, now) =>
        if ApprovedToken(s, a).Some? {
          ClaimStep(s, ApprovedToken(s, a).value, a, now, k);
        }
      case Committing(claim) => StillThere(s, claim.token, k);
      case RollingBack(claim) => RollbackStep(s, claim, k);
    }
  }

  lemma StillThere(s: State, token: string, k: string)
    ensures k in Delete(s, token).entries ==> k in s.entries && Delete(s, token).entries[k] == s.entries[k]
  {
  }

  lemma LookedStep(s: State, token: string, now: int, k: string)
    requires k in Looked(s, token, now).entries
    ensures k in s.entries && Looked(s, token, now).entries[k] == s.entries[k]
  {
    hide Delete;
    StillThere(s, token, k);
  }

  lemma ApproveStep(s: State, token: string, identity: Identity, now: int, k: string)
    requires k in Approve(s, token, identity, now).entries
    ensures k in s.entries
    ensures Approve(s, token, identity, now).entries[k] ==
            if Approves(s, token, now) && k == token then s.entries[k].(identity := Some(identity)) else s.entries[k]
  {
    hide Looked;
    if !Approves(s, token, now) {
      LookedStep(s, token, now, k);
    }
  }

  lemma ClaimStep(s: State, token: string, authKeyId: string, now: int, k: string)
    requires k in Claimed(s, token, authKeyId, now).entries
    ensures k in s.entries
    ensures ClaimOf(s, token, authKeyId, now).Some? ==> ClaimOf(s, token, authKeyId, now).value.token == token
    ensures Claimed(s, token, authKeyId, now).entries[k] ==
            if ClaimOf(s, token, authKeyId, now).Some? && k == token then s.entries[k].(claimed := true) else s.entries[k]
  {
    hide Looked;
    if ClaimOf(s, token, authKeyId, now).None? {
      LookedStep(s, token, now, k);
    }
  }

  lemma RollbackStep(s: State, claim: Claim, k: string)
    requires k in Rollback(s, claim).entries
    ensures k in s.entries
    ensures Rollback(s, claim).entries[k] ==
            if Concerns(s, claim) && k == claim.token then s.entries[k].(claimed := false) else s.entries[k]
  {
  }

  lemma IssueStep(s: State, c: Config, event: Event, k: string)
    requires event.Issuing? && k in Next(s, c, event).entries
    ensures var e := Next(s, c, event).entries[k];
            if IsIssue(s, c, event, k) then e.authKeyId == event.authKeyId && e.identity.None? && !e.claimed
            else k in s.entries && e == s.entries[k]
  {
    hide Decision, Looking, Cleared;
    LookingShrinks(s, c, event.authKeyId, event.clock);
    ClearedShrinks(s, c, event.authKeyId, event.clock);
  }

  lemma RollbackKeepsAgreement(s: State, c: Config, claim: Claim)
    requires Valid(s, c)
    ensures Valid(Rollback(s, claim), c)
  {
    hide Valid;
    if Concerns(s, claim) {
      ClaimedFlagAgrees(s, c, claim.token, false);
    }
  }

  lemma NextKeepsAgreement(s: State, c: Config, event: Event)
    requires Valid(s, c) && "" !in s.entries && !IssuesEmptyToken(event)
    ensures Valid(Next(s, c, event), c)
  {
    hide Valid, Delete, Issue, Approve, Claimed, Rollback;
    match event {
      case Issuing(a, token, source, now) => IssueNeedsNoEmptyToken(s, c, a, token, source, now);
      case Approving(token, identity, now) => ApproveKeepsAgreement(s, c, token, identity, now);
      case Reading(token, now) => DeleteValid(s, c, token);
      case Claiming(token, a, now) => ClaimKeepsAgreement(s, c, token, a, now);
      case ClaimingApproved(a, now) =>
        if ApprovedToken(s, a).Some? {
          ClaimKeepsAgreement(s, c, ApprovedToken(s, a).value, a, now);
        }
      case Committing(claim) => DeleteValid(s, c, claim.token);
      case RollingBack(claim) => RollbackKeepsAgreement(s, c, claim);
    }
  }

  /** After any run without empty tokens, throwing issues included, the indexes agree and the limits hold. */
  lemma {:induction false} RunAgrees(states: seq<State>, events: seq<Event>, c: Config, i: nat)
    requires Run(states, events, c) && i < |states|
    requires forall j :: 0 <= j < i ==> !IssuesEmptyToken(events[j])
    ensures Valid(states[i], c) && "" !in states[i].entries
  {
    hide Next;
    if i > 0 {
      hide Valid;
      RunAgrees(states, events, c, i - 1);
      NextKeepsAgreement(states[i - 1], c, events[i - 1]);
      if "" in states[i].entries {
        EntryStep(states[i - 1], c, events[i - 1], "");
        assert false;
      }
    }
  }

  // --------------------------------------------------------------- single use

  /** No token is issued twice: tokens are fresh random bytes. */
  ghost predicate NeverRepeated(states: seq<State>, events: seq<Event>, c: Config)
    requires |states| == |events| + 1
  {
    forall i, j, k :: 0 <= i < j < |events| && IsIssue(states[i], c, events[i], k) ==> !IsIssue(states[j], c, events[j], k)
  }

  /** An entry was issued earlier, by its auth key. */
  lemma {:induction false} IssuedBefore(states: seq<State>, events: seq<Event>, c: Config, j: nat, k: string) returns (i: nat)
    requires Run(states, events, c) && j < |states| && k in states[j].entries
    ensures i < j && IsIssue(states[i], c, events[i], k) && events[i].authKeyId == states[j].entries[k].authKeyId
  {
    hide Next, IsIssue;
    assert j > 0;
    EntryStep(states[j - 1], c, events[j - 1], k);
    if IsIssue(states[j - 1], c, events[j - 1], k) {
      i := j - 1;
    } else {
      i := IssuedBefore(states, events, c, j - 1, k);
    }
  }

  /** An identity was approved after the issue of the token. */
  lemma {:induction false} ApprovedBefore(states: seq<State>, events: seq<Event>, c: Config, j: nat, k: string)
    returns (i: nat, m: nat)
    requires Run(states, events, c) && j < |states| && k in states[j].entries && states[j].entries[k].identity.Some?
    ensures i < m < j && IsIssue(states[i], c, events[i], k) && events[i].authKeyId == states[j].entries[k].authKeyId
    ensures IsApproval(states[m], events[m], k) && Some(events[m].identity) == states[j].entries[k].identity
  {
    hide Next, IsIssue, IsApproval;
    assert j > 0;
    EntryStep(states[j - 1], c, events[j - 1], k);
    if IsApproval(states[j - 1], events[j - 1], k) {
      m := j - 1;
      i := IssuedBefore(states, events, c, j - 1, k);
    } else {
      i, m := ApprovedBefore(states, events, c, j - 1, k);
    }
  }

  /** A token that was issued and is gone never comes back. */
  lemma {:induction false} StaysGone(states: seq<State>, events: seq<Event>, c: Config, issue: nat, i: nat, j: nat, k: string)
    requires Run(states, events, c) && NeverRepeated(states, events, c) && issue < i <= j < |states|
    requires IsIssue(states[issue], c, events[issue], k) && k !in states[i].entries
    ensures k !in states[j].entries
  {
    hide Next, IsIssue;
    if i < j {
      StaysGone(states, events, c, issue, i, j - 1, k);
      if k in states[j].entries {
        EntryStep(states[j - 1], c, events[j - 1], k);
        assert false;
      }
    }
  }

  /** Once there is an identity, it stays for as long as the entry does. */
  lemma {:induction false} StaysApproved(states: seq<State>, events: seq<Event>, c: Config, i: nat, j: nat, k: string)
    requires Run(states, events, c) && NeverRepeated(states, events, c) && i <= j < |states|
    requires k in states[i].entries && states[i].entries[k].identity.Some?
    ensures k in states[j].entries ==> states[j].entries[k].identity == states[i].entries[k].identity
    ensures k in states[j].entries ==> states[j].entries[k].authKeyId == states[i].entries[k].authKeyId
  {
    hide Next, IsIssue, ClaimIn, Concerns;
    if i < j {
      StaysApproved(states, events, c, i, j - 1, k);
      if k in states[j].entries {
        EntryStep(states[j - 1], c, events[j - 1], k);
        var issue := IssuedBefore(states, events, c, i, k);
      }
    }
  }

  /** A claimed entry stays claimed until a rollback of its token. */
  lemma {:induction false} StaysClaimed(states: seq<State>, events: seq<Event>, c: Config, i: nat, j: nat, k: string)
    requires Run(states, events, c) && NeverRepeated(states, events, c) && i <= j < |states|
    requires k in states[i].entries && states[i].entries[k].claimed
    requires forall m :: i <= m < j ==> !IsRollback(states[m], events[m], k)
    ensures k in states[j].entries ==> states[j].entries[k].claimed
  {
    hide Next, IsIssue, IsApproval, IsRollback, ClaimIn;
    if i < j {
      StaysClaimed(states, events, c, i, j - 1, k);
      if k in states[j].entries {
        EntryStep(states[j - 1], c, events[j - 1], k);
        var issue := IssuedBefore(states, events, c, i, k);
      }
    }
  }

  lemma ClaimTakesEffect(s: State, c: Config, event: Event, claim: Claim)
    requires ClaimIn(s, event) == Some(claim)
    ensures claim.token in s.entries && claim.token in Next(s, c, event).entries
    ensures var e := s.entries[claim.token];
            e.authKeyId == claim.authKeyId && e.identity == Some(claim.identity) && !e.claimed
    ensures Next(s, c, event).entries[claim.token] == s.entries[claim.token].(claimed := true)
  {
  }

  lemma CommitTakesEffect(s: State, c: Config, event: Event, k: string)
    requires IsCommit(s, event, k)
    ensures k in s.entries && k !in Next(s, c, event).entries
  {
  }

  /** A claim succeeds only for the auth key that issued the token, with an identity approved since. */
  lemma ClaimIsEntitled(states: seq<State>, events: seq<Event>, c: Config, j: nat, claim: Claim) returns (i: nat, m: nat)
    requires Run(states, events, c) && j < |events| && ClaimIn(states[j], events[j]) == Some(claim)
    ensures i < m < j && IsIssue(states[i], c, events[i], claim.token) && events[i].authKeyId == claim.authKeyId
    ensures IsApproval(states[m], events[m], claim.token) && events[m].identity == claim.identity
  {
    hide Next, IsIssue, IsApproval;
    ClaimTakesEffect(states[j], c, events[j], claim);
    i, m := ApprovedBefore(states, events, c, j, claim.token);
  }

  /** A token is approved at most once, so that approval is the first. */
  lemma ApprovedOnce(states: seq<State>, events: seq<Event>, c: Config, i: nat, j: nat, k: string)
    requires Run(states, events, c) && NeverRepeated(states, events, c) && i < j < |events|
    requires IsApproval(states[i], events[i], k)
    ensures !IsApproval(states[j], events[j], k)
  {
    assert k in states[i + 1].entries && states[i + 1].entries[k].identity.Some?;
    hide Next;
    StaysApproved(states, events, c, i + 1, j, k);
  }

  /** Between two successful claims of a token there is a rollback; both are for the same auth key and identity. */
  lemma NoSecondClaim(states: seq<State>, events: seq<Event>, c: Config, i: nat, j: nat, first: Claim, second: Claim)
    returns (m: nat)
    requires Run(states, events, c) && NeverRepeated(states, events, c) && i < j < |events|
    requires ClaimIn(states[i], events[i]) == Some(first) && ClaimIn(states[j], events[j]) == Some(second)
    requires first.token == second.token
    ensures i < m < j && IsRollback(states[m], events[m], first.token)
    ensures first == second
  {
    hide Next, IsRollback;
    var k := first.token;
    ClaimTakesEffect(states[i], c, events[i], first);
    ClaimTakesEffect(states[j], c, events[j], second);
    StaysApproved(states, events, c, i, j, k);
    if forall n :: i + 1 <= n < j ==> !IsRollback(states[n], events[n], k) {
      StaysClaimed(states, events, c, i + 1, j, k);
      assert false;
    }
    m :| i + 1 <= m < j && IsRollback(states[m], events[m], k);
  }

  /** After a commit no claim of the token succeeds any more. */
  lemma NoClaimAfterCommit(states: seq<State>, events: seq<Event>, c: Config, i: nat, j: nat, k: string)
    requires Run(states, events, c) && NeverRepeated(states, events, c) && i < j < |events|
    requires IsCommit(states[i], events[i], k)
    ensures !Claims(states[j], events[j], k)
  {
    CommitTakesEffect(states[i], c, events[i], k);
    hide Next;
    var issue := IssuedBefore(states, events, c, i, k);
    StaysGone(states, events, c, issue, i + 1, j, k);
    if Claims(states[j], events[j], k) {
      ClaimTakesEffect(states[j], c, events[j], ClaimIn(states[j], events[j]).value);
      assert false;
    }
  }

  /** A store whose only entry has the empty token. */
  function OnlyEmptyToken(c: Config, authKeyId: string, clock: Clock): State {
    State(
      map["" := Entry(authKeyId, (clock.issue + c.ttl) / 1_000 * 1_000, None, false, None)], [""], map[authKeyId := ""],
      map[], map[], clock.schedule + if c.ttl <= 10_000 then c.ttl else 10_000)
  }

  lemma EmptyTokenIsIssued(c: Config, authKeyId: string, clock: Clock)
    requires c.maxEntries >= 2 && clock.check >= 0
    ensures Issue(EMPTY, c, authKeyId, "", None, clock) == OnlyEmptyToken(c, authKeyId, clock)
  {
  }

  /** The next issue finds no previous entry and deletes nothing. */
  lemma EmptyTokenStays(c: Config, authKeyId: string, token: string, clock: Clock, later: Clock)
    requires c.ttl > 0 && c.maxEntries >= 2 && token != ""
    requires later.check < clock.schedule + if c.ttl <= 10_000 then c.ttl else 10_000
    ensures var first := OnlyEmptyToken(c, authKeyId, clock);
            Cleared(first, c, authKeyId, later) == first && Decision(first, c, authKeyId, token, None, later).Issued?
  {
    var first := OnlyEmptyToken(c, authKeyId, clock);
    assert CleanedUp(first, c, later) == first;
    hide CleanedUp;
    assert Looking(first, c, authKeyId, later) == first;
    hide Looking, Oldest;
    assert Room(first, c, authKeyId, later) == first;
  }

  /** After an auth key was issued the empty token, its next issue before the cleanup leaves an entry that no index leads to. */
  lemma EmptyTokenBreaksAgreement(c: Config, authKeyId: string, token: string, clock: Clock, later: Clock)
    requires c.ttl > 0 && c.maxEntries >= 2 && token != "" && clock.check >= 0
    requires later.check < clock.schedule + if c.ttl <= 10_000 then c.ttl else 10_000
    ensures var first := Issue(EMPTY, c, authKeyId, "", None, clock);
            Valid(first, c) && !Agree(Issue(first, c, authKeyId, token, None, later))
  {
    var first := OnlyEmptyToken(c, authKeyId, clock);
    EmptyTokenIsIssued(c, authKeyId, clock);
    assert Valid(EMPTY, c);
    IssueNeedsNoEmptyToken(EMPTY, c, authKeyId, "", None, clock);
    EmptyTokenStays(c, authKeyId, token, clock, later);
    hide Agree, WithinLimits, Issue, Cleared, Decision;
    IssueKeepsAgreement(first, c, authKeyId, token, None, later);
  }

  /** While the indexes agree, an auth key can claim exactly when it has a live, approved, unclaimed, non-empty token. */
  lemma ClaimByAuthKey(s: State, authKeyId: string, now: int)
    requires Agree(s)
    ensures ClaimIn(s, ClaimingApproved(authKeyId, now)).Some? <==>
              exists k :: k in s.entries && k != "" && s.entries[k].authKeyId == authKeyId &&
                s.entries[k].expiresAt > now && s.entries[k].identity.Some? && !s.entries[k].claimed
  {
    hide OrderAgrees, SourcesAgree;
    if k :| k in s.entries && s.entries[k].authKeyId == authKeyId && s.entries[k].identity.Some? {
      assert s.approvedByAuthKey[authKeyId] == k;
    }
  }

  /** Deletion of other tokens leaves an entry alone. */
  lemma {:induction false} ExpiredSpares(s: State, keys: seq<string>, now: int, k: string)
    requires k in s.entries && s.entries[k].expiresAt > now
    ensures var after := Expired(s, keys, now); k in after.entries && after.entries[k] == s.entries[k]
    decreases |keys|
  {
    if keys != [] {
      ExpiredSpares(Looked(s, keys[0], now), keys[1..], now, k);
    }
  }

  lemma {:induction false} OldestIsUnapproved(s: State, keys: seq<string>)
    ensures var oldest := Oldest(s, keys);
            oldest.Some? ==> oldest.value in s.entries && s.entries[oldest.value].identity.None? && !s.entries[oldest.value].claimed
    ensures Oldest(s, keys).None? ==> forall k :: k in keys && k in s.entries ==> s.entries[k].identity.Some? || s.entries[k].claimed
  {
    if keys != [] {
      OldestIsUnapproved(s, keys[1..]);
      assert keys == [keys[0]] + keys[1..];
    }
  }

  /** The entry is there, as it was. */
  predicate Has(s: State, k: string, e: Entry) {
    k in s.entries && s.entries[k] == e
  }

  lemma DeleteSpares(s: State, token: string, k: string, e: Entry)
    requires Has(s, k, e) && token != k
    ensures Has(Delete(s, token), k, e)
  {
  }

  lemma PreviousIsOther(s: State, c: Config, authKeyId: string, k: string, e: Entry)
    requires Valid(s, c) && Has(s, k, e) && e.authKeyId != authKeyId
    ensures Previous(s, authKeyId) != Some(k)
  {
  }

  lemma CleanedUpSpares(s: State, c: Config, authKeyId: string, clock: Clock, k: string, e: Entry)
    requires Valid(s, c) && Has(s, k, e) && e.expiresAt > clock.expire && e.authKeyId != authKeyId
    ensures Has(CleanedUp(s, c, clock), k, e) && Previous(CleanedUp(s, c, clock), authKeyId) != Some(k)
  {
    CleanedUpValid(s, c, clock);
    hide Valid, Previous;
    assert Has(CleanedUp(s, c, clock), k, e) by {
      ExpiredSpares(s, s.order, clock.expire, k);
    }
    PreviousIsOther(CleanedUp(s, c, clock), c, authKeyId, k, e);
  }

  lemma LookingSpares(s: State, c: Config, authKeyId: string, clock: Clock, k: string, e: Entry)
    requires Valid(s, c) && Has(s, k, e) && e.expiresAt > clock.expire && e.authKeyId != authKeyId
    ensures Has(Looking(s, c, authKeyId, clock), k, e)
  {
    hide Valid, CleanedUp, Delete, Has, Previous;
    CleanedUpSpares(s, c, authKeyId, clock, k, e);
    var previous := Previous(CleanedUp(s, c, clock), authKeyId);
    if previous.Some? {
      DeleteSpares(CleanedUp(s, c, clock), previous.value, k, e);
    }
  }

  /** Clearing takes away no live approved entry of another auth key. */
  lemma ClearedSpares(s: State, c: Config, authKeyId: string, clock: Clock, k: string, e: Entry)
    requires Valid(s, c) && Has(s, k, e) && e.expiresAt > clock.expire && e.identity.Some? && e.authKeyId != authKeyId
    ensures Has(Cleared(s, c, authKeyId, clock), k, e)
  {
    hide Valid, CleanedUp, Looking, Delete, Previous, PreviousEntry, Oldest;
    var looking, room := Looking(s, c, authKeyId, clock), Room(s, c, authKeyId, clock);
    LookingSpares(s, c, authKeyId, clock, k, e);
    CleanedUpSpares(s, c, authKeyId, clock, k, e);
    OldestIsUnapproved(looking, looking.order);
    if Oldest(looking, looking.order).Some? {
      DeleteSpares(looking, Oldest(looking, looking.order).value, k, e);
    }
    var previous := Previous(CleanedUp(s, c, clock), authKeyId);
    if previous.Some? {
      DeleteSpares(room, previous.value, k, e);
    }
  }

  /** An issue never takes away what another auth key has that is live and approved, however full the store is. */
  lemma IssueSparesApproved(
      s: State, c: Config, authKeyId: string, token: string, source: Option<string>, clock: Clock, k: string)
    requires Valid(s, c) && k in s.entries && s.entries[k].expiresAt > clock.expire
    requires s.entries[k].identity.Some? && s.entries[k].authKeyId != authKeyId
    ensures Has(Issue(s, c, authKeyId, token, source, clock), k, s.entries[k])
  {
    hide Valid, Decision, Cleared, Looking, Previous;
    ClearedSpares(s, c, authKeyId, clock, k, s.entries[k]);
    LookingSpares(s, c, authKeyId, clock, k, s.entries[k]);
    if Decision(s, c, authKeyId, token, source, clock).Issued? {
      ClearedIsFree(s, c, authKeyId, token, source, clock);
      ClearedValid(s, c, authKeyId, clock);
      PreviousIsOther(Cleared(s, c, authKeyId, clock), c, authKeyId, k, s.entries[k]);
      PreviousOfFree(Cleared(s, c, authKeyId, clock), authKeyId, token);
    }
  }

  lemma PreviousOfFree(s: State, authKeyId: string, token: string)
    requires authKeyId in s.tokenByAuthKey ==> s.tokenByAuthKey[authKeyId] == ""
    requires token in s.entries ==> token == "" && authKeyId in s.tokenByAuthKey
    ensures token in s.entries ==> Previous(s, authKeyId) == Some(token)
  {
  }

  /** An issued token is live until a second before its lifetime is over, and expires at a whole second within that last one. */
  lemma IssuedTokenLives(
      s: State, c: Config, authKeyId: string, token: string, source: Option<string>, clock: Clock, now: int)
    requires Decision(s, c, authKeyId, token, source, clock).Issued?
    ensures var after := Issue(s, c, authKeyId, token, source, clock);
            && token in after.entries
            && var expiresAt := after.entries[token].expiresAt;
               expiresAt % 1_000 == 0 && clock.issue + c.ttl - 1_000 < expiresAt <= clock.issue + c.ttl
    ensures now <= clock.issue + c.ttl - 1_000 ==> Approves(Issue(s, c, authKeyId, token, source, clock), token, now)
  {
    hide Decision, Cleared;
  }

  // -------------------------------------------------------------------- store

  /** The store of login tokens. */
  class LoginTokenStore {
    const config: Config
    var entries: map<string, Entry>
    var order: seq<string>
    var tokenByAuthKey: map<string, string>
    var approvedByAuthKey: map<string, string>
    var tokensBySource: map<string, set<string>>
    var nextCleanupAt: int

    function Contents(): State
      reads this
    {
      State(entries, order, tokenByAuthKey, approvedByAuthKey, tokensBySource, nextCleanupAt)
    }

    constructor (config: Config)
      ensures this.config == config && Contents() == EMPTY && Valid(Contents(), config)
    {
      this.config := config;
      entries, order, tokenByAuthKey, approvedByAuthKey, tokensBySource, nextCleanupAt :=
        map[], [], map[], map[], map[], 0;
    }

    /** Takes a token out of the tokens of its source; the last one takes the source with it. */
    method LeaveSource(source: Option<string>, token: string)
      modifies `tokensBySource
      ensures tokensBySource == Unsourced(old(tokensBySource), source, token)
    {
      if source.Some? && source.value != "" {
        if source.value in tokensBySource {
          tokensBySource := tokensBySource[source.value := tokensBySource[source.value] - {token}];
        }
        if source.value !in tokensBySource || tokensBySource[source.value] == {} {
          tokensBySource := tokensBySource - {source.value};
        }
      }
    }

    /** Removes an entry and everything the indexes hold for it. */
    method Remove(token: string)
      modifies this
      ensures Contents() == Delete(old(Contents()), token)
    {
      hide Unsourced, Without;
      if token !in entries {
        return;
      }
      var e := entries[token];
      entries, order := entries - {token}, Without(order, token);
      if e.authKeyId in tokenByAuthKey && tokenByAuthKey[e.authKeyId] == token {
        tokenByAuthKey := tokenByAuthKey - {e.authKeyId};
      }
      if e.authKeyId in approvedByAuthKey && approvedByAuthKey[e.authKeyId] == token {
        approvedByAuthKey := approvedByAuthKey - {e.authKeyId};
      }
      LeaveSource(e.source, token);
    }

    /** Finds an entry, or deletes it if it has expired. */
    method Get(token: string, now: int) returns (e: Option<Entry>)
      modifies this
      ensures e == Live(old(Contents()), token, now) && Contents() == Looked(old(Contents()), token, now)
    {
      if token !in entries {
        return None;
      }
      if entries[token].expiresAt <= now {
        Remove(token);
        return None;
      }
      return Some(entries[token]);
    }

    method Expire(now: int)
      modifies this
      ensures Contents() == Expired(old(Contents()), old(order), now)
    {
      hide Delete;
      var keys := order;
      for i := 0 to |keys|
        invariant Expired(Contents(), keys[i..], now) == Expired(old(Contents()), keys, now)
      {
        assert keys[i..][0] == keys[i] && keys[i..][1..] == keys[i + 1..];
        if keys[i] in entries && entries[keys[i]].expiresAt <= now {
          Remove(keys[i]);
        }
      }
    }

    method CleanupIfDue(clock: Clock)
      modifies this
      ensures Contents() == CleanedUp(old(Contents()), config, clock)
    {
      if clock.check < nextCleanupAt {
        return;
      }
      Expire(clock.expire);
      nextCleanupAt := clock.schedule + if config.ttl <= 10_000 then config.ttl else 10_000;
    }

    /** Deletes the oldest entry that is neither approved nor claimed. */
    method EvictOldest() returns (evicted: bool)
      modifies this
      ensures var oldest := Oldest(old(Contents()), old(order));
              evicted == oldest.Some? &&
              Contents() == if oldest.Some? then Delete(old(Contents()), oldest.value) else old(Contents())
    {
      hide Delete;
      var keys := order;
      for i := 0 to |keys|
        invariant Contents() == old(Contents()) && Oldest(Contents(), keys[i..]) == Oldest(Contents(), keys)
      {
        assert keys[i..][0] == keys[i] && keys[i..][1..] == keys[i + 1..];
        if keys[i] in entries && entries[keys[i]].identity.None? && !entries[keys[i]].claimed {
          Remove(keys[i]);
          return true;
        }
      }
      return false;
    }

    /** Cleans up and looks for what the auth key has. */
    method LookUp(authKeyId: string, clock: Clock) returns (previous: Option<string>, previousEntry: Option<Entry>)
      modifies this
      ensures Contents() == Looking(old(Contents()), config, authKeyId, clock)
      ensures var cleaned := CleanedUp(old(Contents()), config, clock);
              previous == Previous(cleaned, authKeyId) && previousEntry == PreviousEntry(cleaned, authKeyId, clock)
    {
      hide Delete, CleanedUp;
      CleanupIfDue(clock);
      previous, previousEntry := None, None;
      if authKeyId in tokenByAuthKey {
        previous := Some(tokenByAuthKey[authKeyId]);
        if previous.value != "" {
          previousEntry := Get(previous.value, clock.look);
        }
      }
    }

    /** Puts a new entry into the map and the indexes. */
    method Insert(authKeyId: string, token: string, source: Option<string>, clock: Clock)
      modifies this
      ensures Contents() == Added(old(Contents()), config, authKeyId, token, source, clock)
    {
      if token !in entries {
        order := order + [token];
      }
      entries := entries[token := Entry(authKeyId, (clock.issue + config.ttl) / 1_000 * 1_000, None, false, source)];
      tokenByAuthKey := tokenByAuthKey[authKeyId := token];
      if source.Some? && source.value != "" {
        var tokens := if source.value in tokensBySource then tokensBySource[source.value] else {};
        tokensBySource := tokensBySource[source.value := tokens + {token}];
      }
    }

    method Screen(previous: Option<string>, previousEntry: Option<Entry>, token: string, source: Option<string>)
        returns (r: IssueResult)
      ensures r == Screened(Contents(), config, previous, previousEntry, token, source)
    {
      if previousEntry.Some? && (previousEntry.value.identity.Some? || previousEntry.value.claimed) {
        return Full;
      }
      if previous != Some(token) && token in entries {
        return Full;
      }
      if source.Some? && source.value != "" &&
        (if source.value in tokensBySource then |tokensBySource[source.value]| else 0) >= config.maxEntriesPerSource &&
        !(previousEntry.Some? && previousEntry.value.source == source)
      {
        return SourceLimit;
      }
      return Issued;
    }

    /** Evicts the oldest entry where a new one would be one too many. */
    method MakeRoom(previousEntry: Option<Entry>) returns (hasRoom: bool)
      modifies this
      ensures var full := previousEntry.None? && |old(entries)| >= config.maxEntries;
              var oldest := Oldest(old(Contents()), old(order));
              && hasRoom == (!full || oldest.Some?)
              && Contents() == if full && oldest.Some? then Delete(old(Contents()), oldest.value) else old(Contents())
    {
      hide Delete, Oldest;
      hasRoom := true;
      if previousEntry.None? && |entries| >= config.maxEntries {
        hasRoom := EvictOldest();
      }
    }

    /** Issues a token for an auth key, in place of the one it had. */
    method IssueToken(authKeyId: string, token: string, source: Option<string>, clock: Clock) returns (r: IssueResult)
      modifies this
      ensures r == Decision(old(Contents()), config, authKeyId, token, source, clock)
      ensures Contents() == Issue(old(Contents()), config, authKeyId, token, source, clock)
    {
      hide Delete, CleanedUp, Oldest, Looking, Added, PreviousEntry, Previous, Screened;
      var previous, previousEntry := LookUp(authKeyId, clock);
      var screened := Screen(previous, previousEntry, token, source);
      if !screened.Issued? {
        return screened;
      }
      var hasRoom := MakeRoom(previousEntry);
      if !hasRoom {
        return Full;
      }
      if previous.Some? && previous.value != "" {
        Remove(previous.value);
      }
      Insert(authKeyId, token, source, clock);
      return Issued;
    }

    /** Approves a token; gives the auth key that issued it. */
    method ApproveToken(token: string, identity: Identity, now: int) returns (authKeyId: Option<string>)
      modifies this
      ensures authKeyId == if Approves(old(Contents()), token, now) then Some(old(entries)[token].authKeyId) else None
      ensures Contents() == Approve(old(Contents()), token, identity, now)
    {
      hide Delete;
      var e := Get(token, now);
      if e.None? || e.value.identity.Some? || e.value.claimed {
        return None;
      }
      entries := entries[token := e.value.(identity := Some(identity))];
      approvedByAuthKey := approvedByAuthKey[e.value.authKeyId := token];
      return Some(e.value.authKeyId);
    }

    method ExpiresAt(token: string, now: int) returns (expiresAt: Option<int>)
      modifies this
      ensures Contents() == Next(old(Contents()), config, Reading(token, now))
      ensures expiresAt.Some? <==> token in old(entries) && old(entries)[token].expiresAt > now
      ensures expiresAt.Some? ==> expiresAt.value == old(entries)[token].expiresAt
    {
      var e := Get(token, now);
      return if e.Some? then Some(e.value.expiresAt) else None;
    }

    method ClaimEntry(token: string, authKeyId: string, now: int) returns (claim: Option<Claim>)
      modifies this
      ensures claim == ClaimOf(old(Contents()), token, authKeyId, now)
      ensures Contents() == Claimed(old(Contents()), token, authKeyId, now)
    {
      hide Delete;
      var e := Get(token, now);
      if e.None? || e.value.authKeyId != authKeyId || e.value.identity.None? || e.value.claimed {
        return None;
      }
      entries := entries[token := e.value.(claimed := true)];
      return Some(Claim(token, authKeyId, e.value.identity.value));
    }

    method ClaimApprovedForAuthKey(authKeyId: string, now: int) returns (claim: Option<Claim>)
      modifies this
      ensures claim == ClaimIn(old(Contents()), ClaimingApproved(authKeyId, now))
      ensures Contents() == Next(old(Contents()), config, ClaimingApproved(authKeyId, now))
    {
      if authKeyId !in approvedByAuthKey || approvedByAuthKey[authKeyId] == "" {
        return None;
      }
      claim := ClaimEntry(approvedByAuthKey[authKeyId], authKeyId, now);
    }

    method CommitClaim(claim: Claim)
      modifies this
      ensures Contents() == Commit(old(Contents()), claim)
    {
      if claim.token in entries && entries[claim.token].claimed && entries[claim.token].authKeyId == claim.authKeyId {
        Remove(claim.token);
      }
    }

    method RollbackClaim(claim: Claim)
      modifies this
      ensures Contents() == Rollback(old(Contents()), claim)
    {
      if claim.token in entries && entries[claim.token].claimed && entries[claim.token].authKeyId == claim.authKeyId {
        entries := entries[claim.token := entries[claim.token].(claimed := false)];
      }
    }
  }
}

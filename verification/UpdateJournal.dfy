/**
  The deliveries of updates, as they are kept in memory: found by their event key, and listed in the order
  of their creation for each account or channel. A list keeps its newest entries only.
 */
module UpdateJournal {

  datatype Option<T> = None | Some(value: T)

  /** The updates of an account (no channel) or of one of its channels. */
  datatype Scope = Scope(session: int, channel: Option<int>)

  datatype Delivery = Delivery(
    scope: Scope, pts: int, count: int, seqNo: int, date: int, claimedAt: int, hasPayload: bool)

  datatype Journal = Journal(retention: nat, deliveries: map<string, Delivery>, keys: map<Scope, seq<string>>)

  function KeysOf(j: Journal, scope: Scope): seq<string> {
    if scope in j.keys then j.keys[scope] else []
  }

  /** Lists are kept only while they have entries. */
  function WithKeys(keys: map<Scope, seq<string>>, scope: Scope, list: seq<string>): map<Scope, seq<string>> {
    if list == [] then keys - {scope} else keys[scope := list]
  }

  function Trimmed(j: Journal, scope: Scope): Journal {
    var all := KeysOf(j, scope);
    if |all| <= j.retention then j
    else
      var excess := |all| - j.retention;
      Journal(j.retention, j.deliveries - (set k | k in all[..excess]), WithKeys(j.keys, scope, all[excess..]))
  }

  function Created(j: Journal, key: string, d: Delivery): Journal {
    if key in j.deliveries then j
    else
      Trimmed(Journal(j.retention, j.deliveries[key := d], j.keys[d.scope := KeysOf(j, d.scope) + [key]]), d.scope)
  }

  function Claimed(j: Journal, key: string, now: int): Journal {
    if key in j.deliveries then j.(deliveries := j.deliveries[key := j.deliveries[key].(claimedAt := now)]) else j
  }

  function WithPayload(j: Journal, key: string): Journal {
    if key in j.deliveries then j.(deliveries := j.deliveries[key := j.deliveries[key].(hasPayload := true)]) else j
  }

  /** The list without the first occurrence of a key. */
  function Cut(list: seq<string>, key: string): (r: seq<string>)
    ensures key !in list ==> r == list
  {
    if list == [] then []
    else if list[0] == key then list[1..]
    else [list[0]] + Cut(list[1..], key)
  }

  function Removed(j: Journal, key: string): Journal {
    if key !in j.deliveries then j
    else
      var scope := j.deliveries[key].scope;
      Journal(
        j.retention, j.deliveries - {key},
        if scope in j.keys then WithKeys(j.keys, scope, Cut(j.keys[scope], key)) else j.keys)
  }

  // ---------------------------------------------------------------- agreement

  predicate Distinct(list: seq<string>) {
    forall i, k :: 0 <= i < k < |list| ==> list[i] != list[k]
  }

  /** The list of a scope has exactly its deliveries, each once, at most as many as are retained. */
  ghost predicate ListOk(j: Journal, scope: Scope, list: seq<string>) {
    && Distinct(list) && |list| <= j.retention
    && forall key :: key in list <==> key in j.deliveries && j.deliveries[key].scope == scope
  }

  ghost predicate Agrees(j: Journal) {
    && (forall scope: Scope :: ListOk(j, scope, KeysOf(j, scope)))
    && (forall scope :: scope in j.keys ==> j.keys[scope] != [])
  }

  lemma {:induction false} CutDistinct(list: seq<string>, key: string)
    requires Distinct(list)
    ensures Distinct(Cut(list, key)) && |Cut(list, key)| <= |list|
    ensures forall k :: k in Cut(list, key) <==> k in list && k != key
  {
    if list != [] && list[0] != key {
      assert list == [list[0]] + list[1..];
      CutDistinct(list[1..], key);
      var rest := Cut(list[1..], key);
      forall i, k | 0 <= i < k < 1 + |rest| ensures ([list[0]] + rest)[i] != ([list[0]] + rest)[k] {
        assert rest[k - 1] in rest;
      }
    }
  }

  lemma SuffixMembers(list: seq<string>, n: nat)
    requires Distinct(list) && n <= |list|
    ensures Distinct(list[n..])
    ensures forall k :: k in list[n..] <==> k in list && k !in list[..n]
  {
    assert list == list[..n] + list[n..];
    forall k | k in list[n..] ensures k !in list[..n] {
      var i :| 0 <= i < |list[n..]| && list[n..][i] == k;
      assert list[n + i] == k;
    }
  }

  /** Trimming one list that may be too long restores the agreement. */
  lemma TrimmingAgrees(j: Journal, scope: Scope)
    requires forall other: Scope :: other != scope ==> ListOk(j, other, KeysOf(j, other))
    requires var list := KeysOf(j, scope);
             Distinct(list) && forall key :: key in list <==> key in j.deliveries && j.deliveries[key].scope == scope
    requires forall other :: other in j.keys ==> j.keys[other] != []
    ensures Agrees(Trimmed(j, scope))
  {
    var all, after := KeysOf(j, scope), Trimmed(j, scope);
    if |all| > j.retention {
      SuffixMembers(all, |all| - j.retention);
      assert KeysOf(after, scope) == all[|all| - j.retention..];
      forall other: Scope | other != scope ensures ListOk(after, other, KeysOf(after, other)) {
        assert KeysOf(after, other) == KeysOf(j, other);
      }
    }
  }

  lemma CreationAgrees(j: Journal, key: string, d: Delivery)
    requires Agrees(j)
    ensures Agrees(Created(j, key, d))
  {
    if key !in j.deliveries {
      var list := KeysOf(j, d.scope) + [key];
      var longer := Journal(j.retention, j.deliveries[key := d], j.keys[d.scope := list]);
      assert ListOk(j, d.scope, KeysOf(j, d.scope));
      forall other: Scope | other != d.scope ensures ListOk(longer, other, KeysOf(longer, other)) {
        assert KeysOf(longer, other) == KeysOf(j, other) && ListOk(j, other, KeysOf(j, other));
      }
      TrimmingAgrees(longer, d.scope);
    }
  }

  lemma RemovalAgrees(j: Journal, key: string)
    requires Agrees(j)
    ensures Agrees(Removed(j, key))
  {
    if key in j.deliveries {
      var scope, after := j.deliveries[key].scope, Removed(j, key);
      assert ListOk(j, scope, KeysOf(j, scope));
      CutDistinct(KeysOf(j, scope), key);
      assert KeysOf(after, scope) == Cut(KeysOf(j, scope), key);
      forall other: Scope | other != scope ensures ListOk(after, other, KeysOf(after, other)) {
        assert KeysOf(after, other) == KeysOf(j, other) && ListOk(j, other, KeysOf(j, other));
      }
    }
  }

  lemma PruningAgrees(j: Journal, scope: Scope)
    requires Agrees(j)
    ensures Agrees(Trimmed(j, scope))
  {
    assert ListOk(j, scope, KeysOf(j, scope));
    TrimmingAgrees(j, scope);
  }

  lemma MarkingAgrees(j: Journal, key: string, now: int)
    requires Agrees(j)
    ensures Agrees(Claimed(j, key, now)) && Agrees(WithPayload(j, key))
  {
    forall scope: Scope
      ensures ListOk(Claimed(j, key, now), scope, KeysOf(j, scope)) && ListOk(WithPayload(j, key), scope, KeysOf(j, scope))
    {
      assert ListOk(j, scope, KeysOf(j, scope));
    }
    assert forall scope: Scope :: KeysOf(Claimed(j, key, now), scope) == KeysOf(j, scope) == KeysOf(WithPayload(j, key), scope);
  }

  // ------------------------------------------------------------------- window

  ghost predicate Before(list: seq<string>, older: string, newer: string) {
    exists i, k :: 0 <= i < k < |list| && list[i] == older && list[k] == newer
  }

  /** Both are stored in the list of the scope, `older` first. */
  ghost predicate Lists(j: Journal, scope: Scope, older: string, newer: string) {
    Before(KeysOf(j, scope), older, newer)
  }

  lemma ListedIsStored(j: Journal, scope: Scope, older: string, newer: string)
    requires Agrees(j) && Lists(j, scope, older, newer)
    ensures older in j.deliveries && newer in j.deliveries && j.deliveries[newer].scope == scope
  {
    assert ListOk(j, scope, KeysOf(j, scope));
  }

  lemma AgreedIsDistinct(j: Journal, scope: Scope)
    requires Agrees(j)
    ensures Distinct(KeysOf(j, scope))
  {
    assert ListOk(j, scope, KeysOf(j, scope));
  }

  lemma SuffixKeepsOrder(list: seq<string>, n: nat, older: string, newer: string)
    requires Distinct(list) && n <= |list| && Before(list, older, newer) && older !in list[..n]
    ensures Before(list[n..], older, newer)
  {
    var i, k :| 0 <= i < k < |list| && list[i] == older && list[k] == newer;
    assert forall m :: 0 <= m < n ==> list[..n][m] == list[m];
    assert list[n..][i - n] == older && list[n..][k - n] == newer;
  }

  lemma {:induction false} CutKeepsOrder(list: seq<string>, key: string, older: string, newer: string)
    requires Before(list, older, newer) && key != older && key != newer
    ensures Before(Cut(list, key), older, newer)
  {
    var i, k :| 0 <= i < k < |list| && list[i] == older && list[k] == newer;
    if list[0] == key {
      assert list[1..][i - 1] == older && list[1..][k - 1] == newer;
    } else if i == 0 {
      assert list[1..][k - 1] == newer;
      CutKeepsMember(list[1..], key, newer);
      var rest := Cut(list[1..], key);
      var m :| 0 <= m < |rest| && rest[m] == newer;
      assert ([list[0]] + rest)[0] == older && ([list[0]] + rest)[m + 1] == newer;
    } else {
      assert list[1..][i - 1] == older && list[1..][k - 1] == newer;
      CutKeepsOrder(list[1..], key, older, newer);
      var rest := Cut(list[1..], key);
      var a, b :| 0 <= a < b < |rest| && rest[a] == older && rest[b] == newer;
      assert ([list[0]] + rest)[a + 1] == older && ([list[0]] + rest)[b + 1] == newer;
    }
  }

  lemma {:induction false} CutKeepsMember(list: seq<string>, key: string, k: string)
    requires k in list && k != key
    ensures k in Cut(list, key)
  {
    if list[0] != k && list[0] != key {
      CutKeepsMember(list[1..], key, k);
    }
  }

  /** Trimming drops the oldest: whatever is newer than something kept is kept. */
  lemma TrimmingKeepsListing(j: Journal, trimmed: Scope, scope: Scope, older: string, newer: string)
    requires Distinct(KeysOf(j, scope)) && Lists(j, scope, older, newer)
    requires older in Trimmed(j, trimmed).deliveries
    ensures Lists(Trimmed(j, trimmed), scope, older, newer)
  {
    var list := KeysOf(j, scope);
    if trimmed == scope && |list| > j.retention {
      SuffixKeepsOrder(list, |list| - j.retention, older, newer);
      assert KeysOf(Trimmed(j, trimmed), scope) == list[|list| - j.retention..];
    } else {
      assert KeysOf(Trimmed(j, trimmed), scope) == list;
    }
  }

  lemma CreationKeepsListing(j: Journal, key: string, d: Delivery, scope: Scope, older: string, newer: string)
    requires Agrees(j) && Lists(j, scope, older, newer) && key !in j.deliveries
    requires older in Created(j, key, d).deliveries
    ensures Lists(Created(j, key, d), scope, older, newer)
  {
    var list := KeysOf(j, d.scope) + [key];
    var longer := Journal(j.retention, j.deliveries[key := d], j.keys[d.scope := list]);
    assert ListOk(j, d.scope, KeysOf(j, d.scope)) && ListOk(j, scope, KeysOf(j, scope));
    var i, k :| 0 <= i < k < |KeysOf(j, scope)| && KeysOf(j, scope)[i] == older && KeysOf(j, scope)[k] == newer;
    assert KeysOf(longer, scope)[i] == older && KeysOf(longer, scope)[k] == newer;
    TrimmingKeepsListing(longer, d.scope, scope, older, newer);
  }

  /** A new key is listed after all that stay. */
  lemma NewestIsListedLast(j: Journal, key: string, d: Delivery, older: string)
    requires Agrees(j) && key !in j.deliveries && older in j.deliveries && j.deliveries[older].scope == d.scope
    requires older in Created(j, key, d).deliveries
    ensures Lists(Created(j, key, d), d.scope, older, key)
  {
    var list := KeysOf(j, d.scope);
    var longer := Journal(j.retention, j.deliveries[key := d], j.keys[d.scope := list + [key]]);
    assert ListOk(j, d.scope, list) && older in list;
    var i :| 0 <= i < |list| && list[i] == older;
    assert (list + [key])[i] == older && (list + [key])[|list|] == key;
    TrimmingKeepsListing(longer, d.scope, d.scope, older, key);
  }

  lemma RemovalKeepsListing(j: Journal, key: string, scope: Scope, older: string, newer: string)
    requires Agrees(j) && Lists(j, scope, older, newer) && newer != key && older in Removed(j, key).deliveries
    ensures Lists(Removed(j, key), scope, older, newer)
  {
    if key in j.deliveries {
      assert ListOk(j, scope, KeysOf(j, scope));
      if j.deliveries[key].scope == scope {
        CutKeepsOrder(KeysOf(j, scope), key, older, newer);
        assert KeysOf(Removed(j, key), scope) == Cut(KeysOf(j, scope), key);
      } else {
        assert KeysOf(Removed(j, key), scope) == KeysOf(j, scope);
      }
    }
  }

  lemma MarkingKeepsListing(j: Journal, key: string, now: int, scope: Scope, older: string, newer: string)
    requires Lists(j, scope, older, newer)
    ensures Lists(Claimed(j, key, now), scope, older, newer) && Lists(WithPayload(j, key), scope, older, newer)
  {
    assert KeysOf(Claimed(j, key, now), scope) == KeysOf(j, scope) == KeysOf(WithPayload(j, key), scope);
  }

  // -------------------------------------------------------------------- store

  class MemoryUpdateStore {
    const retention: nat
    var byEventKey: map<string, Delivery>
    var eventKeysByScope: map<Scope, seq<string>>

    function Contents(): Journal
      reads this
    {
      Journal(retention, byEventKey, eventKeysByScope)
    }

    constructor (retention: nat)
      ensures Contents() == Journal(retention, map[], map[]) && Agrees(Contents())
    {
      this.retention := retention;
      byEventKey, eventKeysByScope := map[], map[];
    }

    method Create(key: string, delivery: Delivery) returns (stored: Delivery)
      modifies this
      ensures Contents() == Created(old(Contents()), key, delivery)
      ensures stored == if key in old(byEventKey) then old(byEventKey)[key] else delivery
    {
      if key in byEventKey {
        return byEventKey[key];
      }
      byEventKey := byEventKey[key := delivery];
      var eventKeys := if delivery.scope in eventKeysByScope then eventKeysByScope[delivery.scope] else [];
      eventKeysByScope := eventKeysByScope[delivery.scope := eventKeys + [key]];
      Prune(delivery.scope);
      return delivery;
    }

    method Claim(key: string, now: int)
      modifies this
      ensures Contents() == Claimed(old(Contents()), key, now)
    {
      if key in byEventKey {
        byEventKey := byEventKey[key := byEventKey[key].(claimedAt := now)];
      }
    }

    method SetPayload(key: string)
      modifies this
      ensures Contents() == WithPayload(old(Contents()), key)
    {
      if key in byEventKey {
        byEventKey := byEventKey[key := byEventKey[key].(hasPayload := true)];
      }
    }

    method Remove(key: string)
      modifies this
      ensures Contents() == Removed(old(Contents()), key)
    {
      if key in byEventKey {
        var scope := byEventKey[key].scope;
        byEventKey := byEventKey - {key};
        if scope in eventKeysByScope {
          var eventKeys := Cut(eventKeysByScope[scope], key);
          eventKeysByScope := if eventKeys == [] then eventKeysByScope - {scope} else eventKeysByScope[scope := eventKeys];
        }
      }
    }

    /** Drops the oldest entries of a list that are too many. */
    method Prune(scope: Scope)
      modifies this
      ensures Contents() == Trimmed(old(Contents()), scope)
    {
      if scope !in eventKeysByScope || |eventKeysByScope[scope]| <= retention {
        return;
      }
      var eventKeys := eventKeysByScope[scope];
      var excess := |eventKeys| - retention;
      eventKeysByScope := eventKeysByScope[scope := eventKeys[excess..]];
      for i := 0 to excess
        invariant byEventKey == old(byEventKey) - (set k | k in eventKeys[..i])
        invariant eventKeysByScope == old(eventKeysByScope)[scope := eventKeys[excess..]]
      {
        byEventKey := byEventKey - {eventKeys[i]};
        assert eventKeys[..i + 1] == eventKeys[..i] + [eventKeys[i]];
      }
      if eventKeys[excess..] == [] {
        eventKeysByScope := eventKeysByScope - {scope};
      }
    }
  }
}

/**
  The correlater: an expiring dictionary from sequence numbers and SMSC message ids
  to the log_id and hook_metadata of the message they belong to.
 */
module Correlater {
  import opened Bytes
  import opened Commands

  /** A dictionary key: a sequence number, a message id, or Python's None. */
  datatype Key = Number(n: int) | MessageId(id: string) | NoId

  datatype Item = Item(logId: string, hookMetadata: string, storedAt: real)

  type Store = map<Key, Item>

  function IdKey(id: Option<string>): Key {
    match id
    case Some(text) => MessageId(text)
    case None => NoId
  }

  function PutKey(command: Command, sequence: int, id: Option<string>): Key {
    if command == SubmitSmResp then IdKey(id) else Number(sequence)
  }

  function GetKey(command: Command, sequence: int, id: Option<string>): Key {
    if command == DeliverSm then IdKey(id) else Number(sequence)
  }

  /** What survives a collection at time now. */
  function Collect(store: Store, ttl: real, now: real): Store {
    map k | k in store && now - store[k].storedAt <= ttl :: store[k]
  }

  function Stored(store: Store, ttl: real, key: Key, item: Item, now: real): Store {
    Collect(store[key := item], ttl, now)
  }

  /** The answer to a lookup; a missing entry answers with two empty strings. */
  function Answer(store: Store, key: Key): (string, string) {
    if key in store then (store[key].logId, store[key].hookMetadata) else ("", "")
  }

  class SimpleCorrelater {
    const maxTtl: real
    var store: Store

    constructor (maxTtl: real)
      ensures this.maxTtl == maxTtl && store == map[]
    {
      this.maxTtl := maxTtl;
      store := map[];
    }

    /** `storedAt` and `now` are the two clock readings of one call. */
    method Put(command: Command, sequence: int, logId: string, hookMetadata: string, id: Option<string>,
               storedAt: real, now: real)
      modifies this
      ensures store == Stored(old(store), maxTtl, PutKey(command, sequence, id),
                              Item(logId, hookMetadata, storedAt), now)
    {
      var item := Item(logId, hookMetadata, storedAt);
      if command == SubmitSmResp {
        store := store[IdKey(id) := item];
      } else {
        store := store[Number(sequence) := item];
      }
      DeleteAfterTtl(now);
    }

    method Get(command: Command, sequence: int, id: Option<string>, now: real)
      returns (logId: string, hookMetadata: string)
      modifies this
      ensures (logId, hookMetadata) == Answer(old(store), GetKey(command, sequence, id))
      ensures store == Collect(old(store), maxTtl, now)
    {
      var key := if command == DeliverSm then IdKey(id) else Number(sequence);
      if key in store {
        logId, hookMetadata := store[key].logId, store[key].hookMetadata;
      } else {
        logId, hookMetadata := "", "";
      }
      DeleteAfterTtl(now);
    }

    method DeleteAfterTtl(now: real)
      modifies this
      ensures store == Collect(old(store), maxTtl, now)
    {
      var keys := store.Keys;
      while keys != {}
        invariant keys <= store.Keys <= old(store).Keys
        invariant forall k :: k in old(store) ==>
                    (k in store <==> k in keys || now - old(store)[k].storedAt <= maxTtl)
        invariant forall k :: k in store ==> store[k] == old(store)[k]
        decreases keys
      {
        var key :| key in keys;
        keys := keys - {key};
        if now - store[key].storedAt > maxTtl {
          store := store - {key};
        }
      }
    }
  }

  // ----------------------------------------------------------------- refinement of a history

  /** One call of the correlater, with the time of the collection that ends it. */
  datatype Event = PutEvent(key: Key, item: Item, now: real) | GetEvent(key: Key, now: real)

  function Apply(store: Store, ttl: real, e: Event): Store {
    match e
    case PutEvent(key, item, now) => Stored(store, ttl, key, item, now)
    case GetEvent(_, now) => Collect(store, ttl, now)
  }

  function Run(h: seq<Event>, ttl: real): Store {
    if h == [] then map[] else Apply(Run(h[..|h| - 1], ttl), ttl, h[|h| - 1])
  }

  predicate Ordered(h: seq<Event>) {
    forall i, j :: 0 <= i <= j < |h| ==> h[i].now <= h[j].now
  }

  function LatestPut(h: seq<Event>, key: Key): Option<Item> {
    if h == [] then None
    else
      var last := h[|h| - 1];
      if last.PutEvent? && last.key == key then Some(last.item) else LatestPut(h[..|h| - 1], key)
  }

  /**
    The store is a window on the history: a key maps to its latest put, and is present
    exactly when that put was no older than the ttl at the last collection.
   */
  lemma {:induction false} StoreIsRecentPuts(h: seq<Event>, ttl: real, key: Key)
    requires h != [] && Ordered(h)
    ensures key in Run(h, ttl) <==>
              LatestPut(h, key).Some? && h[|h| - 1].now - LatestPut(h, key).value.storedAt <= ttl
    ensures key in Run(h, ttl) ==> Run(h, ttl)[key] == LatestPut(h, key).value
  {
    var before := h[..|h| - 1];
    if before != [] {
      assert before[|before| - 1].now <= h[|h| - 1].now;
      StoreIsRecentPuts(before, ttl, key);
    }
  }

  /** A lookup after a history answers with the latest put that the last collection left in place. */
  lemma AnswerIsLatestPut(h: seq<Event>, ttl: real, key: Key)
    requires h != [] && Ordered(h)
    ensures Answer(Run(h, ttl), key) ==
              match LatestPut(h, key)
              case None => ("", "")
              case Some(item) =>
                if h[|h| - 1].now - item.storedAt <= ttl then (item.logId, item.hookMetadata) else ("", "")
  {
    StoreIsRecentPuts(h, ttl, key);
  }

  /** A lookup at time now is answered from an entry that is older than the ttl by then. */
  ghost predicate AnswersExpired(h: seq<Event>, ttl: real, key: Key, now: real) {
    key in Run(h, ttl) && now - Run(h, ttl)[key].storedAt > ttl
  }

  lemma RunSnoc(h: seq<Event>, ttl: real, e: Event)
    ensures Run(h + [e], ttl) == Apply(Run(h, ttl), ttl, e)
  {
    assert (h + [e])[..|h|] == h;
  }

  /**
    Expired answers, exactly.  An entry is meant to be gone after the ttl; a lookup at time
    now still answers from it if and only if the latest put was within the ttl at the last
    collection, and no longer is.  The lookup's own collection then deletes it.
   */
  lemma ExpiredAnswer(h: seq<Event>, ttl: real, key: Key, now: real)
    requires h != [] && Ordered(h)
    ensures AnswersExpired(h, ttl, key, now) <==>
              && LatestPut(h, key).Some?
              && h[|h| - 1].now - LatestPut(h, key).value.storedAt <= ttl < now - LatestPut(h, key).value.storedAt
    ensures AnswersExpired(h, ttl, key, now) ==>
              var item := LatestPut(h, key).value;
              Answer(Run(h, ttl), key) == (item.logId, item.hookMetadata)
    ensures AnswersExpired(h, ttl, key, now) ==> key !in Run(h + [GetEvent(key, now)], ttl)
  {
    StoreIsRecentPuts(h, ttl, key);
    RunSnoc(h, ttl, GetEvent(key, now));
  }

  predicate PutsNothing(more: seq<Event>, key: Key) {
    forall i :: 0 <= i < |more| ==> more[i].PutEvent? ==> more[i].key != key
  }

  lemma {:induction false} GoneForGood(h: seq<Event>, ttl: real, key: Key, more: seq<Event>)
    requires key !in Run(h, ttl) && PutsNothing(more, key)
    ensures key !in Run(h + more, ttl)
  {
    if more == [] {
      assert h + more == h;
    } else {
      var before, last := more[..|more| - 1], more[|more| - 1];
      GoneForGood(h, ttl, key, before);
      assert h + more == h + before + [last];
      RunSnoc(h + before, ttl, last);
    }
  }

  /** And it happens once: until the key is put again, no later lookup is answered from it. */
  lemma ExpiredAnswersOnce(h: seq<Event>, ttl: real, key: Key, now: real, more: seq<Event>)
    requires h != [] && Ordered(h) && AnswersExpired(h, ttl, key, now) && PutsNothing(more, key)
    ensures Answer(Run(h + [GetEvent(key, now)] + more, ttl), key) == ("", "")
  {
    ExpiredAnswer(h, ttl, key, now);
    GoneForGood(h + [GetEvent(key, now)], ttl, key, more);
  }

  /** For every ttl there is such a pair of calls: a put, and a lookup more than the ttl later. */
  lemma ExpiredAnswerExists(ttl: real, key: Key, logId: string, hookMetadata: string)
    requires ttl >= 0.0
    ensures var h := [PutEvent(key, Item(logId, hookMetadata, 0.0), 0.0)];
            Ordered(h) && AnswersExpired(h, ttl, key, ttl + 1.0) && Answer(Run(h, ttl), key) == (logId, hookMetadata)
  {
    var h := [PutEvent(key, Item(logId, hookMetadata, 0.0), 0.0)];
    assert LatestPut(h, key) == Some(Item(logId, hookMetadata, 0.0));
    ExpiredAnswer(h, ttl, key, ttl + 1.0);
  }

  predicate Recent(e: Event, ttl: real, now: real) {
    e.PutEvent? && now - e.item.storedAt <= ttl
  }

  function RecentPuts(h: seq<Event>, ttl: real, now: real): nat {
    if h == [] then 0
    else RecentPuts(h[..|h| - 1], ttl, now) + (if Recent(h[|h| - 1], ttl, now) then 1 else 0)
  }

  ghost function RecentKeys(h: seq<Event>, ttl: real, now: real): (keys: set<Key>)
    ensures |keys| <= RecentPuts(h, ttl, now)
  {
    if h == [] then {}
    else
      var keys := RecentKeys(h[..|h| - 1], ttl, now);
      var last := h[|h| - 1];
      if Recent(last, ttl, now) then keys + {last.key} else keys
  }

  lemma {:induction false} LatestPutIsRecent(h: seq<Event>, ttl: real, now: real, key: Key)
    requires LatestPut(h, key).Some? && now - LatestPut(h, key).value.storedAt <= ttl
    ensures key in RecentKeys(h, ttl, now)
  {
    var last := h[|h| - 1];
    if !(last.PutEvent? && last.key == key) {
      LatestPutIsRecent(h[..|h| - 1], ttl, now, key);
    }
  }

  lemma SubsetIsSmaller(a: set<Key>, b: set<Key>)
    requires a <= b
    ensures |a| <= |b|
  {
    assert b == a + (b - a);
  }

  /** The memory it holds is bounded: never more entries than puts within one ttl of the last collection. */
  lemma StoreIsBounded(h: seq<Event>, ttl: real)
    requires h != [] && Ordered(h)
    ensures |Run(h, ttl)| <= RecentPuts(h, ttl, h[|h| - 1].now)
  {
    var now := h[|h| - 1].now;
    var store := Run(h, ttl);
    forall key | key in store.Keys
      ensures key in RecentKeys(h, ttl, now)
    {
      StoreIsRecentPuts(h, ttl, key);
      LatestPutIsRecent(h, ttl, now, key);
    }
    SubsetIsSmaller(store.Keys, RecentKeys(h, ttl, now));
    assert |store| == |store.Keys|;
  }
}

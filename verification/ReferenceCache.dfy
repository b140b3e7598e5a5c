/**
 The two bounded caches of the reference search (references.rs): complete results
 guarded by an epoch, and per-file roles guarded by a file fingerprint. Both are
 first-in first-out maps.
 */
module ReferenceCache {
  import opened Basics

  const SEARCH_CACHE_CAP := 32
  const ROLE_CACHE_CAP := 256

  // ---------------------------------------------------------------- the first-in first-out map

  datatype Fifo<K(==), V> = Fifo(entries: map<K, V>, order: seq<K>)

  ghost predicate Listed<K, V>(fifo: Fifo<K, V>) {
    (forall i, j :: 0 <= i < j < |fifo.order| ==> fifo.order[i] != fifo.order[j])
    && fifo.entries.Keys == set k | k in fifo.order
  }

  ghost predicate WellFormed<K, V>(fifo: Fifo<K, V>, cap: nat) {
    Listed(fifo) && |fifo.order| <= cap
  }

  function Enter<K, V>(fifo: Fifo<K, V>, key: K, value: V): Fifo<K, V> {
    Fifo(fifo.entries[key := value], if key in fifo.entries then fifo.order else fifo.order + [key])
  }

  function EvictOldest<K, V>(fifo: Fifo<K, V>): Fifo<K, V>
    requires fifo.order != []
  {
    Fifo(fifo.entries - {fifo.order[0]}, fifo.order[1..])
  }

  /** A put evicts the oldest key when a new key makes the map too large. */
  function Put<K, V>(fifo: Fifo<K, V>, key: K, value: V, cap: nat): Fifo<K, V> {
    var entered := Enter(fifo, key, value);
    if |entered.order| > cap then EvictOldest(entered) else entered
  }

  lemma {:induction false} ListedSize<K, V>(fifo: Fifo<K, V>)
    requires Listed(fifo)
    ensures |fifo.entries| == |fifo.order|
    decreases |fifo.order|
  {
    assert |fifo.entries| == |fifo.entries.Keys|;
    if fifo.order == [] {
      assert fifo.entries.Keys == {};
    } else {
      EvictKeepsListed(fifo);
      ListedSize(EvictOldest(fifo));
      OneFewer(fifo.entries, fifo.order[0]);
    }
  }

  lemma OneFewer<K, V>(entries: map<K, V>, k: K)
    requires k in entries
    ensures |entries| == |entries - {k}| + 1
  {
    assert (entries - {k}).Keys == entries.Keys - {k};
    assert |entries| == |entries.Keys| && |entries - {k}| == |(entries - {k}).Keys|;
  }

  lemma EvictKeepsListed<K, V>(fifo: Fifo<K, V>)
    requires Listed(fifo) && fifo.order != []
    ensures Listed(EvictOldest(fifo))
    ensures fifo.order[0] !in EvictOldest(fifo).entries
  {
    assert fifo.order == [fifo.order[0]] + fifo.order[1..];
  }

  lemma EnterKeepsListed<K, V>(fifo: Fifo<K, V>, key: K, value: V)
    requires Listed(fifo)
    ensures Listed(Enter(fifo, key, value))
  {
  }

  /**
   A put keeps a duplicate-free listing of at most `cap` keys, stores its value,
   and loses at most the one key that has been there longest.
   */
  lemma PutFacts<K, V>(fifo: Fifo<K, V>, key: K, value: V, cap: nat)
    requires WellFormed(fifo, cap) && cap > 0
    ensures WellFormed(Put(fifo, key, value, cap), cap)
    ensures key in Put(fifo, key, value, cap).entries && Put(fifo, key, value, cap).entries[key] == value
    ensures forall k :: k in fifo.entries && k != key ==>
      (key !in fifo.entries && |fifo.order| == cap && k == fifo.order[0])
      || (k in Put(fifo, key, value, cap).entries && Put(fifo, key, value, cap).entries[k] == fifo.entries[k])
    ensures forall k :: k in Put(fifo, key, value, cap).entries && k != key ==> k in fifo.entries
  {
    EnterKeepsListed(fifo, key, value);
    var entered := Enter(fifo, key, value);
    if |entered.order| > cap {
      EvictKeepsListed(entered);
      assert entered.order[0] == fifo.order[0];
      assert fifo.order[0] in fifo.entries.Keys;
    }
  }

  /** A known key keeps its place; a new one goes last, and when there is no room the first one leaves. */
  lemma PutOrder<K, V>(fifo: Fifo<K, V>, key: K, value: V, cap: nat)
    requires WellFormed(fifo, cap) && cap > 0
    ensures var after := Put(fifo, key, value, cap);
      after.order == (if key in fifo.order then fifo.order
                      else if |fifo.order| < cap then fifo.order + [key]
                      else fifo.order[1..] + [key])
  {
    assert key in fifo.entries <==> key in fifo.entries.Keys;
    if key !in fifo.order && |fifo.order| == cap {
      assert (fifo.order + [key])[1..] == fifo.order[1..] + [key];
    }
  }

  // ---------------------------------------------------------------- the result cache

  datatype SearchKey = SearchKey(
    root: string, identifier: string, generation: nat, family: Option<nat>, cacheEpoch: nat)

  /** A complete result; the hits themselves are opaque here. */
  datatype SearchValue = SearchValue(hits: seq<string>, truncated: bool)

  datatype SearchCache = SearchCache(fifo: Fifo<SearchKey, SearchValue>, epoch: nat)

  const EMPTY_SEARCH_CACHE := SearchCache(Fifo(map[], []), 0)

  ghost predicate ValidCache(c: SearchCache) {
    WellFormed(c.fifo, SEARCH_CACHE_CAP)
    && forall k :: k in c.fifo.entries ==> k.cacheEpoch == c.epoch
  }

  function Cleared(c: SearchCache): SearchCache {
    SearchCache(Fifo(map[], []), c.epoch + 1)
  }

  function PutIfEpoch(c: SearchCache, key: SearchKey, value: SearchValue, expected: nat): SearchCache {
    if c.epoch != expected then c else c.(fifo := Put(c.fifo, key, value, SEARCH_CACHE_CAP))
  }

  function Get(c: SearchCache, key: SearchKey): Option<SearchValue> {
    if key in c.fifo.entries then Some(c.fifo.entries[key]) else None
  }

  class ReferenceSearchCache {
    var entries: map<SearchKey, SearchValue>
    var order: seq<SearchKey>
    var epoch: nat

    function View(): SearchCache
      reads this
    {
      SearchCache(Fifo(entries, order), epoch)
    }

    constructor ()
      ensures View() == EMPTY_SEARCH_CACHE
    {
      entries, order, epoch := map[], [], 0;
    }

    method Clear()
      modifies this
      ensures View() == Cleared(old(View()))
    {
      entries := map[];
      order := [];
      epoch := epoch + 1;
    }

    method Lookup(key: SearchKey) returns (found: Option<SearchValue>)
      ensures found == Get(View(), key)
    {
      found := if key in entries then Some(entries[key]) else None;
    }

    method StoreIfEpoch(key: SearchKey, value: SearchValue, expected: nat) returns (stored: bool)
      requires WellFormed(View().fifo, SEARCH_CACHE_CAP)
      modifies this
      ensures View() == PutIfEpoch(old(View()), key, value, expected)
      ensures stored == (old(epoch) == expected)
    {
      if epoch != expected {
        return false;
      }
      ghost var before := View().fifo;
      if key !in entries {
        order := order + [key];
      }
      entries := entries[key := value];
      assert View().fifo == Enter(before, key, value);
      EnterKeepsListed(before, key, value);
      ListedSize(View().fifo);
      assert |order| <= SEARCH_CACHE_CAP + 1;
      while |entries| > SEARCH_CACHE_CAP
        invariant epoch == old(epoch) && Listed(View().fifo) && |entries| == |order| <= SEARCH_CACHE_CAP + 1
        invariant View().fifo == Enter(before, key, value) || View().fifo == Put(before, key, value, SEARCH_CACHE_CAP)
        invariant |entries| > SEARCH_CACHE_CAP ==> View().fifo == Enter(before, key, value)
        decreases |entries|
      {
        EvictKeepsListed(View().fifo);
        ListedSize(EvictOldest(View().fifo));
        entries := entries - {order[0]};
        order := order[1..];
      }
      return true;
    }
  }

  // ---------------------------------------------------------------- searches and clears in any order

  /** A search captures its epoch in `key.cacheEpoch` and stores under that epoch. */
  datatype Event = Store(key: SearchKey, value: SearchValue) | Clear

  function After(c: SearchCache, e: Event): SearchCache {
    match e
    case Store(key, value) => PutIfEpoch(c, key, value, key.cacheEpoch)
    case Clear => Cleared(c)
  }

  function Run(c: SearchCache, events: seq<Event>): SearchCache
    decreases |events|
  {
    if events == [] then c else After(Run(c, events[..|events| - 1]), events[|events| - 1])
  }

  /** The value of the last store of `key` since the last clear. */
  function LastStored(events: seq<Event>, key: SearchKey): Option<SearchValue>
    decreases |events|
  {
    if events == [] then None
    else
      var front := events[..|events| - 1];
      match events[|events| - 1]
      case Store(k, value) => if k == key then Some(value) else LastStored(front, key)
      case Clear => None
  }

  lemma AfterKeepsValid(c: SearchCache, e: Event)
    requires ValidCache(c)
    ensures ValidCache(After(c, e))
    ensures After(c, e).epoch == if e.Clear? then c.epoch + 1 else c.epoch
  {
    if e.Store? && c.epoch == e.key.cacheEpoch {
      PutFacts(c.fifo, e.key, e.value, SEARCH_CACHE_CAP);
    }
  }

  /** In every interleaving: keys carry the current epoch, the order lists them once, at most 32 stay. */
  lemma {:induction false} RunKeepsValid(c: SearchCache, events: seq<Event>)
    requires ValidCache(c)
    ensures ValidCache(Run(c, events)) && Run(c, events).epoch >= c.epoch
    ensures |Run(c, events).fifo.entries| <= SEARCH_CACHE_CAP
    decreases |events|
  {
    if events != [] {
      RunKeepsValid(c, events[..|events| - 1]);
      AfterKeepsValid(Run(c, events[..|events| - 1]), events[|events| - 1]);
    }
    ListedSize(Run(c, events).fifo);
  }

  /** A hit returns the value stored last under its key since the last clear, by a search of this epoch. */
  lemma {:induction false} HitIsTheLastStored(events: seq<Event>, key: SearchKey)
    requires Get(Run(EMPTY_SEARCH_CACHE, events), key).Some?
    ensures Get(Run(EMPTY_SEARCH_CACHE, events), key) == LastStored(events, key)
    ensures key.cacheEpoch == Run(EMPTY_SEARCH_CACHE, events).epoch
    decreases |events|
  {
    RunKeepsValid(EMPTY_SEARCH_CACHE, events);
    if events != [] {
      var front, last := events[..|events| - 1], events[|events| - 1];
      var c := Run(EMPTY_SEARCH_CACHE, front);
      RunKeepsValid(EMPTY_SEARCH_CACHE, front);
      if last.Store? {
        if c.epoch == last.key.cacheEpoch {
          PutFacts(c.fifo, last.key, last.value, SEARCH_CACHE_CAP);
        }
        if last.key != key || c.epoch != last.key.cacheEpoch {
          AfterLeavesOthers(c, last, key);
          HitIsTheLastStored(front, key);
        }
      }
    }
  }

  lemma AfterLeavesOthers(c: SearchCache, e: Event, key: SearchKey)
    requires ValidCache(c) && e.Store?
    requires e.key != key || c.epoch != e.key.cacheEpoch
    requires Get(After(c, e), key).Some?
    ensures Get(c, key) == Get(After(c, e), key)
    ensures key.cacheEpoch == c.epoch
    ensures e.key != key
  {
    AfterKeepsValid(c, e);
    if c.epoch == e.key.cacheEpoch {
      PutFacts(c.fifo, e.key, e.value, SEARCH_CACHE_CAP);
      var entered := Enter(c.fifo, e.key, e.value);
      if |entered.order| > SEARCH_CACHE_CAP {
        assert entered.order[0] == c.fifo.order[0];
        EnterKeepsListed(c.fifo, e.key, e.value);
        EvictKeepsListed(entered);
      }
    }
  }

  /** A result whose search captured its epoch before a clear is never returned after it. */
  lemma StaleResultsStayAway(before: seq<Event>, after: seq<Event>, key: SearchKey)
    requires key.cacheEpoch <= Run(EMPTY_SEARCH_CACHE, before).epoch
    ensures Get(Run(Run(EMPTY_SEARCH_CACHE, before + [Clear]), after), key).None?
  {
    assert (before + [Clear])[..|before + [Clear]| - 1] == before;
    RunKeepsValid(EMPTY_SEARCH_CACHE, before + [Clear]);
    RunKeepsValid(Run(EMPTY_SEARCH_CACHE, before + [Clear]), after);
  }

  /** Right after an accepted store its own key is a hit. */
  lemma StoreThenHit(events: seq<Event>, key: SearchKey, value: SearchValue)
    requires key.cacheEpoch == Run(EMPTY_SEARCH_CACHE, events).epoch
    ensures Get(After(Run(EMPTY_SEARCH_CACHE, events), Store(key, value)), key) == Some(value)
  {
    RunKeepsValid(EMPTY_SEARCH_CACHE, events);
    PutFacts(Run(EMPTY_SEARCH_CACHE, events).fifo, key, value, SEARCH_CACHE_CAP);
  }

  // ---------------------------------------------------------------- the role cache

  datatype Fingerprint = Fingerprint(modified: nat, length: nat)

  datatype RoleEntry = RoleEntry(fingerprint: Fingerprint, roles: map<(nat, nat), nat>)

  class ReferenceRoleCache {
    var entries: map<string, RoleEntry>
    var order: seq<string>

    function View(): Fifo<string, RoleEntry>
      reads this
    {
      Fifo(entries, order)
    }

    constructor ()
      ensures WellFormed(View(), ROLE_CACHE_CAP) && entries == map[]
    {
      entries, order := map[], [];
    }

    /** Roles are only served for the very bytes they were parsed from. */
    method Lookup(key: string, fingerprint: Fingerprint) returns (roles: Option<map<(nat, nat), nat>>)
      ensures roles.Some? <==> key in entries && entries[key].fingerprint == fingerprint
      ensures roles.Some? ==> roles.value == entries[key].roles
    {
      roles := if key in entries && entries[key].fingerprint == fingerprint then Some(entries[key].roles) else None;
    }

    method Store(key: string, fingerprint: Fingerprint, roles: map<(nat, nat), nat>)
      requires WellFormed(View(), ROLE_CACHE_CAP)
      modifies this
      ensures View() == Put(old(View()), key, RoleEntry(fingerprint, roles), ROLE_CACHE_CAP)
      ensures WellFormed(View(), ROLE_CACHE_CAP)
      ensures key in entries && entries[key] == RoleEntry(fingerprint, roles)
    {
      ghost var before, entry := View(), RoleEntry(fingerprint, roles);
      if key !in entries {
        order := order + [key];
      }
      entries := entries[key := RoleEntry(fingerprint, roles)];
      assert View() == Enter(before, key, entry);
      EnterKeepsListed(before, key, entry);
      ListedSize(View());
      PutFacts(before, key, entry, ROLE_CACHE_CAP);
      while |entries| > ROLE_CACHE_CAP
        invariant Listed(View()) && |entries| == |order| <= ROLE_CACHE_CAP + 1
        invariant View() == Enter(before, key, entry) || View() == Put(before, key, entry, ROLE_CACHE_CAP)
        invariant |entries| > ROLE_CACHE_CAP ==> View() == Enter(before, key, entry)
        decreases |entries|
      {
        EvictKeepsListed(View());
        ListedSize(EvictOldest(View()));
        entries := entries - {order[0]};
        order := order[1..];
      }
    }
  }
}

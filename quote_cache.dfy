/** The module-level TTL cache of services/quotes.js: a map from symbol to
    `{ data, expiresAt }`, evicted lazily when a read finds an entry expired.
    The clock is the explicit parameter `now` (milliseconds). */
module QuoteCache {
  import opened Wrappers
  import opened QuoteTypes

  /** 5 minutes, the TTL used when `QUOTES_TTL_MS` is not set. */
  const DefaultTtlMillis: int := 5 * 60 * 1000

  datatype Entry = Entry(data: Quote, expiresAt: int)

  /** An entry that a read at time `now` returns. */
  predicate Live(m: map<string, Entry>, symbol: string, now: int) {
    symbol in m && m[symbol].expiresAt > now
  }

  /** The value `getFromCache(symbol)` returns at time `now`. */
  function Lookup(m: map<string, Entry>, symbol: string, now: int): (r: Option<Quote>)
    ensures r.Some? <==> Live(m, symbol, now)
    ensures r.Some? ==> r.value == m[symbol].data
  {
    if symbol in m && m[symbol].expiresAt > now then Some(m[symbol].data) else None
  }

  /** The map after `getFromCache(symbol)` at time `now`: an expired entry for
      `symbol` is deleted, nothing else changes. */
  function AfterLookup(m: map<string, Entry>, symbol: string, now: int): (m': map<string, Entry>)
    ensures symbol in m && m[symbol].expiresAt <= now ==> symbol !in m'
    ensures Live(m, symbol, now) ==> symbol in m' && m'[symbol] == m[symbol]
    ensures symbol !in m ==> m' == m
    ensures forall k :: k != symbol ==> (k in m' <==> k in m)
    ensures forall k :: k != symbol && k in m' ==> m'[k] == m[k]
  {
    if symbol in m && m[symbol].expiresAt <= now then m - {symbol} else m
  }

  /** The map after `setCache(symbol, data, ttl)` at time `now`. */
  function Store(m: map<string, Entry>, symbol: string, data: Quote, ttl: int, now: int): (m': map<string, Entry>)
    ensures symbol in m' && m'[symbol] == Entry(data, now + ttl)
    ensures forall k :: k != symbol ==> (k in m' <==> k in m)
    ensures forall k :: k != symbol && k in m' ==> m'[k] == m[k]
  {
    m[symbol := Entry(data, now + ttl)]
  }

  /** A read at any time before the new expiry returns the stored data and keeps
      the entry. */
  lemma StoreThenLookup(m: map<string, Entry>, symbol: string, data: Quote, ttl: int, now: int, later: int)
    requires later < now + ttl
    ensures Lookup(Store(m, symbol, data, ttl, now), symbol, later) == Some(data)
    ensures AfterLookup(Store(m, symbol, data, ttl, now), symbol, later) == Store(m, symbol, data, ttl, now)
  {
  }

  /** A read at or after the expiry returns nothing and deletes the entry. */
  lemma StoreThenLookupExpired(m: map<string, Entry>, symbol: string, data: Quote, ttl: int, now: int, later: int)
    requires later >= now + ttl
    ensures Lookup(Store(m, symbol, data, ttl, now), symbol, later).None?
    ensures AfterLookup(Store(m, symbol, data, ttl, now), symbol, later) == m - {symbol}
  {
  }

  /** The `CACHE` map and its two accessors. */
  class Cache {
    var entries: map<string, Entry>

    constructor ()
      ensures entries == map[]
    {
      entries := map[];
    }

    /** `getFromCache(symbol)`. */
    method Get(symbol: string, now: int) returns (r: Option<Quote>)
      modifies this
      ensures r == Lookup(old(entries), symbol, now)
      ensures entries == AfterLookup(old(entries), symbol, now)
    {
      if symbol !in entries {
        return None;
      }
      var entry := entries[symbol];
      if entry.expiresAt <= now {
        entries := entries - {symbol};
        return None;
      }
      return Some(entry.data);
    }

    /** `setCache(symbol, data, ttl)`. */
    method Set(symbol: string, data: Quote, ttl: int, now: int)
      modifies this
      ensures entries == Store(old(entries), symbol, data, ttl, now)
    {
      entries := entries[symbol := Entry(data, now + ttl)];
    }
  }
}

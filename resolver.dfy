/** `getQuotesRaw` and `getQuotes` of services/quotes.js. The pure functions
    below define each phase of `getQuotesRaw`; `GetQuotesRaw` is the imperative
    resolver, proved to agree with `Resolve`; the lemmas state what the resolver
    promises. */
module Resolver {
  import opened Wrappers
  import opened JsStrings
  import opened Collections
  import opened QuoteTypes
  import opened QuoteCache
  import opened Providers

  /** `s.trim().toUpperCase()`: never longer than `s` and never holding a
      lower-case ASCII letter; blank exactly when `s` is all white space
      (`CanonicalBlank`). */
  function Canonical(s: string): (r: string)
    ensures |r| <= |s|
    ensures forall k :: 0 <= k < |r| ==> !('a' <= r[k] <= 'z')
  {
    ToUpper(Trim(s))
  }

  /** A symbol is dropped from the request exactly when it is all white space. */
  lemma CanonicalBlank(s: string)
    ensures Canonical(s) == "" <==> forall k :: 0 <= k < |s| ==> IsTrimmable(s[k])
  {
  }

  /** Canonicalising is idempotent: a canonical symbol is left alone. */
  lemma CanonicalIdempotent(s: string)
    ensures Canonical(Canonical(s)) == Canonical(s)
  {
    TrimIdempotent(s);
    ToUpperKeepsTrimmed(Trim(s));
    ToUpperIdempotent(Trim(s));
  }

  /** `symbols.map((s) => s.trim().toUpperCase()).filter(Boolean)`. */
  function CanonicalSymbols(symbols: seq<string>): seq<string> {
    MapNonEmpty(symbols, Canonical)
  }

  /** `unique`: the non-empty canonical symbols, each once, at its first
      occurrence. */
  function UniqueSymbols(symbols: seq<string>): (r: seq<string>)
    ensures NoDup(r)
    ensures forall k :: 0 <= k < |r| ==> r[k] != ""
  {
    Dedup(CanonicalSymbols(symbols))
  }

  /** Every symbol of `unique` is the canonical form of an input symbol, and is
      therefore canonical itself. */
  lemma UniqueSymbolsOrigin(symbols: seq<string>, k: nat)
    requires k < |UniqueSymbols(symbols)|
    ensures exists j :: 0 <= j < |symbols| && UniqueSymbols(symbols)[k] == Canonical(symbols[j])
    ensures Canonical(UniqueSymbols(symbols)[k]) == UniqueSymbols(symbols)[k]
  {
    var c := CanonicalSymbols(symbols);
    var x := UniqueSymbols(symbols)[k];
    assert x in c;
    var i :| 0 <= i < |c| && c[i] == x;
    MapNonEmptyOrigin(symbols, Canonical, i);
    var j :| 0 <= j < |symbols| && c[i] == Canonical(symbols[j]);
    CanonicalIdempotent(symbols[j]);
  }

  /** Every input symbol that is not blank after trimming appears in `unique`,
      canonicalised. */
  lemma UniqueSymbolsCover(symbols: seq<string>, j: nat)
    requires j < |symbols| && Canonical(symbols[j]) != ""
    ensures Canonical(symbols[j]) in UniqueSymbols(symbols)
  {
    var c := CanonicalSymbols(symbols);
    MapNonEmptyCover(symbols, Canonical, j);
    var i :| 0 <= i < |c| && c[i] == Canonical(symbols[j]);
  }

  // ---------------------------------------------------------------- phase 1: cache

  /** `toFetch`: the symbols of `u` without a live entry, in order. */
  function Misses(u: seq<string>, m: map<string, Entry>, now: int): (r: seq<string>)
    ensures |r| <= |u|
    ensures forall k :: 0 <= k < |r| ==> r[k] in u && !Live(m, r[k], now)
    decreases |u|
  {
    if |u| == 0 then []
    else Misses(u[..|u| - 1], m, now) + (if Live(m, u[|u| - 1], now) then [] else [u[|u| - 1]])
  }

  /** The cached quotes pushed to `out`, in order: every symbol of `u` is
      either a hit or a miss. */
  function Hits(u: seq<string>, m: map<string, Entry>, now: int): (r: seq<Quote>)
    ensures |r| + |Misses(u, m, now)| == |u|
    decreases |u|
  {
    if |u| == 0 then []
    else
      var s := u[|u| - 1];
      Hits(u[..|u| - 1], m, now) + (if Live(m, s, now) then [m[s].data] else [])
  }

  /** The cache after reading every symbol of `u` in turn: reads only ever
      delete entries. */
  function EvictAll(m: map<string, Entry>, u: seq<string>, now: int): (r: map<string, Entry>)
    ensures forall x :: x in r ==> x in m && r[x] == m[x]
    decreases |u|
  {
    if |u| == 0 then m
    else AfterLookup(EvictAll(m, u[..|u| - 1], now), u[|u| - 1], now)
  }

  // ---------------------------------------------------------------- phase 2: Yahoo

  /** The cache after `setCache(q.symbol, q)` for each quote in turn: every
      quote's symbol gets an entry and no key is dropped. */
  function StoreAll(m: map<string, Entry>, qs: seq<Quote>, ttl: int, now: int): (r: map<string, Entry>)
    ensures m.Keys <= r.Keys
    ensures forall k :: 0 <= k < |qs| ==> qs[k].symbol in r
    decreases |qs|
  {
    if |qs| == 0 then m
    else
      var q := qs[|qs| - 1];
      assert forall k :: 0 <= k < |qs| - 1 ==> qs[..|qs| - 1][k] == qs[k];
      Store(StoreAll(m, qs[..|qs| - 1], ttl, now), q.symbol, q, ttl, now)
  }

  /** `got`: the symbols of the Yahoo quotes. */
  function SymbolsOf(qs: seq<Quote>): set<string> {
    set k | 0 <= k < |qs| :: qs[k].symbol
  }

  // ---------------------------------------------------------------- phase 3: Alpha Vantage

  /** `stillMissing = toFetch.filter((s) => !got.has(s))`: the symbols of
      `toFetch` that Yahoo did not answer, without repeats when `toFetch` has
      none; the order is that of `toFetch` (`StillMissingConcat`). */
  function StillMissing(toFetch: seq<string>, got: set<string>): (r: seq<string>)
    ensures forall k :: 0 <= k < |r| ==> r[k] in toFetch && r[k] !in got
    ensures forall k :: 0 <= k < |toFetch| && toFetch[k] !in got ==> toFetch[k] in r
    ensures |toFetch| == 1 ==> r == if toFetch[0] in got then [] else toFetch
    ensures NoDup(toFetch) ==> NoDup(r)
    decreases |toFetch|
  {
    if |toFetch| == 0 then []
    else
      var s := toFetch[|toFetch| - 1];
      var p := toFetch[..|toFetch| - 1];
      var rest := StillMissing(p, got);
      assert forall k :: 0 <= k < |p| ==> p[k] == toFetch[k];
      assert NoDup(toFetch) ==> NoDup(p) && s !in p;
      rest + (if s in got then [] else [s])
  }

  /** Filtering commutes with concatenation, so `stillMissing` keeps the order
      of `toFetch`. */
  lemma {:induction false} StillMissingConcat(a: seq<string>, b: seq<string>, got: set<string>)
    ensures StillMissing(a + b, got) == StillMissing(a, got) + StillMissing(b, got)
    decreases |b|
  {
    if |b| > 0 {
      var b' := b[..|b| - 1];
      assert (a + b)[..|a + b| - 1] == a + b';
      StillMissingConcat(a, b', got);
    } else {
      assert a + b == a;
    }
  }

  /** The Alpha Vantage quotes pushed to `out`, in order: at most one per
      symbol asked for, each tagged as an Alpha Vantage quote. */
  function AlphaFound(up: Upstream, ss: seq<string>): (r: seq<Quote>)
    ensures |r| <= |ss|
    ensures forall k :: 0 <= k < |r| ==> r[k].source == AlphaVantage
    decreases |ss|
  {
    if |ss| == 0 then []
    else
      var q := AlphaQuote(up, ss[|ss| - 1]);
      AlphaFound(up, ss[..|ss| - 1]) + (if q.Some? then [q.value] else [])
  }

  /** The cache after `setCache(s, q)` for each symbol that Alpha Vantage
      answered: no key is dropped, and only symbols asked for are added. */
  function StoreAlpha(m: map<string, Entry>, up: Upstream, ss: seq<string>, ttl: int, now: int): (r: map<string, Entry>)
    ensures m.Keys <= r.Keys
    ensures forall x :: x in r && x !in m ==> x in ss
    decreases |ss|
  {
    if |ss| == 0 then m
    else
      var s := ss[|ss| - 1];
      var m' := StoreAlpha(m, up, ss[..|ss| - 1], ttl, now);
      var q := AlphaQuote(up, s);
      if q.Some? then Store(m', s, q.value, ttl, now) else m'
  }

  // ---------------------------------------------------------------- phase 4: assembly

  /** Index of the last quote with symbol `s`, or -1. */
  function LastIndex(out: seq<Quote>, s: string): (k: int)
    ensures -1 <= k < |out|
    ensures k >= 0 ==> out[k].symbol == s
    ensures forall j :: k < j < |out| ==> out[j].symbol != s
    decreases |out|
  {
    if |out| == 0 then -1
    else if out[|out| - 1].symbol == s then |out| - 1
    else LastIndex(out[..|out| - 1], s)
  }

  /** `new Map(out.map((q) => [q.symbol, q]))`: a later quote overwrites an
      earlier one with the same symbol. */
  function BySymbol(out: seq<Quote>): (r: map<string, Quote>)
    ensures forall s :: s in r <==> LastIndex(out, s) >= 0
    ensures forall s :: s in r ==> r[s] == out[LastIndex(out, s)]
    decreases |out|
  {
    if |out| == 0 then map[]
    else
      var q := out[|out| - 1];
      BySymbol(out[..|out| - 1])[q.symbol := q]
  }

  /** `unique.map((s) => bySymbol.get(s) || { symbol: s, error: "not_found" })`:
      one row per symbol, in `unique` order, carrying that symbol; a row is the
      last quote in `out` with that symbol, or not-found when there is none. */
  function Assemble(unique: seq<string>, out: seq<Quote>): (r: seq<QuoteResult>)
    ensures |r| == |unique|
    ensures forall i :: 0 <= i < |r| ==> ResultSymbol(r[i]) == unique[i]
    ensures forall i :: 0 <= i < |r| ==> (r[i].Found? <==> LastIndex(out, unique[i]) >= 0)
    ensures forall i :: 0 <= i < |r| && r[i].Found? ==> r[i].quote == out[LastIndex(out, unique[i])]
  {
    var bySymbol := BySymbol(out);
    seq(|unique|, i requires 0 <= i < |unique| =>
      if unique[i] in bySymbol then Found(bySymbol[unique[i]]) else NotFound(unique[i]))
  }

  // ---------------------------------------------------------------- the whole pipeline

  /** The outcome of one resolution: the output rows, the cache afterwards, the
      batches passed to the Yahoo client, and the symbols Alpha Vantage was
      asked for, in order. */
  datatype Resolution = Resolution(
    results: seq<QuoteResult>,
    entries: map<string, Entry>,
    yahooRequests: seq<seq<string>>,
    alphaRequests: seq<string>)

  function ToFetch(symbols: seq<string>, m: map<string, Entry>, now: int): seq<string> {
    Misses(UniqueSymbols(symbols), m, now)
  }

  function YahooResults(symbols: seq<string>, m: map<string, Entry>, up: Upstream, now: int): seq<Quote> {
    FetchYahoo(up, ToFetch(symbols, m, now))
  }

  function Missing(symbols: seq<string>, m: map<string, Entry>, up: Upstream, now: int): seq<string> {
    StillMissing(ToFetch(symbols, m, now), SymbolsOf(YahooResults(symbols, m, up, now)))
  }

  /** `out`: cache hits, then Yahoo quotes, then Alpha Vantage quotes. */
  function Produced(symbols: seq<string>, m: map<string, Entry>, up: Upstream, now: int): seq<Quote> {
    Hits(UniqueSymbols(symbols), m, now) + YahooResults(symbols, m, up, now)
      + AlphaFound(up, Missing(symbols, m, up, now))
  }

  /** The rows returned: `out` assembled in `unique` order. */
  function Rows(symbols: seq<string>, m: map<string, Entry>, up: Upstream, now: int): seq<QuoteResult> {
    Assemble(UniqueSymbols(symbols), Produced(symbols, m, up, now))
  }

  /** The cache after reads, Yahoo writes and Alpha Vantage writes. */
  function FinalEntries(symbols: seq<string>, m: map<string, Entry>, up: Upstream, ttl: int, now: int): map<string, Entry> {
    var cleaned := EvictAll(m, UniqueSymbols(symbols), now);
    StoreAlpha(StoreAll(cleaned, YahooResults(symbols, m, up, now), ttl, now), up, Missing(symbols, m, up, now), ttl, now)
  }

  /** The reference definition of `getQuotesRaw(symbols)` on cache `m` at `now`:
      no non-blank symbol returns `[]` at once; otherwise one row per unique
      symbol, in order, at most one Yahoo batch (only with a client), and Alpha
      Vantage requests only with a key. */
  function Resolve(symbols: seq<string>, m: map<string, Entry>, up: Upstream, ttl: int, now: int): (r: Resolution)
    ensures UniqueSymbols(symbols) == [] ==> r == Resolution([], m, [], [])
    ensures |r.yahooRequests| <= 1 && (r.yahooRequests != [] ==> up.yahoo.Client?)
    ensures r.alphaRequests != [] ==> AlphaRequested(up)
  {
    if |UniqueSymbols(symbols)| == 0 then Resolution([], m, [], [])
    else
      Resolution(
        Rows(symbols, m, up, now),
        FinalEntries(symbols, m, up, ttl, now),
        if up.yahoo.Client? then [ToFetch(symbols, m, now)] else [],
        if AlphaRequested(up) then Missing(symbols, m, up, now) else [])
  }

  // ---------------------------------------------------------------- the imperative resolver

  /** Reading a symbol that was not read before sees the original entry. */
  lemma {:induction false} EvictAllElsewhere(m: map<string, Entry>, u: seq<string>, now: int, x: string)
    requires x !in u
    ensures (x in EvictAll(m, u, now) <==> x in m)
    ensures x in m ==> EvictAll(m, u, now)[x] == m[x]
    decreases |u|
  {
    if |u| > 0 {
      EvictAllElsewhere(m, u[..|u| - 1], now, x);
    }
  }

  /** Loop 1 of `getQuotesRaw`: read each symbol from the cache; hits go to
      `out`, misses to `toFetch`. */
  method ReadCache(cache: Cache, unique: seq<string>, now: int) returns (out: seq<Quote>, toFetch: seq<string>)
    requires NoDup(unique)
    modifies cache
    ensures out == Hits(unique, old(cache.entries), now)
    ensures toFetch == Misses(unique, old(cache.entries), now)
    ensures cache.entries == EvictAll(old(cache.entries), unique, now)
  {
    ghost var m0 := cache.entries;
    out, toFetch := [], [];
    var i := 0;
    while i < |unique|
      invariant 0 <= i <= |unique|
      invariant out == Hits(unique[..i], m0, now)
      invariant toFetch == Misses(unique[..i], m0, now)
      invariant cache.entries == EvictAll(m0, unique[..i], now)
    {
      var s := unique[i];
      assert unique[..i + 1][..i] == unique[..i];
      assert s !in unique[..i];
      EvictAllElsewhere(m0, unique[..i], now, s);
      var cached := cache.Get(s, now);
      if cached.Some? {
        out := out + [cached.value];
      } else {
        toFetch := toFetch + [s];
      }
      i := i + 1;
    }
    assert unique[..i] == unique;
  }

  /** Loop 2 of `getQuotesRaw`: cache each Yahoo quote under its own symbol and
      record the symbol in `got`. */
  method CacheYahoo(cache: Cache, yahooResults: seq<Quote>, ttl: int, now: int) returns (got: set<string>)
    modifies cache
    ensures got == SymbolsOf(yahooResults)
    ensures cache.entries == StoreAll(old(cache.entries), yahooResults, ttl, now)
  {
    ghost var m1 := cache.entries;
    got := {};
    var j := 0;
    while j < |yahooResults|
      invariant 0 <= j <= |yahooResults|
      invariant got == SymbolsOf(yahooResults[..j])
      invariant cache.entries == StoreAll(m1, yahooResults[..j], ttl, now)
    {
      var q := yahooResults[j];
      assert yahooResults[..j + 1][..j] == yahooResults[..j];
      cache.Set(q.symbol, q, ttl, now);
      got := got + {q.symbol};
      j := j + 1;
    }
    assert yahooResults[..j] == yahooResults;
  }

  /** Loop 3 of `getQuotesRaw`: ask Alpha Vantage for each still-missing symbol
      in turn, caching an answer under the requested symbol. */
  method FallBack(cache: Cache, up: Upstream, stillMissing: seq<string>, ttl: int, now: int)
    returns (found: seq<Quote>, alphaRequests: seq<string>)
    modifies cache
    ensures found == AlphaFound(up, stillMissing)
    ensures cache.entries == StoreAlpha(old(cache.entries), up, stillMissing, ttl, now)
    ensures alphaRequests == if AlphaRequested(up) then stillMissing else []
  {
    ghost var m2 := cache.entries;
    found, alphaRequests := [], [];
    var k := 0;
    while k < |stillMissing|
      invariant 0 <= k <= |stillMissing|
      invariant found == AlphaFound(up, stillMissing[..k])
      invariant cache.entries == StoreAlpha(m2, up, stillMissing[..k], ttl, now)
      invariant alphaRequests == if AlphaRequested(up) then stillMissing[..k] else []
    {
      var s := stillMissing[k];
      assert stillMissing[..k + 1][..k] == stillMissing[..k];
      if AlphaRequested(up) {
        alphaRequests := alphaRequests + [s];
      }
      var outcome := FetchAlphaVantage(up, s);
      if outcome.AlphaResult? && outcome.quote.Some? {
        var q := outcome.quote.value;
        cache.Set(s, q, ttl, now);
        found := found + [q];
      }
      k := k + 1;
    }
    assert stillMissing[..k] == stillMissing;
  }

  /** `getQuotesRaw(symbols)`, with the module-level cache passed in, the clock
      read as `now`, and the requests made to each provider reported. */
  method GetQuotesRaw(cache: Cache, symbols: seq<string>, up: Upstream, ttl: int, now: int)
    returns (results: seq<QuoteResult>, yahooRequests: seq<seq<string>>, alphaRequests: seq<string>)
    modifies cache
    ensures Resolution(results, cache.entries, yahooRequests, alphaRequests)
              == Resolve(symbols, old(cache.entries), up, ttl, now)
  {
    var unique := UniqueSymbols(symbols);
    if |unique| == 0 {
      return [], [], [];
    }
    var hits, toFetch := ReadCache(cache, unique, now);
    var yahooResults := FetchYahoo(up, toFetch);
    yahooRequests := if up.yahoo.Client? then [toFetch] else [];
    var got := CacheYahoo(cache, yahooResults, ttl, now);
    var stillMissing := StillMissing(toFetch, got);
    var found;
    found, alphaRequests := FallBack(cache, up, stillMissing, ttl, now);
    results := Assemble(unique, hits + yahooResults + found);
  }

  /** The argument of `getQuotes`: an array of symbols, or anything else, which
      is converted to a string (`""` for a falsy value) and split on commas. */
  datatype SymbolsArg = SymbolArray(symbols: seq<string>) | SymbolText(text: string)

  /** The symbol list `getQuotes` hands to `getQuotesRaw`. */
  function SymbolsOfArg(arg: SymbolsArg): (r: seq<string>)
    ensures arg.SymbolArray? ==> r == arg.symbols
    ensures arg.SymbolText? ==> r == CommaList(arg.text)
  {
    match arg
    case SymbolArray(ss) => ss
    case SymbolText(t) => CommaList(t)
  }

  /** `getQuotes(symbolsOrString)`. It takes no options: a cache-bypass flag a
      caller passes is dropped, so every call reads the cache. */
  method GetQuotes(cache: Cache, arg: SymbolsArg, up: Upstream, ttl: int, now: int)
    returns (results: seq<QuoteResult>, yahooRequests: seq<seq<string>>, alphaRequests: seq<string>)
    modifies cache
    ensures Resolution(results, cache.entries, yahooRequests, alphaRequests)
              == Resolve(SymbolsOfArg(arg), old(cache.entries), up, ttl, now)
  {
    results, yahooRequests, alphaRequests := GetQuotesRaw(cache, SymbolsOfArg(arg), up, ttl, now);
  }
}

# Stock watchlist quote resolver — a Dafny model

This project models the core of a personal stock-watchlist server in Dafny.

- **`services/quotes.js`**: the quote resolver.
  - A per-symbol TTL cache with lazy eviction.
  - Normalisers for the Yahoo Finance and Alpha Vantage response shapes.
  - The two fail-soft provider wrappers.
  - `getQuotesRaw` / `getQuotes`: canonicalise and de-duplicate the symbols, serve cache hits, send the misses to Yahoo in one batch, fall back to Alpha Vantage one symbol at a time, and return one row per symbol in input order.
- **`app.js`**:
  - the watchlist file's POST, PUT and DELETE handlers;
  - the symbol and `nocache` parsing of `GET /api/quotes`;
  - the `readWatchlist` fallback;
  - the CORS allow-list and origin check.
- **`public/main.js`**: `escapeHtml`.

## Files

| file | what it holds |
|---|---|
| `wrappers.dfy`, `js_numbers.dfy`, `js_strings.dfy`, `collections.dfy` | `Option`; JavaScript numbers (finite, NaN, ±Infinity); `trim`, `toUpperCase`, `split`, `map(...).filter(Boolean)`; `Array.from(new Set(xs))` |
| `quote_types.dfy` | the canonical `Quote`, the not-found row, and the raw provider shapes |
| `quote_cache.dfy` | the cache as functions on a `map`, and the `Cache` class whose `Get`/`Set` mutate it |
| `normalize.dfy` | `normalizeYahooQuote`, `normalizeAlphaVantageQuote` |
| `providers.dfy` | `fetchYahoo`, `fetchAlphaVantage`; the upstream services are oracles in `Upstream` |
| `resolver.dfy` | the reference definition `Resolve` and the imperative `GetQuotesRaw` proved equal to it |
| `resolver_facts.dfy` | what the resolver promises: order, cache use, provider calls, cache writes, idempotence |
| `resolver_examples.dfy` | concrete resolutions |
| `watchlist.dfy`, `quotes_route.dfy`, `cors.dfy` | the `app.js` pieces |
| `html_escape.dfy` | `escapeHtml`, its per-character form and its inverse |

## Behaviour of the code worth knowing

- **No cache bypass.**
  - `app.js:105` passes `{ noCache }`, but `getQuotes` takes a single parameter.
  - The flag is computed (`QuotesRoute.NoCacheFlag`) and then dropped.
  - Every resolution reads and writes the cache.
- **Yahoo is called even when every symbol is cached.**
  - `getQuotesRaw` calls `fetchYahoo(toFetch)` with an empty batch whenever the client is loaded.
  - `ResolverExamples.WarmCacheExample` states this.
- **The timestamp and the price are chosen independently.**
  - The Yahoo timestamp is the first truthy regular/post/pre time (`||`).
  - The price is the first non-null regular/post/pre price (`??`).
  - So the timestamp need not belong to the chosen price (`Normalize.ZeroPriceKeptZeroTimeSkipped`).
- **A zero previous close gives a null change percent.**
  - Deriving the Alpha Vantage change percent from a previous close of 0 gives NaN or an infinity.
  - `Number.isFinite` turns that into null (`Normalize.ZeroPreviousCloseGivesNullPercent`).
- **Alpha Vantage answers are cached under the requested symbol, not under the quote's own `symbol`.**
  - Output rows are matched by the quote's own `symbol`.
  - A quote whose symbol differs from the request is therefore cached but not returned for that row.
  - This is why the idempotence lemma assumes Alpha Vantage answers with the symbol asked for.

## Model

| member | source | states |
|---|---|---|
| `QuoteCache.Lookup` | services/quotes.js:26-34 | the read returns a value exactly when the key has an entry with `expiresAt > now`, and then that entry's data |
| `QuoteCache.AfterLookup` | services/quotes.js:26-34 | a read deletes the key's entry exactly when it is expired (`expiresAt <= now`), keeps a live one, and leaves every other key as it was |
| `QuoteCache.Store` | services/quotes.js:36-38 | writing sets exactly that key to `{data, now + ttl}` and leaves every other key as it was |
| `QuoteCache.StoreThenLookup` | services/quotes.js:26-38 | after a write, a read at any time before `now + ttl` returns the data and keeps the entry |
| `QuoteCache.StoreThenLookupExpired` | services/quotes.js:26-38 | after a write, a read at or after `now + ttl` returns nothing and removes only that entry |
| `QuoteCache.Cache.constructor` | services/quotes.js:5 | the module-level cache starts empty |
| `QuoteCache.Cache.Get` | services/quotes.js:26-34 | `getFromCache`: returns the lookup of the old map and leaves the map with an expired entry for that key deleted |
| `QuoteCache.Cache.Set` | services/quotes.js:36-38 | `setCache`: the new map is the old one with that key's entry replaced |
| `Normalize.NormalizeYahooQuote` | services/quotes.js:40-57 | null exactly for null input; the price is the first present regular/post/pre price, null when that value is not a number; the timestamp is the first truthy regular/post/pre time, a number read as epoch seconds and anything else as a date, and the resolution time exactly when no time field is truthy; the symbol is the payload's truthy `symbol` uppercased, or `""`; the name is the first truthy of `longName`, `shortName` and `displayName`, or `""`; the currency is the truthy `currency`, or null; the change fields are passed through; the source is Yahoo |
| `Normalize.ZeroPriceKeptZeroTimeSkipped` | services/quotes.js:42-44 | a regular price of 0 is kept while a regular time of 0 is skipped for the post-market time |
| `Normalize.TimestampIndependentOfPrice` | services/quotes.js:42-44 | the chosen timestamp does not depend on any price field |
| `Normalize.RemoveFirstPercent` | services/quotes.js:68 | with a `%` in the text, exactly the first `%` is removed and the characters around it are kept in order; without one the text is unchanged |
| `Normalize.StampRenders` | services/quotes.js:52-54 | `toISOString` succeeds for the resolution time, never for a non-finite epoch value, and for a finite one exactly within ±8.64e12 seconds |
| `Normalize.FiniteOrNull` | services/quotes.js:72-75 | keeps exactly the finite numbers and turns everything else into null |
| `Normalize.NormalizeAlphaVantageQuote` | services/quotes.js:59-79 | null exactly when no global-quote object is present; the price is the number of the price text when that is finite, and null when the text is missing or not finite; an explicit `09. change` gives its number when finite, else null; a truthy `10. change percent` gives the number of its text with the first `%` removed when finite, else null; the symbol is the first truthy of `01. symbol`, `symbol` and the requested symbol, uppercased; `name` is empty, `currency` null, `updatedAt` the resolution time; every numeric field is finite or null |
| `Normalize.DerivedChange` | services/quotes.js:62-74 | with no explicit change, both price and previous-close texts present and both numbers finite, the change is `price - previousClose` |
| `Normalize.UnderivableChangeIsNull` | services/quotes.js:62-74 | with no explicit change, a missing price or previous-close text, or a non-finite price or previous close, gives a null change |
| `Normalize.DerivedChangePercent` | services/quotes.js:62-75 | with no explicit percent, both texts present, both numbers finite and a non-zero previous close, the percent is `(price - prev) / prev * 100` |
| `Normalize.UnderivablePercentIsNull` | services/quotes.js:62-75 | with no explicit percent, a missing price or previous-close text, or a non-finite price or previous close, gives a null percent |
| `Normalize.ZeroPreviousCloseGivesNullPercent` | services/quotes.js:68-75 | with no explicit percent and a previous close of 0, the percent is null |
| `JsNumbers.Sub` | services/quotes.js:67 | a difference is finite exactly when both operands are, and is then their difference; NaN propagates |
| `JsNumbers.Div` | services/quotes.js:68 | a quotient by a non-zero finite divisor is the real quotient; dividing by 0, or dividing a non-finite number, never gives a finite number |
| `JsNumbers.Scale` | services/quotes.js:68 | scaling by 100 keeps finiteness and multiplies the value |
| `Providers.NormalizeAll` | services/quotes.js:87 | one Yahoo quote per non-null entry, all tagged Yahoo; no entries give `[]`; a single entry gives its normalised quote, or `[]` when it is null |
| `Providers.NormalizeAllConcat` | services/quotes.js:87 | normalising `a + b` gives the quotes of `a` followed by those of `b`, so the reply's order is kept |
| `Providers.NormalizeAllAt` | services/quotes.js:87 | a non-null entry `j` becomes the quote at the position counting the non-null entries before it, and that quote is its normalised form |
| `Providers.FetchYahoo` | services/quotes.js:81-91 | `[]` without a client, when the call throws, or when a timestamp cannot be rendered; otherwise the normalised non-null entries of the reply in order; every returned quote has a renderable timestamp |
| `Providers.FetchAlphaVantage` | services/quotes.js:93-103 | no request and null when the key is empty; null on a non-ok status; an exception when the request throws; with a key and an ok reply, exactly the normalised body for the requested symbol |
| `Providers.AlphaQuote` | services/quotes.js:129-139 | an exception from `fetchAlphaVantage` is swallowed as "no quote"; otherwise its result |
| `Collections.Dedup` | services/quotes.js:106 | the de-duplicated sequence has no repeats and holds exactly the input's elements |
| `Collections.DedupFirstOccurrenceOrder` | services/quotes.js:106 | de-duplication keeps elements in the order of their first occurrences |
| `Collections.DedupOfDistinct` | app.js:22 | a sequence without repeats is left unchanged |
| `Collections.DedupKeepsDistinctPrefix` | app.js:22 | a repeat-free prefix stays, unchanged, at the front |
| `JsStrings.Trim` | services/quotes.js:106 | the result is empty exactly when every character is white space, and otherwise starts and ends with a non-white-space character |
| `JsStrings.TrimIsSlice` | services/quotes.js:106 | the trimmed text is the slice `s[i..j]`, with only white space before `i` and from `j` on |
| `JsStrings.TrimSlice` | services/quotes.js:106 | every character of the trimmed text occurs in the input |
| `JsStrings.TrimIdempotent` | services/quotes.js:106 | trimming twice is trimming once |
| `JsStrings.ToUpper` | services/quotes.js:106 | upper-casing keeps the length, maps each lower-case ASCII letter to its upper-case partner and keeps every other character |
| `JsStrings.ToLower` | app.js:96 | lower-casing keeps the length, maps each upper-case ASCII letter to its lower-case partner and keeps every other character |
| `JsStrings.ToUpperKeepsTrimmed` | services/quotes.js:106 | upper-casing a trimmed string keeps it trimmed |
| `JsStrings.Split` | app.js:99 | splitting gives at least one piece, no piece holds the separator, and rejoining gives the input |
| `JsStrings.SplitJoin` | app.js:99 | splitting a join of separator-free pieces gives the pieces back |
| `JsStrings.MapNonEmpty` | app.js:99 | `map(f).filter(Boolean)` keeps only non-empty images and is no longer than its input |
| `JsStrings.MapNonEmptyOrigin` | app.js:99 | every kept entry is the image of an input element |
| `JsStrings.MapNonEmptyCover` | app.js:99 | every non-empty image is kept |
| `JsStrings.MapNonEmptyConcat` | app.js:99 | mapping and filtering distribute over concatenation, so order is kept |
| `JsStrings.MapNonEmptyBlank` | services/quotes.js:106-107 | when every image is empty, nothing is kept |
| `JsStrings.TrimmedNonEmptyTrimmed` | app.js:99 | every entry of a trimmed comma list is non-empty and already trimmed |
| `JsStrings.CommaList` | services/quotes.js:149-152 | `split(",").map(trim).filter(Boolean)`: every entry is non-empty, trimmed and free of commas |
| `Resolver.Canonical` | services/quotes.js:106 | `s.trim().toUpperCase()` is no longer than `s` and has no lower-case letter |
| `Resolver.CanonicalBlank` | services/quotes.js:106 | the canonical form is empty exactly when the symbol is all white space, so `filter(Boolean)` drops exactly the blank symbols |
| `Resolver.CanonicalIdempotent` | services/quotes.js:106 | canonicalising a canonical symbol changes nothing |
| `Resolver.UniqueSymbols` | services/quotes.js:106 | `unique` has no repeats and no empty symbol |
| `Resolver.UniqueSymbolsOrigin` | services/quotes.js:106 | each `unique` entry is the canonical form of some input symbol, and is itself canonical |
| `Resolver.UniqueSymbolsCover` | services/quotes.js:106 | every input symbol that is not blank after trimming appears in `unique`, canonicalised |
| `Resolver.Misses` | services/quotes.js:110-116 | `toFetch` is no longer than `unique`, and each of its symbols is in `unique` without a live entry |
| `Resolver.Hits` | services/quotes.js:110-116 | every `unique` symbol is either a hit or a miss: the two counts add up to `unique`'s length |
| `Resolver.EvictAll` | services/quotes.js:110-116 | the reads only delete: every key left holds the entry it held before |
| `Resolver.StoreAll` | services/quotes.js:121-125 | storing the Yahoo quotes keeps every key and adds each quote's own symbol |
| `Resolver.StillMissing` | services/quotes.js:128 | `stillMissing` holds exactly the `toFetch` symbols not in `got`; a single symbol stays exactly when Yahoo did not answer it; it has no repeats when `toFetch` has none |
| `Resolver.StillMissingConcat` | services/quotes.js:128 | the filter distributes over concatenation, so `toFetch`'s order is kept |
| `Resolver.AlphaFound` | services/quotes.js:129-139 | at most one Alpha Vantage quote per missing symbol, each tagged Alpha Vantage |
| `Resolver.StoreAlpha` | services/quotes.js:129-139 | caching the Alpha Vantage answers keeps every key and adds only requested symbols |
| `Resolver.Resolve` | services/quotes.js:105-144 | the reference definition of `getQuotesRaw`: no non-blank symbol gives no rows, the same cache and no calls; Yahoo is asked at most once and only when the client is loaded; Alpha Vantage is asked only with a key |
| `Resolver.LastIndex` | services/quotes.js:142 | the index of the last quote with the symbol; no later quote carries it |
| `Resolver.BySymbol` | services/quotes.js:142 | the symbol map holds exactly the symbols of `out`, each mapped to its last quote |
| `Resolver.Assemble` | services/quotes.js:142-143 | one row per `unique` symbol carrying that symbol; a row is found exactly when some quote carries the symbol, and is then the last such quote |
| `Resolver.EvictAllElsewhere` | services/quotes.js:110-116 | reading other symbols leaves a symbol's entry untouched |
| `Resolver.ReadCache` | services/quotes.js:110-116 | loop 1: the hits, the misses and the cache afterwards are those of the reference definition |
| `Resolver.CacheYahoo` | services/quotes.js:119-125 | loop 2: `got` is the set of Yahoo symbols, and the cache has each quote stored under its own symbol |
| `Resolver.FallBack` | services/quotes.js:128-139 | loop 3: Alpha Vantage is asked for each missing symbol in order (only with a key), and each answer is kept and cached under the requested symbol |
| `Resolver.GetQuotesRaw` | services/quotes.js:105-144 | rows, final cache and provider requests equal `Resolve` on the old cache |
| `Resolver.SymbolsOfArg` | services/quotes.js:146-152 | an array is passed through; anything else becomes its comma list |
| `Resolver.GetQuotes` | services/quotes.js:146-154 | `getQuotes` is `getQuotesRaw` on that symbol list, with no options |
| `ResolverFacts.MissesMembership` | services/quotes.js:110-116 | `toFetch` holds exactly the `unique` symbols without a live entry |
| `ResolverFacts.MissesConcat` | services/quotes.js:110-116 | `toFetch` keeps the order of `unique` |
| `ResolverFacts.AllLive` | services/quotes.js:110-116 | when every symbol is live, nothing is fetched, every cached quote is served in order, and the cache is unchanged |
| `ResolverFacts.HitsCover` | services/quotes.js:112-114 | the cached quote of every live requested symbol is pushed to `out` |
| `ResolverFacts.HitSource` | services/quotes.js:112-114 | every cached quote served comes from a live entry of a requested symbol |
| `ResolverFacts.EvictAllAt` | services/quotes.js:110-116 | after the reads, a requested symbol is present exactly when its entry was live, and is then unchanged |
| `ResolverFacts.StoreAllElsewhere` | services/quotes.js:121-125 | storing the Yahoo quotes leaves every other symbol untouched |
| `ResolverFacts.StoreAllAt` | services/quotes.js:121-125 | each Yahoo symbol ends up holding its last quote, with expiry `now + ttl` |
| `ResolverFacts.StoreAlphaAt` | services/quotes.js:129-139 | each answered requested symbol holds its Alpha Vantage quote; every other key is untouched |
| `ResolverFacts.AlphaFoundCover` | services/quotes.js:129-135 | every Alpha Vantage answer for a still-missing symbol is pushed to `out` |
| `ResolverFacts.AlphaSource` | services/quotes.js:129-139 | every Alpha Vantage quote served answers one of the symbols asked for |
| `ResolverFacts.LastIndexConcat` | services/quotes.js:142 | the last quote with a symbol in `a + b` is in `b` when `b` has one, and in `a` otherwise |
| `ResolverFacts.LastIndexParts` | services/quotes.js:142-143 | Alpha Vantage quotes win over Yahoo quotes, which win over cached ones |
| `ResolverFacts.ResolveEmpty` | services/quotes.js:106-107 | an input with no non-blank symbol gives `[]`, leaves the cache alone and calls no provider |
| `ResolverFacts.ResolveRows` | services/quotes.js:106-143 | one row per distinct canonical symbol, and row `i` carries `unique[i]` |
| `ResolverFacts.ResolveRowOrder` | services/quotes.js:106-143 | rows follow the first occurrences of their symbols in the input |
| `ResolverFacts.ResolveRowContents` | services/quotes.js:142-143 | a row is a quote exactly when a served quote carries its symbol, and is then the last such quote |
| `ResolverFacts.ResolveRequests` | services/quotes.js:110-139 | Yahoo gets exactly `toFetch` (the symbols without a live entry); Alpha Vantage gets exactly the `toFetch` symbols Yahoo did not answer, and only with a key |
| `ResolverFacts.CacheHitNeverFetched` | services/quotes.js:110-139 | a symbol with a live entry reaches neither provider |
| `ResolverFacts.CacheUntouchedElsewhere` | services/quotes.js:105-139 | a symbol neither requested nor returned by Yahoo keeps its entry |
| `ResolverFacts.YahooQuotesCached` | services/quotes.js:119-125 | each Yahoo quote ends up cached under its own symbol (the last of several), with a fresh expiry |
| `ResolverFacts.AlphaQuotesCached` | services/quotes.js:128-139 | each Alpha Vantage answer ends up cached under the requested symbol, with a fresh expiry |
| `ResolverFacts.UnwrittenRequestedSymbol` | services/quotes.js:110-139 | a requested symbol that no provider wrote keeps a live entry and has lost an expired one |
| `ResolverFacts.NotFoundWhenUnanswered` | services/quotes.js:142-143 | with nothing from the cache or Yahoo and no key, the row is `not_found` |
| `ResolverFacts.LiveHitFound` | services/quotes.js:110-143 | in a cache that keeps each quote under its own symbol, a live requested symbol that no provider returns comes back as its cached quote |
| `ResolverFacts.NoAlphaWithoutKey` | services/quotes.js:93-94 | without an API key, Alpha Vantage supplies nothing |
| `ResolverFacts.ResolveKeepsConsistent` | services/quotes.js:119-139 | when Alpha Vantage answers with the symbol asked for, every cache entry stays under its own quote's symbol |
| `ResolverFacts.FoundAreCached` | services/quotes.js:105-143 | when the cache keeps each quote under its own symbol, Alpha Vantage answers with the symbol asked for and the TTL is positive: after a resolution, every found row has a live cache entry holding exactly that quote |
| `ResolverFacts.FoundEntry` | services/quotes.js:119-143 | under the same three assumptions, the last quote served for a symbol is what the cache then holds for it |
| `ResolverFacts.AssembleHits` | services/quotes.js:142-143 | assembling live, self-keyed cached quotes gives each symbol its cached quote |
| `ResolverFacts.ProducedFromCache` | services/quotes.js:110-128 | when every symbol is live, nothing is fetched and the quotes served are the cached ones |
| `ResolverFacts.FinalFromCache` | services/quotes.js:110-139 | when every symbol is live, the cache is left as it was |
| `ResolverFacts.RepeatFromCache` | services/quotes.js:105-143 | under the same three assumptions, when the Yahoo client returns nothing for an empty batch and the resolution found every symbol, the cache it leaves serves the same rows with nothing fetched |
| `ResolverFacts.ResolveIdempotent` | services/quotes.js:105-143 | under the four assumptions of `RepeatFromCache` (self-keyed cache, faithful Alpha Vantage and positive TTL; an empty Yahoo batch gives nothing; the first call found every symbol), a second identical resolution with no expiry in between returns the same rows and cache, and asks Alpha Vantage for nothing |
| `ResolverExamples.CaseAndSpaceCollapse` | services/quotes.js:106 | two spellings of one symbol, then another symbol, give two rows: the shared canonical form, then the other |
| `ResolverExamples.UniqueSymbolsExample` | services/quotes.js:106 | `["aapl", " AAPL ", "MSFT"]` collapses to `["AAPL", "MSFT"]` |
| `ResolverExamples.ColdCache` | services/quotes.js:110-116 | on an empty cache every symbol is a miss |
| `ResolverExamples.ResolveExample` | services/quotes.js:105-143 | Yahoo answering only AAPL and no key gives `[AAPL quote, MSFT not_found]` |
| `ResolverExamples.WarmCacheExample` | services/quotes.js:110-125 | a request for one symbol with a live entry returns the cached quote, leaves the cache unchanged, asks Alpha Vantage for nothing, and still calls Yahoo with an empty batch |
| `Watchlist.ReadWatchlist` | app.js:47-56 | the parsed array, and `[]` for a missing, malformed or non-array file |
| `Watchlist.AfterSave` | app.js:58-60 | the file holds the saved list when one was saved, and is unchanged otherwise |
| `Watchlist.SaveThenRead` | app.js:47-60 | reading after a save gives back exactly the saved list; without a save the file and what is read from it are unchanged |
| `Watchlist.MaxId` | app.js:130 | the largest id, attained by some record |
| `Watchlist.NextId` | app.js:130 | the new id exceeds every existing id; it is 1 for an empty list and otherwise the maximum plus one |
| `Watchlist.PostOutcome` | app.js:113-145 | 400 with no change unless `symbol` is a non-blank string; 409 with no change if the canonical symbol exists; otherwise 201, with the item appended: canonical symbol (different from every existing one), the id `NextId(list)` (the maximum plus one, or 1), trimmed name and notes, `lastPrice` 100 |
| `Watchlist.AppendKeepsTable` | app.js:124-141 | appending a record with a new symbol and a new id keeps symbols unique and ids distinct |
| `Watchlist.PostKeepsTable` | app.js:113-145 | a successful POST keeps symbols unique and ids distinct |
| `Watchlist.PostRejectsDuplicate` | app.js:116-128 | a symbol that is already present, canonically, never changes the table, and gives 409 when it is not blank |
| `Watchlist.FindIndex` | app.js:155 | the first index with that id, or -1 exactly when there is none |
| `Watchlist.Amend` | app.js:159-162 | string `name`/`notes` replace the fields, trimmed; other values leave them; `updatedAt` is set; id and symbol are kept |
| `Watchlist.PutOutcome` | app.js:148-166 | 400 exactly for a non-finite id, 404 exactly for an absent one, and a save exactly on 200 |
| `Watchlist.PutChangesOnlyTarget` | app.js:155-165 | a successful PUT amends only the first record with that id, returns it, and keeps every other record in place |
| `Watchlist.ReplaceKeepsTable` | app.js:159-162 | replacing a record with one that keeps its symbol and id keeps the table well-formed |
| `Watchlist.PutKeepsTable` | app.js:148-166 | PUT keeps symbols unique and ids distinct |
| `Watchlist.RemoveId` | app.js:177 | the filtered list keeps exactly the records with other ids |
| `Watchlist.RemoveIdConcat` | app.js:177 | filtering distributes over concatenation, so relative order is kept |
| `Watchlist.RemoveIdAbsent` | app.js:177 | filtering an absent id changes nothing |
| `Watchlist.RemoveIdShrinks` | app.js:174-177 | filtering a present id removes at least one record |
| `Watchlist.RemoveIdKeepsTable` | app.js:177 | filtering keeps symbols unique and ids distinct |
| `Watchlist.RemoveIdFromPrefix` | app.js:177 | records kept from a prefix share neither symbol nor id with the last record |
| `Watchlist.DeleteOutcome` | app.js:169-181 | 400 exactly for a non-finite id, 404 exactly for an absent one; otherwise 200 and the filtered list is saved |
| `Watchlist.DeleteRemovesAll` | app.js:169-181 | a successful DELETE removes every record with that id (at least one) and keeps the table well-formed |
| `Watchlist.WatchlistFile.constructor` | app.js:43 | the file holds the given contents |
| `Watchlist.WatchlistFile.Post` | app.js:113-145 | replies as `PostOutcome` and rewrites the file only with its saved list |
| `Watchlist.WatchlistFile.Put` | app.js:148-166 | replies as `PutOutcome` and rewrites the file only with its saved list |
| `Watchlist.WatchlistFile.Delete` | app.js:169-181 | replies as `DeleteOutcome` and rewrites the file only with its saved list |
| `QuotesRoute.QueryText` | app.js:95-96 | an absent parameter is `""`, a single one its text, and a repeated one its values joined by commas |
| `QuotesRoute.NoCacheFlag` | app.js:96-97 | the flag is set exactly when the lower-cased value is `1` or `true` |
| `QuotesRoute.WatchlistSymbols` | app.js:101-102 | the watchlist's symbols with the empty ones dropped: every entry is non-empty |
| `QuotesRoute.RequestedSymbols` | app.js:94-103 | a non-blank query gives its trimmed comma list; otherwise the watchlist symbols; a repeated parameter fails |
| `QuotesRoute.UpperAll` | app.js:106 | the reply's `symbols`: each requested symbol uppercased, one entry per request, duplicates kept |
| `QuotesRoute.GetQuotesRoute` | app.js:92-110 | replies `{symbols, quotes}`, with the cache and the provider requests those of `Resolve` on the requested symbols, whatever `nocache` says; a failure changes nothing |
| `QuotesRoute.QuerySymbolsTrimmed` | app.js:98-99 | query symbols are non-empty and trimmed |
| `QuotesRoute.WatchlistSymbolsCover` | app.js:100-102 | every non-empty watchlist symbol is requested |
| `QuotesRoute.WatchlistSymbolsOrigin` | app.js:101-102 | every requested symbol is the symbol of some record |
| `QuotesRoute.WatchlistSymbolsConcat` | app.js:101-102 | the symbols of `a + b` are those of `a` followed by those of `b`, so table order is kept |
| `QuotesRoute.WatchlistSymbolsOne` | app.js:101-102 | a single record contributes its symbol exactly when it is non-empty |
| `QuotesRoute.ReplyShape` | app.js:105-106 | `symbols` has one entry per request, while `quotes` has one row per distinct canonical symbol, in order |
| `QuotesRoute.NoCacheExamples` | app.js:96-97 | `TRUE` and `1` set the flag; `yes` and an absent parameter do not |
| `Cors.ExtraOrigins` | app.js:18-21 | unset `CORS_ORIGINS` gives no extra origins; every extra origin is non-empty, trimmed and free of commas |
| `Cors.AllowList` | app.js:18-22 | the allow-list has no repeats and holds only default or configured origins |
| `Cors.DefaultOriginsDistinct` | app.js:13-17 | the three default origins are distinct |
| `Cors.AllowListStartsWithDefaults` | app.js:13-22 | the allow-list starts with the three default origins, in order |
| `Cors.ConfiguredOriginListed` | app.js:18-22 | every non-blank `CORS_ORIGINS` entry, trimmed, is allowed |
| `Cors.AllowListWithoutConfiguration` | app.js:18-22 | with `CORS_ORIGINS` unset, the list is exactly the defaults |
| `Cors.OriginAllowed` | app.js:26-36 | an absent, empty or listed origin is allowed; a non-empty unlisted origin that does not parse as a URL is refused |
| `Cors.OriginDecision` | app.js:26-36 | an origin is allowed exactly when it is absent or empty, listed, or a parsable URL on a `.github.io` host |
| `Cors.ListedOriginAllowed` | app.js:29-30 | a listed origin is allowed without parsing it |
| `Cors.DefaultOriginListed` | app.js:13-22 | every default origin is in the allow-list |
| `Cors.DefaultOriginAllowed` | app.js:13-36 | the default origins are always allowed |
| `Cors.UnlistedOriginRefused` | app.js:26-36 | an origin that is neither listed nor on a `.github.io` host is refused |
| `HtmlEscape.ReplaceAll` | public/main.js:219 | replacing a character that does not occur changes nothing |
| `HtmlEscape.ReplaceAllOne` | public/main.js:219 | on one character, `replaceAll` gives the replacement when it is the searched character and the character otherwise |
| `HtmlEscape.ReplaceAllConcat` | public/main.js:219-223 | each `replaceAll` pass distributes over concatenation |
| `HtmlEscape.EscapeHtml` | public/main.js:217-224 | a string with none of `& < > " '` is returned unchanged |
| `HtmlEscape.EscapeHtmlConcat` | public/main.js:217-224 | `escapeHtml(a + b) == escapeHtml(a) + escapeHtml(b)` |
| `HtmlEscape.EscapeHtmlChar` | public/main.js:218-223 | each character becomes exactly its own entity: `<` becomes `&lt;`, never `&amp;lt;` |
| `HtmlEscape.EscapeHtmlIsPerChar` | public/main.js:217-224 | the chain of passes equals the per-character map |
| `HtmlEscape.EscapeEachConcat` | public/main.js:218-223 | the per-character map distributes over concatenation |
| `HtmlEscape.EscapeHtmlSafe` | public/main.js:217-224 | the output contains none of `<`, `>`, `"`, `'` |
| `HtmlEscape.EscapeHtmlPlain` | public/main.js:218-223 | a string with none of `& < > " '` is returned unchanged |
| `HtmlEscape.UnescapeEscapeHtml` | public/main.js:217-224 | decoding the five entities recovers the input, so escaping loses nothing |

## Left out

- **I/O and the web framework.** The file system, Express routing, the `cors` middleware options, the HTTP server and `listen` are not modelled.
  - The watchlist file is a `Document` value (missing/malformed, array, other JSON).
  - Saving is the returned `saved` list.
  - Response bodies are datatypes.
- **The upstream clients.** The `yahoo-finance2` client, its lazy `require`, `fetch` and URL building are not modelled. They are the oracles in `Providers.Upstream`:
  - the client as a function from a batch to a reply (threw, one object, or an array);
  - Alpha Vantage as a function from a symbol to a reply (threw, not ok, or a JSON body);
  - `ALPHAVANTAGE_API_KEY` as a string.
- **Conversions.** `Number(string)` and `Date.parse` are abstract parameters.
  - `toISOString` is modelled only by whether it succeeds (`Normalize.StampRenders`); the string it renders is not modelled.
- **Integer and float arithmetic.** Numbers are `JsNumbers.Num`: a real, NaN, or a signed infinity.
  - Float rounding, overflow to infinity and the sign of zero are not modelled.
  - `Sub`, `Div` and `Scale` are exact on finite operands.
- **The clock.**
  - `Date.now()` is read at every cache access in the source; the model uses one `now` per resolution.
  - The TTL is the parameter `ttl` (`QUOTES_TTL_MS`, default `QuoteCache.DefaultTtlMillis`).
- **Concurrency.** Every `await` in `getQuotesRaw` runs in turn, so the model is sequential.
- **Case mapping.** `toUpperCase`/`toLowerCase` are modelled for ASCII letters only.
  - Unicode case mapping (including changes of length) is not modelled.
  - `String.prototype.trim` uses the full white-space set.
- **Watchlist records.**
  - Records have an integer `id` and string fields.
  - Records with a missing or non-numeric `id` (which make `Math.max` give NaN) are not modelled.
  - Non-string `symbol` fields in the file are not modelled.
- **Query parameters.** The request body and query are simplified: body fields are absent, a string, or another value.
  - Query parameters are absent, one string, or a repeated (array) value.
  - Nested query objects (`?symbols[a]=x`) are not modelled. For `nocache` they would give `"[object Object]"`, which is not `1` or `true`; the flag is dropped in any case.
- **Left-out operations.**
  - `simulatePrice` and GET `/api/watchlist` use `Math.random` and float rounding.
  - The `/api/health` route and the home page are not modelled.
  - `scripts/freeport.js` is process management.
  - `public/main.js` apart from `escapeHtml` is DOM and UI code.
- `Resolver.GetQuotesRaw`:
  - the cache is a `map` field of a class, and the output, `toFetch` and `got` are sequences and sets, not JavaScript arrays;
  - aliasing of the quote objects held both in the cache and in the output is not modelled.
- `ResolverFacts.ResolveIdempotent` is stated under four assumptions, because the source does not guarantee it in general:
  - the cache keeps each quote under its own symbol, Alpha Vantage answers with the symbol asked for, and the TTL is positive;
  - the Yahoo client returns nothing for an empty batch;
  - the first call found every symbol.
- **A non-numeric `QUOTES_TTL_MS`.** `Number(...)` then gives NaN, so `expiresAt` is NaN, `expiresAt <= now` is never true and entries never expire (services/quotes.js:6, 29, 37). The integer `ttl` cannot express this.
- `HtmlEscape.EscapeHtml`: the `String(str)` coercion of a non-string argument (public/main.js:217) is not modelled; the argument is a string.

/** The GET `/api/quotes` route of app.js: which symbols it resolves, the
    `nocache` flag it computes, and the response it builds. */
module QuotesRoute {
  import opened Wrappers
  import opened JsStrings
  import opened QuoteTypes
  import opened QuoteCache
  import opened Providers
  import opened Resolver
  import opened Watchlist

  /** A query-string parameter as Express parses it: absent, given once, or
      given several times (an array). */
  datatype Query = NoParam | OneValue(text: string) | Repeated(values: seq<string>)

  /** `String(v || "")`: an array converts to its elements joined by commas. */
  function QueryText(q: Query): (t: string)
    ensures q.NoParam? ==> t == ""
    ensures q.OneValue? ==> t == q.text
    ensures q.Repeated? ==> t == Join(q.values, ',')
  {
    match q
    case NoParam => ""
    case OneValue(text) => text
    case Repeated(values) => Join(values, ',')
  }

  /** `noCacheFlag`: `nocache` is `1` or `true`, in any ASCII letter case. */
  function NoCacheFlag(q: Query): (flag: bool)
    ensures flag <==> ToLower(QueryText(q)) == "1" || ToLower(QueryText(q)) == "true"
  {
    var noCache := ToLower(QueryText(q));
    noCache == "1" || noCache == "true"
  }

  /** `list.map((x) => x.symbol).filter(Boolean)`. */
  function WatchlistSymbols(list: seq<Item>): (r: seq<string>)
    ensures forall k :: 0 <= k < |r| ==> r[k] != ""
  {
    MapNonEmpty(seq(|list|, i requires 0 <= i < |list| => list[i].symbol), s => s)
  }

  /** The symbols handed to `getQuotes`, or `None` when `.trim()` throws
      because `symbols` was given several times. A query that is blank after
      trimming falls back to the watchlist's symbols. */
  function RequestedSymbols(symbolsQ: Query, doc: Document): (r: Option<seq<string>>)
    ensures r.None? <==> symbolsQ.Repeated?
    ensures symbolsQ.OneValue? && Trim(symbolsQ.text) != "" ==> r == Some(CommaList(Trim(symbolsQ.text)))
    ensures symbolsQ.NoParam? || (symbolsQ.OneValue? && Trim(symbolsQ.text) == "") ==>
              r == Some(WatchlistSymbols(ReadWatchlist(doc)))
  {
    match symbolsQ
    case Repeated(_) => None
    case NoParam => Some(WatchlistSymbols(ReadWatchlist(doc)))
    case OneValue(text) =>
      var q := Trim(text);
      if q != "" then Some(CommaList(q)) else Some(WatchlistSymbols(ReadWatchlist(doc)))
  }

  /** `symbols.map((s) => s.toUpperCase())`: one entry per requested symbol,
      duplicates kept. */
  function UpperAll(symbols: seq<string>): (r: seq<string>)
    ensures |r| == |symbols|
    ensures forall k :: 0 <= k < |r| ==> r[k] == ToUpper(symbols[k])
  {
    seq(|symbols|, k requires 0 <= k < |symbols| => ToUpper(symbols[k]))
  }

  /** `{ symbols, quotes }`, or the 500 reply `{ error: "Failed to fetch quotes" }`. */
  datatype QuotesReply = QuotesOk(symbols: seq<string>, quotes: seq<QuoteResult>) | QuotesFailed

  /** GET /api/quotes on the watchlist file `doc` and the quote cache. The
      `nocache` flag is computed and passed on, but `getQuotes` drops it, so the
      reply and the cache depend only on the symbols: every request reads and
      writes the cache. */
  method GetQuotesRoute(cache: Cache, doc: Document, symbolsQ: Query, nocacheQ: Query, up: Upstream, ttl: int, now: int)
    returns (reply: QuotesReply, yahooRequests: seq<seq<string>>, alphaRequests: seq<string>)
    modifies cache
    ensures RequestedSymbols(symbolsQ, doc).None? ==>
              reply == QuotesFailed && cache.entries == old(cache.entries) && yahooRequests == [] && alphaRequests == []
    ensures RequestedSymbols(symbolsQ, doc).Some? ==>
              var symbols := RequestedSymbols(symbolsQ, doc).value;
              var res := Resolve(symbols, old(cache.entries), up, ttl, now);
              && reply == QuotesOk(UpperAll(symbols), res.results)
              && cache.entries == res.entries
              && yahooRequests == res.yahooRequests
              && alphaRequests == res.alphaRequests
  {
    if symbolsQ.Repeated? {
      return QuotesFailed, [], [];
    }
    var q := Trim(QueryText(symbolsQ));
    var noCacheFlag := NoCacheFlag(nocacheQ);
    var symbols: seq<string>;
    if q != "" {
      symbols := CommaList(q);
    } else {
      symbols := WatchlistSymbols(ReadWatchlist(doc));
    }
    var results;
    results, yahooRequests, alphaRequests := GetQuotes(cache, SymbolArray(symbols), up, ttl, now);
    reply := QuotesOk(UpperAll(symbols), results);
  }

  /** A symbol query yields non-empty, trimmed symbols. */
  lemma QuerySymbolsTrimmed(text: string, doc: Document, k: nat)
    requires Trim(text) != ""
    requires k < |RequestedSymbols(OneValue(text), doc).value|
    ensures RequestedSymbols(OneValue(text), doc).value[k] != ""
    ensures Trim(RequestedSymbols(OneValue(text), doc).value[k]) == RequestedSymbols(OneValue(text), doc).value[k]
  {
    TrimmedNonEmptyTrimmed(Split(Trim(text), ','), k);
  }

  /** Without a query, every non-empty watchlist symbol is requested, in table order. */
  lemma WatchlistSymbolsCover(list: seq<Item>, j: nat)
    requires j < |list| && list[j].symbol != ""
    ensures list[j].symbol in WatchlistSymbols(list)
  {
    var symbols := seq(|list|, i requires 0 <= i < |list| => list[i].symbol);
    MapNonEmptyCover(symbols, s => s, j);
  }

  /** Each requested watchlist symbol is the symbol of some record. */
  lemma WatchlistSymbolsOrigin(list: seq<Item>, k: nat)
    requires k < |WatchlistSymbols(list)|
    ensures exists j :: 0 <= j < |list| && WatchlistSymbols(list)[k] == list[j].symbol
  {
    var symbols := seq(|list|, i requires 0 <= i < |list| => list[i].symbol);
    MapNonEmptyOrigin(symbols, s => s, k);
    var j :| 0 <= j < |symbols| && WatchlistSymbols(list)[k] == symbols[j];
    assert WatchlistSymbols(list)[k] == list[j].symbol;
  }

  /** Table order is kept: the symbols of two consecutive runs of records are
      the symbols of the first run followed by those of the second. */
  lemma WatchlistSymbolsConcat(a: seq<Item>, b: seq<Item>)
    ensures WatchlistSymbols(a + b) == WatchlistSymbols(a) + WatchlistSymbols(b)
  {
    var sa := seq(|a|, i requires 0 <= i < |a| => a[i].symbol);
    var sb := seq(|b|, i requires 0 <= i < |b| => b[i].symbol);
    var ab := a + b;
    assert seq(|ab|, i requires 0 <= i < |ab| => ab[i].symbol) == sa + sb;
    MapNonEmptyConcat(sa, sb, s => s);
  }

  /** A single record contributes its symbol exactly when that symbol is non-empty. */
  lemma WatchlistSymbolsOne(item: Item)
    ensures WatchlistSymbols([item]) == if item.symbol == "" then [] else [item.symbol]
  {
    var one := seq(1, i requires 0 <= i < 1 => [item][i].symbol);
    assert one == [item.symbol];
    assert one[..0] == [];
  }

  /** The reply lists the requested symbols, uppercased, without de-duplication,
      while the quotes have one row per distinct canonical symbol. */
  lemma ReplyShape(symbolsQ: Query, doc: Document, m: map<string, Entry>, up: Upstream, ttl: int, now: int)
    requires RequestedSymbols(symbolsQ, doc).Some?
    ensures var symbols := RequestedSymbols(symbolsQ, doc).value;
            var res := Resolve(symbols, m, up, ttl, now);
            && |UpperAll(symbols)| == |symbols|
            && |res.results| == |UniqueSymbols(symbols)|
            && (forall i :: 0 <= i < |res.results| ==> ResultSymbol(res.results[i]) == UniqueSymbols(symbols)[i])
  {
    var symbols := RequestedSymbols(symbolsQ, doc).value;
    if UniqueSymbols(symbols) == [] {
      assert Resolve(symbols, m, up, ttl, now).results == [];
    }
  }

  /** `nocache=TRUE` and `nocache=1` set the flag; any other value does not. */
  lemma NoCacheExamples()
    ensures NoCacheFlag(OneValue("TRUE")) && NoCacheFlag(OneValue("1"))
    ensures !NoCacheFlag(OneValue("yes")) && !NoCacheFlag(NoParam)
  {
    assert ToLower("TRUE") == "true";
    assert ToLower("yes") == "yes";
  }
}

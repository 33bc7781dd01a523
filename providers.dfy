/** The two provider wrappers of services/quotes.js. The upstream services are
    oracles: the Yahoo client is a function from a batch of symbols to a reply,
    Alpha Vantage a function from one symbol to an HTTP reply. Both wrappers fail
    soft. */
module Providers {
  import opened Wrappers
  import opened JsNumbers
  import opened QuoteTypes
  import opened Normalize

  /** What `yahooFinance.quote(symbols)` does: throw, resolve to one object (or
      null), or resolve to an array whose entries may be null. */
  datatype YahooReply = YahooThrew | YahooOne(item: Option<YahooRaw>) | YahooMany(items: seq<Option<YahooRaw>>)

  /** The optional yahoo-finance2 client: `NoClient` when the library failed to
      load. */
  datatype YahooClient = NoClient | Client(quote: seq<string> -> YahooReply)

  /** What one Alpha Vantage request does: the request or the body parse throws,
      the status is not ok, or the body parses to a JSON value (`None` for null
      or another falsy value). */
  datatype AlphaReply = AlphaThrew | AlphaNotOk | AlphaOk(json: Option<AlphaJson>)

  /** The configuration and upstream behaviour a resolution depends on:
      the Yahoo client, `ALPHAVANTAGE_API_KEY` ("" when unset), the Alpha Vantage
      endpoint, JavaScript's `Number(string)` conversion and `Date.parse`. */
  datatype Upstream = Upstream(
    yahoo: YahooClient,
    alphaKey: string,
    alphaFetch: string -> AlphaReply,
    toNumber: string -> Num,
    parseDate: string -> Num)

  /** Number of non-null entries. */
  function CountPresent(items: seq<Option<YahooRaw>>): nat {
    if |items| == 0 then 0 else (if items[0].Some? then 1 else 0) + CountPresent(items[1..])
  }

  /** `list.filter(Boolean).map(normalizeYahooQuote).filter(Boolean)`: one
      normalised quote per non-null entry, in order. */
  function NormalizeAll(items: seq<Option<YahooRaw>>): (r: seq<Quote>)
    ensures |r| == CountPresent(items)
    ensures forall k :: 0 <= k < |r| ==> r[k].source == Yahoo
    ensures items != [] && items[0].Some? ==> r[0] == NormalizeYahooQuote(items[0]).value
    ensures items == [] ==> r == []
    ensures |items| == 1 ==> r == if items[0].Some? then [NormalizeYahooQuote(items[0]).value] else []
  {
    if |items| == 0 then []
    else
      var rest := NormalizeAll(items[1..]);
      match NormalizeYahooQuote(items[0])
      case Some(q) => [q] + rest
      case None => rest
  }

  /** Normalising a reply is normalising its two halves and concatenating the
      results: with the one-entry case above, this fixes every entry and the
      order (reply order). */
  lemma {:induction false} NormalizeAllConcat(a: seq<Option<YahooRaw>>, b: seq<Option<YahooRaw>>)
    ensures NormalizeAll(a + b) == NormalizeAll(a) + NormalizeAll(b)
    decreases |a|
  {
    if |a| == 0 {
      assert a + b == b;
    } else {
      assert (a + b)[1..] == a[1..] + b;
      NormalizeAllConcat(a[1..], b);
    }
  }

  /** The `k`-th normalised quote is the normalisation of the `k`-th non-null
      entry. */
  lemma {:induction false} NormalizeAllAt(items: seq<Option<YahooRaw>>, j: nat)
    requires j < |items| && items[j].Some?
    ensures CountPresent(items[..j]) < |NormalizeAll(items)|
    ensures NormalizeAll(items)[CountPresent(items[..j])] == NormalizeYahooQuote(items[j]).value
    decreases |items|
  {
    if j == 0 {
      assert items[..0] == [];
    } else {
      assert items[1..][..j - 1] == items[1..j];
      assert items[..j] == [items[0]] + items[1..j];
      assert items[..j][1..] == items[1..j];
      NormalizeAllAt(items[1..], j - 1);
    }
  }

  /** Every quote's `updatedAt` can be rendered by `toISOString`. */
  predicate AllRender(qs: seq<Quote>, parseDate: string -> Num) {
    forall k :: 0 <= k < |qs| ==> StampRenders(qs[k].updatedAt, parseDate)
  }

  /** The normalised quotes of a reply that did not throw, before any
      timestamp is rendered. */
  function NormalizeReply(reply: YahooReply): (r: seq<Quote>)
    requires !reply.YahooThrew?
    ensures reply.YahooOne? ==> r == NormalizeAll([reply.item])
    ensures reply.YahooMany? ==> r == NormalizeAll(reply.items)
  {
    match reply
    case YahooOne(item) => NormalizeAll([item])
    case YahooMany(items) => NormalizeAll(items)
  }

  /** `fetchYahoo(symbols)`: no client, a throwing call, or a timestamp that
      `toISOString` rejects (the throw happens inside the `try`) gives `[]`;
      otherwise the normalised non-null results, in reply order. */
  function FetchYahoo(up: Upstream, symbols: seq<string>): (r: seq<Quote>)
    ensures up.yahoo.NoClient? ==> r == []
    ensures up.yahoo.Client? && up.yahoo.quote(symbols).YahooThrew? ==> r == []
    ensures up.yahoo.Client? && !up.yahoo.quote(symbols).YahooThrew? ==>
              var normalized := NormalizeReply(up.yahoo.quote(symbols));
              r == (if AllRender(normalized, up.parseDate) then normalized else [])
    ensures up.yahoo.Client? && up.yahoo.quote(symbols).YahooMany?
            && AllRender(NormalizeAll(up.yahoo.quote(symbols).items), up.parseDate) ==>
              |r| == CountPresent(up.yahoo.quote(symbols).items)
    ensures AllRender(r, up.parseDate)
    ensures forall k :: 0 <= k < |r| ==> r[k].source == Yahoo
  {
    match up.yahoo
    case NoClient => []
    case Client(quote) =>
      var reply := quote(symbols);
      if reply.YahooThrew? then []
      else
        var normalized := NormalizeReply(reply);
        if AllRender(normalized, up.parseDate) then normalized else []
  }

  /** Whether `fetchAlphaVantage` issues a request: only with a non-empty key. */
  predicate AlphaRequested(up: Upstream) {
    up.alphaKey != ""
  }

  /** What a call to `fetchAlphaVantage(symbol)` does: it either throws or
      returns a quote or null. */
  datatype AlphaOutcome = AlphaRaised | AlphaResult(quote: Option<Quote>)

  /** `fetchAlphaVantage(symbol)`. */
  function FetchAlphaVantage(up: Upstream, symbol: string): (r: AlphaOutcome)
    ensures !AlphaRequested(up) ==> r == AlphaResult(None)
    ensures AlphaRequested(up) && up.alphaFetch(symbol).AlphaThrew? ==> r == AlphaRaised
    ensures AlphaRequested(up) && up.alphaFetch(symbol).AlphaNotOk? ==> r == AlphaResult(None)
    ensures AlphaRequested(up) && up.alphaFetch(symbol).AlphaOk? ==>
              r == AlphaResult(NormalizeAlphaVantageQuote(up.alphaFetch(symbol).json, symbol, up.toNumber))
    ensures r.AlphaResult? && r.quote.Some? ==>
              AlphaRequested(up) && up.alphaFetch(symbol).AlphaOk? && r.quote.value.source == AlphaVantage
  {
    if !AlphaRequested(up) then AlphaResult(None)
    else
      match up.alphaFetch(symbol)
      case AlphaThrew => AlphaRaised
      case AlphaNotOk => AlphaResult(None)
      case AlphaOk(json) => AlphaResult(NormalizeAlphaVantageQuote(json, symbol, up.toNumber))
  }

  /** One step of the fallback loop of `getQuotesRaw`: an exception from
      `fetchAlphaVantage` is swallowed and counts as no quote. */
  function AlphaQuote(up: Upstream, symbol: string): (r: Option<Quote>)
    ensures FetchAlphaVantage(up, symbol).AlphaRaised? ==> r.None?
    ensures FetchAlphaVantage(up, symbol).AlphaResult? ==> r == FetchAlphaVantage(up, symbol).quote
  {
    match FetchAlphaVantage(up, symbol)
    case AlphaRaised => None
    case AlphaResult(q) => q
  }
}

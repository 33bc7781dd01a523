/** The canonical quote record of services/quotes.js and the raw shapes the two
    upstream providers hand over. */
module QuoteTypes {
  import opened Wrappers
  import opened JsNumbers

  /** A field value as the Yahoo client delivers it: a number, a string, or a
      `Date` object (given by its time value in milliseconds). */
  datatype Value = Number(num: Num) | Text(text: string) | Instant(epochMillis: Num)

  /** JavaScript truthiness of a value (every object is truthy). */
  predicate TruthyValue(v: Value) {
    match v
    case Number(n) => TruthyNum(n)
    case Text(t) => t != ""
    case Instant(_) => true
  }

  /** JavaScript truthiness of an optional string. */
  predicate TruthyText(s: Option<string>) {
    s.Some? && s.value != ""
  }

  /** What the ISO-8601 `updatedAt` string is rendered from; the rendering itself
      (`Date.prototype.toISOString`) is not modelled. `EpochSeconds` is a Unix time
      in seconds, `DateOf` a value handed to `new Date(...)`, and `ResolutionTime`
      the moment the quote was normalised (`new Date()`). */
  datatype Stamp = EpochSeconds(seconds: Num) | DateOf(value: Value) | ResolutionTime

  /** The `source` tag: "yahoo" or "alphavantage". */
  datatype Source = Yahoo | AlphaVantage

  /** The normalised quote. `None` stands for `null`. */
  datatype Quote = Quote(
    symbol: string,
    name: string,
    price: Option<Num>,
    currency: Option<string>,
    change: Option<Value>,
    changePercent: Option<Value>,
    updatedAt: Stamp,
    source: Source)

  /** One row of the resolver's output: a quote, or `{ symbol, error: "not_found" }`. */
  datatype QuoteResult = Found(quote: Quote) | NotFound(symbol: string)

  /** The `symbol` field of an output row. */
  function ResultSymbol(r: QuoteResult): string {
    match r
    case Found(q) => q.symbol
    case NotFound(s) => s
  }

  /** The fields of a yahoo-finance2 quote object that the normaliser reads;
      `None` is a missing or null field. */
  datatype YahooRaw = YahooRaw(
    symbol: Option<string>,
    longName: Option<string>,
    shortName: Option<string>,
    displayName: Option<string>,
    regularMarketPrice: Option<Value>,
    postMarketPrice: Option<Value>,
    preMarketPrice: Option<Value>,
    regularMarketTime: Option<Value>,
    postMarketTime: Option<Value>,
    preMarketTime: Option<Value>,
    currency: Option<string>,
    regularMarketChange: Option<Value>,
    regularMarketChangePercent: Option<Value>)

  /** The members of an Alpha Vantage "Global Quote" object that the normaliser
      reads, each under both of its spellings (`"05. price"` and `price`, ...).
      Alpha Vantage encodes numbers as strings. */
  datatype GlobalQuote = GlobalQuote(
    numberedSymbol: Option<string>,
    symbol: Option<string>,
    numberedPrice: Option<string>,
    price: Option<string>,
    numberedPreviousClose: Option<string>,
    previousClose: Option<string>,
    numberedChange: Option<string>,
    change: Option<string>,
    numberedChangePercent: Option<string>,
    changePercent: Option<string>)

  /** A parsed Alpha Vantage response body: the global quote object under each of
      the three keys the normaliser tries (`"Global Quote"`, `"GlobalQuote"`,
      `globalQuote`). */
  datatype AlphaJson = AlphaJson(
    spacedKey: Option<GlobalQuote>,
    joinedKey: Option<GlobalQuote>,
    camelKey: Option<GlobalQuote>)
}

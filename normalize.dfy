/** The two normalisers of services/quotes.js: Yahoo and Alpha Vantage response
    shapes mapped into one `Quote` record. Both are pure. */
module Normalize {
  import opened Wrappers
  import opened JsNumbers
  import opened JsStrings
  import opened QuoteTypes

  /** `a ?? b`: the first operand unless it is null or undefined. */
  function Coalesce<T>(a: Option<T>, b: Option<T>): Option<T> {
    if a.Some? then a else b
  }

  /** `a || b` on JavaScript values. */
  function OrValue(a: Option<Value>, b: Option<Value>): Option<Value> {
    if a.Some? && TruthyValue(a.value) then a else b
  }

  /** `a || b` on strings. */
  function OrText(a: Option<string>, b: Option<string>): Option<string> {
    if TruthyText(a) then a else b
  }

  /** `typeof v === "number" ? v : null`. */
  function NumberOrNull(v: Option<Value>): Option<Num> {
    if v.Some? && v.value.Number? then Some(v.value.num) else None
  }

  /** The price candidate: the first of regular, post and pre market price that is
      present (`??`). */
  function YahooPriceField(q: YahooRaw): Option<Value> {
    Coalesce(Coalesce(q.regularMarketPrice, q.postMarketPrice), q.preMarketPrice)
  }

  /** `v` is present and truthy. */
  predicate Truthy(v: Option<Value>) {
    v.Some? && TruthyValue(v.value)
  }

  /** The timestamp candidate: the first truthy of regular, post and pre market
      time (`||`), chosen independently of the price. */
  function YahooTimeField(q: YahooRaw): Option<Value> {
    var t := OrValue(OrValue(q.regularMarketTime, q.postMarketTime), q.preMarketTime);
    if Truthy(t) then t else None
  }

  /** The `Date` a truthy timestamp denotes: a number counts seconds since the
      epoch, anything else goes to the `Date` constructor as it is. */
  function StampOf(v: Value): Stamp {
    match v
    case Number(n) => EpochSeconds(n)
    case _ => DateOf(v)
  }

  /** `normalizeYahooQuote(q)`. */
  function NormalizeYahooQuote(q: Option<YahooRaw>): (r: Option<Quote>)
    ensures r.None? <==> q.None?
    ensures r.Some? ==> r.value.source == Yahoo
    ensures r.Some? ==> r.value.symbol == ToUpper(if TruthyText(q.value.symbol) then q.value.symbol.value else "")
    ensures r.Some? && q.value.regularMarketPrice.Some? ==>
              r.value.price == NumberOrNull(q.value.regularMarketPrice)
    ensures r.Some? && q.value.regularMarketPrice.None? && q.value.postMarketPrice.Some? ==>
              r.value.price == NumberOrNull(q.value.postMarketPrice)
    ensures r.Some? && q.value.regularMarketPrice.None? && q.value.postMarketPrice.None? ==>
              r.value.price == NumberOrNull(q.value.preMarketPrice)
    ensures r.Some? && Truthy(q.value.regularMarketTime) ==>
              r.value.updatedAt == StampOf(q.value.regularMarketTime.value)
    ensures r.Some? && !Truthy(q.value.regularMarketTime) && Truthy(q.value.postMarketTime) ==>
              r.value.updatedAt == StampOf(q.value.postMarketTime.value)
    ensures r.Some? && !Truthy(q.value.regularMarketTime) && !Truthy(q.value.postMarketTime)
            && Truthy(q.value.preMarketTime) ==>
              r.value.updatedAt == StampOf(q.value.preMarketTime.value)
    ensures r.Some? && r.value.updatedAt == ResolutionTime <==>
              r.Some? && !Truthy(q.value.regularMarketTime) && !Truthy(q.value.postMarketTime)
              && !Truthy(q.value.preMarketTime)
    ensures r.Some? ==> r.value.name == (if TruthyText(q.value.longName) then q.value.longName.value
                                         else if TruthyText(q.value.shortName) then q.value.shortName.value
                                         else if TruthyText(q.value.displayName) then q.value.displayName.value
                                         else "")
    ensures r.Some? ==> r.value.currency == (if TruthyText(q.value.currency) then q.value.currency else None)
    ensures r.Some? ==> r.value.change == q.value.regularMarketChange
                        && r.value.changePercent == q.value.regularMarketChangePercent
  {
    match q
    case None => None
    case Some(q) =>
      var ts := YahooTimeField(q);
      var name := OrText(OrText(q.longName, q.shortName), q.displayName);
      Some(Quote(
        symbol := ToUpper(if TruthyText(q.symbol) then q.symbol.value else ""),
        name := if TruthyText(name) then name.value else "",
        price := NumberOrNull(YahooPriceField(q)),
        currency := if TruthyText(q.currency) then q.currency else None,
        change := q.regularMarketChange,
        changePercent := q.regularMarketChangePercent,
        updatedAt := if ts.Some? then StampOf(ts.value) else ResolutionTime,
        source := Yahoo))
  }

  /** Whether `toISOString()` succeeds on the `Date` the stamp denotes. A
      number of seconds is scaled to milliseconds, a string goes through
      `Date.parse` (the input `parseDate`), a `Date` object keeps its time value,
      and the current time is always in range. */
  predicate StampRenders(stamp: Stamp, parseDate: string -> Num): (ok: bool)
    ensures stamp.ResolutionTime? ==> ok
    ensures stamp.EpochSeconds? && !IsFinite(stamp.seconds) ==> !ok
    ensures stamp.EpochSeconds? && IsFinite(stamp.seconds) ==>
              (ok <==> -8640000000000.0 <= stamp.seconds.value <= 8640000000000.0)
  {
    match stamp
    case EpochSeconds(n) => ValidTimeValue(Scale(n, 1000.0))
    case DateOf(Text(t)) => ValidTimeValue(parseDate(t))
    case DateOf(Instant(ms)) => ValidTimeValue(ms)
    case DateOf(Number(n)) => ValidTimeValue(n)
    case ResolutionTime => true
  }

  /** The price and the timestamp are picked by different rules: a regular-market
      price of 0 is kept (`??` only skips null), while a regular-market time of 0
      is skipped in favour of the post-market time (`||` skips every falsy value). */
  lemma ZeroPriceKeptZeroTimeSkipped(q: YahooRaw)
    requires q.regularMarketPrice == Some(Number(Finite(0.0)))
    requires q.regularMarketTime == Some(Number(Finite(0.0)))
    requires q.postMarketTime.Some? && TruthyValue(q.postMarketTime.value)
    ensures NormalizeYahooQuote(Some(q)).value.price == Some(Finite(0.0))
    ensures NormalizeYahooQuote(Some(q)).value.updatedAt == StampOf(q.postMarketTime.value)
  {
  }

  /** The timestamp does not depend on the price fields at all. */
  lemma TimestampIndependentOfPrice(q: YahooRaw, p1: Option<Value>, p2: Option<Value>, p3: Option<Value>)
    ensures NormalizeYahooQuote(Some(q)).value.updatedAt ==
              NormalizeYahooQuote(Some(q.(regularMarketPrice := p1, postMarketPrice := p2,
                                          preMarketPrice := p3))).value.updatedAt
  {
  }

  /** `raw && (raw["Global Quote"] || raw["GlobalQuote"] || raw.globalQuote)`. */
  function GlobalQuoteOf(raw: Option<AlphaJson>): Option<GlobalQuote> {
    match raw
    case None => None
    case Some(j) => Coalesce(Coalesce(j.spacedKey, j.joinedKey), j.camelKey)
  }

  function PriceText(g: GlobalQuote): Option<string> { OrText(g.numberedPrice, g.price) }
  function PreviousCloseText(g: GlobalQuote): Option<string> { OrText(g.numberedPreviousClose, g.previousClose) }
  function ChangeText(g: GlobalQuote): Option<string> { OrText(g.numberedChange, g.change) }
  function ChangePercentText(g: GlobalQuote): Option<string> { OrText(g.numberedChangePercent, g.changePercent) }

  /** `String(s).replace("%", "")`: the first percent sign removed, every
      other character kept in place. */
  function RemoveFirstPercent(s: string): (r: string)
    ensures '%' in s ==> exists i :: 0 <= i < |s| && s[i] == '%' && '%' !in s[..i] && r == s[..i] + s[i + 1..]
    ensures '%' in s ==> |r| == |s| - 1
    ensures '%' !in s ==> r == s
  {
    if '%' in s then var i := IndexOf(s, '%'); s[..i] + s[i + 1..] else s
  }

  /** `Number.isFinite(n) ? n : null`. */
  function FiniteOrNull(n: Option<Num>): (r: Option<Num>)
    ensures r.Some? ==> IsFinite(r.value) && n == r
    ensures n.Some? && IsFinite(n.value) ==> r == n
  {
    if n.Some? && IsFinite(n.value) then n else None
  }

  /** The change as computed before the finiteness filter: the explicit change
      field when present, otherwise `price - previousClose` when both exist. */
  function RawChange(g: GlobalQuote, toNumber: string -> Num): Option<Num> {
    var priceStr, prevStr, changeStr := PriceText(g), PreviousCloseText(g), ChangeText(g);
    if changeStr.Some? then Some(toNumber(changeStr.value))
    else if priceStr.Some? && prevStr.Some? then Some(Sub(toNumber(priceStr.value), toNumber(prevStr.value)))
    else None
  }

  /** The change percent before the finiteness filter: the explicit field (a
      truthy string, percent sign removed) when present, otherwise
      `(price - previousClose) / previousClose * 100` when both exist. */
  function RawChangePercent(g: GlobalQuote, toNumber: string -> Num): Option<Num> {
    var priceStr, prevStr, pctStr := PriceText(g), PreviousCloseText(g), ChangePercentText(g);
    if TruthyText(pctStr) then Some(toNumber(RemoveFirstPercent(pctStr.value)))
    else if priceStr.Some? && prevStr.Some? then
      var price, prev := toNumber(priceStr.value), toNumber(prevStr.value);
      Some(Scale(Div(Sub(price, prev), prev), 100.0))
    else None
  }

  /** Wraps a finite number as a quote field. */
  function AsValue(n: Option<Num>): Option<Value> {
    if n.Some? then Some(Number(n.value)) else None
  }

  /** `normalizeAlphaVantageQuote(raw, symbol)`, with JavaScript's `Number(string)`
      conversion passed in as `toNumber`. */
  function NormalizeAlphaVantageQuote(raw: Option<AlphaJson>, symbol: string, toNumber: string -> Num): (r: Option<Quote>)
    ensures r.None? <==> GlobalQuoteOf(raw).None?
    ensures r.Some? ==> r.value.name == "" && r.value.currency.None?
                        && r.value.source == AlphaVantage && r.value.updatedAt == ResolutionTime
    ensures r.Some? ==> (r.value.price.Some? ==> IsFinite(r.value.price.value))
    ensures r.Some? ==> (r.value.change.Some? ==> r.value.change.value.Number? && IsFinite(r.value.change.value.num))
    ensures r.Some? ==> (r.value.changePercent.Some? ==>
                          r.value.changePercent.value.Number? && IsFinite(r.value.changePercent.value.num))
    ensures r.Some? ==>
              var g := GlobalQuoteOf(raw).value;
              r.value.symbol == ToUpper(if TruthyText(g.numberedSymbol) then g.numberedSymbol.value
                                        else if TruthyText(g.symbol) then g.symbol.value
                                        else symbol)
    ensures r.Some? ==>
              var priceStr := PriceText(GlobalQuoteOf(raw).value);
              && (priceStr.Some? && IsFinite(toNumber(priceStr.value)) ==> r.value.price == Some(toNumber(priceStr.value)))
              && (priceStr.None? || !IsFinite(toNumber(priceStr.value)) ==> r.value.price.None?)
    ensures r.Some? && ChangeText(GlobalQuoteOf(raw).value).Some? ==>
              var n := toNumber(ChangeText(GlobalQuoteOf(raw).value).value);
              r.value.change == if IsFinite(n) then Some(Number(n)) else None
    ensures r.Some? && TruthyText(ChangePercentText(GlobalQuoteOf(raw).value)) ==>
              var n := toNumber(RemoveFirstPercent(ChangePercentText(GlobalQuoteOf(raw).value).value));
              r.value.changePercent == if IsFinite(n) then Some(Number(n)) else None
  {
    var gq := GlobalQuoteOf(raw);
    if gq.None? then None
    else
      var g := gq.value;
      var priceStr := PriceText(g);
      var price := if priceStr.Some? then Some(toNumber(priceStr.value)) else None;
      var sym := OrText(OrText(g.numberedSymbol, g.symbol), Some(symbol));
      Some(Quote(
        symbol := ToUpper(if TruthyText(sym) then sym.value else ""),
        name := "",
        price := FiniteOrNull(price),
        currency := None,
        change := AsValue(FiniteOrNull(RawChange(g, toNumber))),
        changePercent := AsValue(FiniteOrNull(RawChangePercent(g, toNumber))),
        updatedAt := ResolutionTime,
        source := AlphaVantage))
  }

  /** Without an explicit change field, the change is derived as
      `price - previousClose`. */
  lemma DerivedChange(raw: Option<AlphaJson>, symbol: string, toNumber: string -> Num, p: real, v: real)
    requires GlobalQuoteOf(raw).Some?
    requires ChangeText(GlobalQuoteOf(raw).value).None?
    requires PriceText(GlobalQuoteOf(raw).value).Some? && PreviousCloseText(GlobalQuoteOf(raw).value).Some?
    requires toNumber(PriceText(GlobalQuoteOf(raw).value).value) == Finite(p)
    requires toNumber(PreviousCloseText(GlobalQuoteOf(raw).value).value) == Finite(v)
    ensures NormalizeAlphaVantageQuote(raw, symbol, toNumber).value.change == Some(Number(Finite(p - v)))
  {
  }

  /** Without an explicit change field, a missing price or previous-close text,
      or a price or previous close that is not a finite number, gives a null
      change. */
  lemma UnderivableChangeIsNull(raw: Option<AlphaJson>, symbol: string, toNumber: string -> Num)
    requires GlobalQuoteOf(raw).Some?
    requires ChangeText(GlobalQuoteOf(raw).value).None?
    requires var g := GlobalQuoteOf(raw).value;
             PriceText(g).None? || PreviousCloseText(g).None?
             || !IsFinite(toNumber(PriceText(g).value)) || !IsFinite(toNumber(PreviousCloseText(g).value))
    ensures NormalizeAlphaVantageQuote(raw, symbol, toNumber).value.change.None?
  {
  }

  /** Without a truthy explicit percent field, a missing price or previous-close
      text, or a price or previous close that is not a finite number, gives a
      null change percent. */
  lemma UnderivablePercentIsNull(raw: Option<AlphaJson>, symbol: string, toNumber: string -> Num)
    requires GlobalQuoteOf(raw).Some?
    requires !TruthyText(ChangePercentText(GlobalQuoteOf(raw).value))
    requires var g := GlobalQuoteOf(raw).value;
             PriceText(g).None? || PreviousCloseText(g).None?
             || !IsFinite(toNumber(PriceText(g).value)) || !IsFinite(toNumber(PreviousCloseText(g).value))
    ensures NormalizeAlphaVantageQuote(raw, symbol, toNumber).value.changePercent.None?
  {
  }

  /** With no explicit percent field and a previous close of 0, the derived
      percentage is not finite and comes out as null instead. */
  lemma ZeroPreviousCloseGivesNullPercent(raw: Option<AlphaJson>, symbol: string, toNumber: string -> Num)
    requires GlobalQuoteOf(raw).Some?
    requires !TruthyText(ChangePercentText(GlobalQuoteOf(raw).value))
    requires PriceText(GlobalQuoteOf(raw).value).Some? && PreviousCloseText(GlobalQuoteOf(raw).value).Some?
    requires toNumber(PreviousCloseText(GlobalQuoteOf(raw).value).value) == Finite(0.0)
    ensures NormalizeAlphaVantageQuote(raw, symbol, toNumber).value.changePercent.None?
  {
  }

  /** When both numbers are finite and the previous close is not 0, the derived
      percentage is `(price - previousClose) / previousClose * 100`. */
  lemma DerivedChangePercent(raw: Option<AlphaJson>, symbol: string, toNumber: string -> Num, p: real, v: real)
    requires GlobalQuoteOf(raw).Some?
    requires !TruthyText(ChangePercentText(GlobalQuoteOf(raw).value))
    requires PriceText(GlobalQuoteOf(raw).value).Some? && PreviousCloseText(GlobalQuoteOf(raw).value).Some?
    requires toNumber(PriceText(GlobalQuoteOf(raw).value).value) == Finite(p)
    requires toNumber(PreviousCloseText(GlobalQuoteOf(raw).value).value) == Finite(v)
    requires v != 0.0
    ensures NormalizeAlphaVantageQuote(raw, symbol, toNumber).value.changePercent
              == Some(Number(Finite((p - v) / v * 100.0)))
  {
  }
}

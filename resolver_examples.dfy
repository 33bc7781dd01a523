/** Concrete resolutions of services/quotes.js worked through the reference
    definition `Resolver.Resolve`: mixed-case and padded duplicates collapse to
    one row, a symbol nobody answers comes out as not-found, and a fully cached
    request is served from the cache. */
module ResolverExamples {
  import opened Wrappers
  import opened Collections
  import opened JsStrings
  import opened QuoteTypes
  import opened QuoteCache
  import opened Providers
  import opened Resolver
  import opened ResolverFacts

  lemma UpperOfLowercase()
    ensures ToUpper("aapl") == "AAPL"
  {
  }

  lemma UpperOfUppercase(s: string)
    requires s == "AAPL" || s == "MSFT"
    ensures ToUpper(s) == s
  {
  }

  lemma TrimOfUnpadded(s: string)
    requires s == "aapl" || s == "AAPL" || s == "MSFT"
    ensures Trim(s) == s
  {
    TrimOfTrimmed(s);
  }

  lemma TrimStartOfPadded()
    ensures TrimStart(" AAPL ") == "AAPL "
  {
    var s := " AAPL ";
    assert s[0] == ' ' && IsTrimmable(s[0]);
    assert s[1..] == "AAPL ";
    var t := "AAPL ";
    assert t[0] == 'A' && !IsTrimmable(t[0]);
  }

  lemma TrimEndOfPadded()
    ensures TrimEnd("AAPL ") == "AAPL"
  {
    var s := "AAPL ";
    assert s[|s| - 1] == ' ' && IsTrimmable(s[|s| - 1]);
    assert s[..|s| - 1] == "AAPL";
    var t := "AAPL";
    assert t[|t| - 1] == 'L' && !IsTrimmable(t[|t| - 1]);
  }

  /** Surrounding spaces are trimmed away. */
  lemma TrimOfPadded()
    ensures Trim(" AAPL ") == "AAPL"
  {
    TrimStartOfPadded();
    TrimEndOfPadded();
  }

  lemma CanonicalOfLowercase()
    ensures Canonical("aapl") == "AAPL"
  {
    TrimOfUnpadded("aapl");
    UpperOfLowercase();
  }

  lemma CanonicalOfPadded()
    ensures Canonical(" AAPL ") == "AAPL"
  {
    TrimOfPadded();
    UpperOfUppercase("AAPL");
  }

  lemma CanonicalOfUppercase()
    ensures Canonical("MSFT") == "MSFT"
  {
    TrimOfUnpadded("MSFT");
    UpperOfUppercase("MSFT");
  }

  /** Three symbols, none blank, canonicalise one for one. */
  lemma CanonicalSymbolsOfThree(a: string, b: string, c: string)
    requires Canonical(a) != "" && Canonical(b) != "" && Canonical(c) != ""
    ensures CanonicalSymbols([a, b, c]) == [Canonical(a), Canonical(b), Canonical(c)]
  {
    var xs := [a, b, c];
    assert xs[..2] == [a, b] && [a, b][..1] == [a] && [a][..0] == [];
    assert CanonicalSymbols([a]) == [Canonical(a)];
    assert CanonicalSymbols([a, b]) == [Canonical(a), Canonical(b)];
  }

  /** A repeated element followed by a different one de-duplicates to two. */
  lemma DedupRepeatThenOther(x: string, y: string)
    requires x != y
    ensures Dedup([x, x, y]) == [x, y]
  {
    var cs := [x, x, y];
    assert cs[..2] == [x, x] && cs[..2][..1] == [x] && [x][..0] == [];
    assert Dedup([x]) == [x];
    assert Dedup(cs[..2]) == [x];
  }

  /** Two spellings of one symbol followed by a different symbol give two rows:
      the shared canonical form, then the other. */
  lemma CaseAndSpaceCollapse(a: string, b: string, c: string)
    requires Canonical(a) != "" && Canonical(b) == Canonical(a)
    requires Canonical(c) != "" && Canonical(c) != Canonical(a)
    ensures UniqueSymbols([a, b, c]) == [Canonical(a), Canonical(c)]
  {
    CanonicalSymbolsOfThree(a, b, c);
    DedupRepeatThenOther(Canonical(a), Canonical(c));
  }

  /** `["aapl", " AAPL ", "MSFT"]` collapses to `["AAPL", "MSFT"]`. */
  lemma UniqueSymbolsExample()
    ensures UniqueSymbols(["aapl", " AAPL ", "MSFT"]) == ["AAPL", "MSFT"]
  {
    CanonicalOfLowercase();
    CanonicalOfPadded();
    CanonicalOfUppercase();
    assert "MSFT" != "AAPL" by { assert "MSFT"[0] != "AAPL"[0]; }
    CaseAndSpaceCollapse("aapl", " AAPL ", "MSFT");
  }

  /** With an empty cache every symbol is a miss and nothing is served from it. */
  lemma {:induction false} ColdCache(u: seq<string>, now: int)
    ensures Misses(u, map[], now) == u && Hits(u, map[], now) == []
    decreases |u|
  {
    if |u| > 0 {
      ColdCache(u[..|u| - 1], now);
      assert u[..|u| - 1] + [u[|u| - 1]] == u;
    }
  }

  /** On a cold cache with no Alpha Vantage key, the quotes served are exactly
      the Yahoo batch. */
  lemma ColdCacheProduced(symbols: seq<string>, u: seq<string>, up: Upstream, q: Quote, now: int)
    requires UniqueSymbols(symbols) == u
    requires Misses(u, map[], now) == u && Hits(u, map[], now) == []
    requires FetchYahoo(up, u) == [q]
    requires !AlphaRequested(up)
    ensures Produced(symbols, map[], up, now) == [q]
  {
    assert YahooResults(symbols, map[], up, now) == [q];
    NoAlphaWithoutKey(up, Missing(symbols, map[], up, now));
    assert Produced(symbols, map[], up, now) == [] + [q] + [];
  }

  /** A Yahoo answer for AAPL alone assembles to a found row and a not-found row. */
  lemma AssembleAaplOnly(q: Quote)
    requires q.symbol == "AAPL"
    ensures Assemble(["AAPL", "MSFT"], [q]) == [Found(q), NotFound("MSFT")]
  {
    assert "MSFT" != "AAPL" by { assert "MSFT"[0] != "AAPL"[0]; }
    assert LastIndex([q], "MSFT") == -1;
    assert LastIndex([q], "AAPL") == 0;
  }

  lemma ColdCacheRows(symbols: seq<string>, u: seq<string>, up: Upstream, q: Quote, now: int)
    requires u == ["AAPL", "MSFT"] && UniqueSymbols(symbols) == u
    requires q.symbol == "AAPL"
    requires FetchYahoo(up, u) == [q]
    requires !AlphaRequested(up)
    ensures Rows(symbols, map[], up, now) == [Found(q), NotFound("MSFT")]
  {
    ColdCache(u, now);
    ColdCacheProduced(symbols, u, up, q, now);
    AssembleAaplOnly(q);
  }

  /** `["aapl", " AAPL ", "MSFT"]` on an empty cache, Yahoo answering only AAPL
      and no Alpha Vantage key: one row for AAPL holding Yahoo's quote (whatever
      its price, null included), then a not-found row for MSFT. */
  lemma ResolveExample(up: Upstream, q: Quote, ttl: int, now: int)
    requires q.symbol == "AAPL"
    requires FetchYahoo(up, ["AAPL", "MSFT"]) == [q]
    requires !AlphaRequested(up)
    ensures Resolve(["aapl", " AAPL ", "MSFT"], map[], up, ttl, now).results == [Found(q), NotFound("MSFT")]
    ensures Resolve(["aapl", " AAPL ", "MSFT"], map[], up, ttl, now).alphaRequests == []
  {
    UniqueSymbolsExample();
    ColdCacheRows(["aapl", " AAPL ", "MSFT"], ["AAPL", "MSFT"], up, q, now);
  }

  /** A request for a single canonical symbol is that symbol alone. */
  lemma SingleCanonical(s: string)
    requires Canonical(s) == s && s != ""
    ensures UniqueSymbols([s]) == [s]
  {
    assert [s][..0] == [];
    assert CanonicalSymbols([s]) == [s];
  }

  /** A warm single-symbol request fetches nothing and serves the cached quote. */
  lemma WarmCacheProduced(s: string, m: map<string, Entry>, up: Upstream, now: int)
    requires UniqueSymbols([s]) == [s]
    requires Live(m, s, now)
    requires FetchYahoo(up, []) == []
    ensures Produced([s], m, up, now) == [m[s].data]
    ensures ToFetch([s], m, now) == [] && Missing([s], m, up, now) == []
  {
    ProducedFromCache([s], [s], m, up, now);
    assert [s][..0] == [];
  }

  /** The rows of a warm single-symbol request: the cached quote. */
  lemma WarmCacheRows(s: string, m: map<string, Entry>, up: Upstream, now: int)
    requires UniqueSymbols([s]) == [s]
    requires Live(m, s, now) && m[s].data.symbol == s
    requires FetchYahoo(up, []) == []
    ensures Rows([s], m, up, now) == [Found(m[s].data)]
    ensures ToFetch([s], m, now) == [] && Missing([s], m, up, now) == []
  {
    WarmCacheProduced(s, m, up, now);
    var q := m[s].data;
    assert LastIndex([q], s) == 0;
    assert Rows([s], m, up, now) == Assemble([s], [q]);
  }

  /** A warm single-symbol request leaves the cache as it was. */
  lemma WarmCacheFinal(s: string, m: map<string, Entry>, up: Upstream, ttl: int, now: int)
    requires UniqueSymbols([s]) == [s]
    requires Live(m, s, now)
    requires FetchYahoo(up, []) == []
    ensures FinalEntries([s], m, up, ttl, now) == m
  {
    FinalFromCache([s], [s], m, up, ttl, now);
  }

  /** A request for one canonical symbol with a live entry holding a quote for
      it is answered from the cache, leaves the cache as it was and asks Alpha
      Vantage for nothing; the Yahoo client, when loaded, is still called, with
      an empty batch. */
  lemma WarmCacheExample(s: string, m: map<string, Entry>, up: Upstream, ttl: int, now: int)
    requires Canonical(s) == s && s != ""
    requires Live(m, s, now) && m[s].data.symbol == s
    requires FetchYahoo(up, []) == []
    ensures var r := Resolve([s], m, up, ttl, now);
            && r.results == [Found(m[s].data)]
            && r.entries == m
            && r.yahooRequests == (if up.yahoo.Client? then [[]] else [])
            && r.alphaRequests == []
  {
    SingleCanonical(s);
    WarmCacheRows(s, m, up, now);
    WarmCacheFinal(s, m, up, ttl, now);
  }
}

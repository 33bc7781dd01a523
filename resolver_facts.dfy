/** What the quote resolver of services/quotes.js promises, proved about
    the reference definition `Resolver.Resolve` (which `GetQuotesRaw` is proved
    to agree with). */
module ResolverFacts {
  import opened Wrappers
  import opened Collections
  import opened JsStrings
  import opened QuoteTypes
  import opened QuoteCache
  import opened Providers
  import opened Resolver

  // ---------------------------------------------------------------- cache phase

  /** `toFetch` holds exactly the symbols of `u` that have no live entry. */
  lemma {:induction false} MissesMembership(u: seq<string>, m: map<string, Entry>, now: int, s: string)
    ensures s in Misses(u, m, now) <==> s in u && !Live(m, s, now)
    decreases |u|
  {
    if |u| > 0 {
      var p := u[..|u| - 1];
      MissesMembership(p, m, now, s);
      assert u == p + [u[|u| - 1]];
    }
  }

  /** `toFetch` keeps the order of `unique`: filtering commutes with concatenation. */
  lemma {:induction false} MissesConcat(a: seq<string>, b: seq<string>, m: map<string, Entry>, now: int)
    ensures Misses(a + b, m, now) == Misses(a, m, now) + Misses(b, m, now)
    decreases |b|
  {
    if |b| > 0 {
      var b' := b[..|b| - 1];
      assert (a + b)[..|a + b| - 1] == a + b';
      MissesConcat(a, b', m, now);
    } else {
      assert a + b == a;
    }
  }

  /** When every symbol has a live entry nothing is fetched, every cached quote is
      served in order, and reading the cache changes nothing. */
  lemma {:induction false} AllLive(u: seq<string>, m: map<string, Entry>, now: int)
    requires forall k :: 0 <= k < |u| ==> Live(m, u[k], now)
    ensures Misses(u, m, now) == []
    ensures EvictAll(m, u, now) == m
    ensures |Hits(u, m, now)| == |u|
    ensures forall k :: 0 <= k < |u| ==> u[k] in m && Hits(u, m, now)[k] == m[u[k]].data
    decreases |u|
  {
    if |u| > 0 {
      var p := u[..|u| - 1];
      assert forall k :: 0 <= k < |p| ==> p[k] == u[k];
      AllLive(p, m, now);
    }
  }

  /** Every cached quote served comes from a live entry of a requested symbol. */
  lemma {:induction false} HitSource(u: seq<string>, m: map<string, Entry>, now: int, k: nat) returns (j: nat)
    requires k < |Hits(u, m, now)|
    ensures j < |u| && Live(m, u[j], now) && Hits(u, m, now)[k] == m[u[j]].data
    decreases |u|
  {
    var p := u[..|u| - 1];
    if k < |Hits(p, m, now)| {
      j := HitSource(p, m, now, k);
    } else {
      j := |u| - 1;
    }
  }

  /** Every live requested symbol has its cached quote pushed to `out`. */
  lemma {:induction false} HitsCover(u: seq<string>, m: map<string, Entry>, now: int, j: nat)
    requires j < |u| && Live(m, u[j], now)
    ensures m[u[j]].data in Hits(u, m, now)
    decreases |u|
  {
    var p := u[..|u| - 1];
    if j < |p| {
      HitsCover(p, m, now, j);
    }
  }

  /** After reading the symbols of `u`, a symbol of `u` is present exactly when its
      entry was live, and then unchanged. */
  lemma {:induction false} EvictAllAt(m: map<string, Entry>, u: seq<string>, now: int, x: string)
    requires x in u
    ensures x in EvictAll(m, u, now) <==> Live(m, x, now)
    ensures Live(m, x, now) ==> EvictAll(m, u, now)[x] == m[x]
    decreases |u|
  {
    var p := u[..|u| - 1];
    if x in p {
      EvictAllAt(m, p, now, x);
    } else {
      EvictAllElsewhere(m, p, now, x);
    }
  }

  // ---------------------------------------------------------------- cache writes

  /** Storing the Yahoo quotes leaves every other symbol untouched. */
  lemma {:induction false} StoreAllElsewhere(m: map<string, Entry>, qs: seq<Quote>, ttl: int, now: int, x: string)
    requires x !in SymbolsOf(qs)
    ensures (x in StoreAll(m, qs, ttl, now) <==> x in m)
    ensures x in m ==> StoreAll(m, qs, ttl, now)[x] == m[x]
    decreases |qs|
  {
    if |qs| > 0 {
      var p := qs[..|qs| - 1];
      assert forall k :: 0 <= k < |p| ==> p[k] == qs[k];
      StoreAllElsewhere(m, p, ttl, now, x);
    }
  }

  /** Each Yahoo quote is cached under its own symbol; when several share a symbol
      the last one stays. */
  lemma {:induction false} StoreAllAt(m: map<string, Entry>, qs: seq<Quote>, ttl: int, now: int, x: string)
    requires x in SymbolsOf(qs)
    ensures LastIndex(qs, x) >= 0
    ensures x in StoreAll(m, qs, ttl, now)
    ensures StoreAll(m, qs, ttl, now)[x] == Entry(qs[LastIndex(qs, x)], now + ttl)
    decreases |qs|
  {
    var n := |qs| - 1;
    var p := qs[..n];
    if qs[n].symbol != x {
      assert x in SymbolsOf(p) by {
        var k :| 0 <= k < |qs| && qs[k].symbol == x;
        assert k < n && p[k] == qs[k];
      }
      StoreAllAt(m, p, ttl, now, x);
    }
  }

  /** Alpha Vantage answers are cached under the requested symbol only. */
  lemma {:induction false} StoreAlphaAt(m: map<string, Entry>, up: Upstream, ss: seq<string>, ttl: int, now: int, x: string)
    ensures x in ss && AlphaQuote(up, x).Some? ==>
              x in StoreAlpha(m, up, ss, ttl, now)
              && StoreAlpha(m, up, ss, ttl, now)[x] == Entry(AlphaQuote(up, x).value, now + ttl)
    ensures !(x in ss && AlphaQuote(up, x).Some?) ==>
              (x in StoreAlpha(m, up, ss, ttl, now) <==> x in m)
              && (x in m ==> StoreAlpha(m, up, ss, ttl, now)[x] == m[x])
    decreases |ss|
  {
    if |ss| > 0 {
      var p, s := ss[..|ss| - 1], ss[|ss| - 1];
      StoreAlphaAt(m, up, p, ttl, now, x);
      assert ss == p + [s];
      assert x in ss <==> x in p || x == s;
      var m' := StoreAlpha(m, up, p, ttl, now);
      var r := StoreAlpha(m, up, ss, ttl, now);
      if AlphaQuote(up, s).Some? {
        assert r == Store(m', s, AlphaQuote(up, s).value, ttl, now);
        if x != s {
          assert (x in r <==> x in m') && (x in r ==> r[x] == m'[x]);
        }
      } else {
        assert r == m';
      }
    }
  }

  /** Every Alpha Vantage quote served answers one of the symbols asked for. */
  lemma {:induction false} AlphaSource(up: Upstream, ss: seq<string>, k: nat) returns (j: nat)
    requires k < |AlphaFound(up, ss)|
    ensures j < |ss| && AlphaQuote(up, ss[j]) == Some(AlphaFound(up, ss)[k])
    decreases |ss|
  {
    var p := ss[..|ss| - 1];
    if k < |AlphaFound(up, p)| {
      j := AlphaSource(up, p, k);
    } else {
      j := |ss| - 1;
    }
  }

  /** Every answer Alpha Vantage gives for a symbol asked for is pushed to `out`. */
  lemma {:induction false} AlphaFoundCover(up: Upstream, ss: seq<string>, j: nat)
    requires j < |ss| && AlphaQuote(up, ss[j]).Some?
    ensures AlphaQuote(up, ss[j]).value in AlphaFound(up, ss)
    decreases |ss|
  {
    var p := ss[..|ss| - 1];
    if j < |p| {
      AlphaFoundCover(up, p, j);
    }
  }

  /** The last quote with a symbol in a concatenation. */
  lemma {:induction false} LastIndexConcat(a: seq<Quote>, b: seq<Quote>, s: string)
    ensures LastIndex(b, s) >= 0 ==> LastIndex(a + b, s) == |a| + LastIndex(b, s)
    ensures LastIndex(b, s) < 0 ==> LastIndex(a + b, s) == LastIndex(a, s)
    decreases |b|
  {
    if |b| > 0 {
      var b' := b[..|b| - 1];
      assert (a + b)[..|a + b| - 1] == a + b';
      LastIndexConcat(a, b', s);
    } else {
      assert a + b == a;
    }
  }

  /** The last quote with a symbol in `a + b + c` is the last one in `c` if
      `c` has one, else the last one in `b` if `b` has one, else the last one in `a`. */
  lemma LastIndexParts(a: seq<Quote>, b: seq<Quote>, c: seq<Quote>, s: string)
    requires LastIndex(a + b + c, s) >= 0
    ensures LastIndex(c, s) >= 0 ==> (a + b + c)[LastIndex(a + b + c, s)] == c[LastIndex(c, s)]
    ensures LastIndex(c, s) < 0 && LastIndex(b, s) >= 0 ==> (a + b + c)[LastIndex(a + b + c, s)] == b[LastIndex(b, s)]
    ensures LastIndex(c, s) < 0 && LastIndex(b, s) < 0 ==>
              var L := LastIndex(a + b + c, s);
              L < |a| && a[L].symbol == s && (a + b + c)[L] == a[L]
  {
    LastIndexConcat(a + b, c, s);
    LastIndexConcat(a, b, s);
  }

  // ---------------------------------------------------------------- the pipeline

  /** An input with no non-blank symbol returns `[]` before any cache read or
      provider call. */
  lemma ResolveEmpty(symbols: seq<string>, m: map<string, Entry>, up: Upstream, ttl: int, now: int)
    requires forall k :: 0 <= k < |symbols| ==> Canonical(symbols[k]) == ""
    ensures Resolve(symbols, m, up, ttl, now) == Resolution([], m, [], [])
  {
    MapNonEmptyBlank(symbols, Canonical);
  }

  /** One row per distinct canonical symbol, each row carrying its symbol. */
  lemma ResolveRows(symbols: seq<string>, m: map<string, Entry>, up: Upstream, ttl: int, now: int)
    ensures |Resolve(symbols, m, up, ttl, now).results| == |UniqueSymbols(symbols)|
    ensures forall i :: 0 <= i < |UniqueSymbols(symbols)| ==>
              ResultSymbol(Resolve(symbols, m, up, ttl, now).results[i]) == UniqueSymbols(symbols)[i]
  {
  }

  /** The rows come in first-occurrence order: an earlier row's symbol first
      appears earlier in the request. */
  lemma ResolveRowOrder(symbols: seq<string>, m: map<string, Entry>, up: Upstream, ttl: int, now: int, i: nat, j: nat)
    requires i < j < |Resolve(symbols, m, up, ttl, now).results|
    ensures FirstIndex(CanonicalSymbols(symbols), UniqueSymbols(symbols)[i])
              < FirstIndex(CanonicalSymbols(symbols), UniqueSymbols(symbols)[j])
  {
    DedupFirstOccurrenceOrder(CanonicalSymbols(symbols), i, j);
  }

  /** A row is a quote exactly when some quote served (cache, then Yahoo, then
      Alpha Vantage) carries that symbol, and then it is the last such quote. */
  lemma ResolveRowContents(symbols: seq<string>, m: map<string, Entry>, up: Upstream, ttl: int, now: int, i: nat)
    requires UniqueSymbols(symbols) != []
    requires i < |UniqueSymbols(symbols)|
    ensures var r := Resolve(symbols, m, up, ttl, now).results[i];
            var out := Produced(symbols, m, up, now);
            var k := LastIndex(out, UniqueSymbols(symbols)[i]);
            (r.Found? <==> k >= 0) && (r.Found? ==> r.quote == out[k])
  {
  }

  /** Only cache misses are sent upstream: the Yahoo batch is exactly `toFetch`,
      whose members are the symbols without a live entry, and Alpha Vantage is
      asked only for members of `toFetch` that Yahoo did not answer, in order,
      and only when a key is configured. */
  lemma ResolveRequests(symbols: seq<string>, m: map<string, Entry>, up: Upstream, ttl: int, now: int, s: string)
    requires UniqueSymbols(symbols) != []
    ensures var r := Resolve(symbols, m, up, ttl, now);
            && r.yahooRequests == (if up.yahoo.Client? then [ToFetch(symbols, m, now)] else [])
            && (s in ToFetch(symbols, m, now) <==> s in UniqueSymbols(symbols) && !Live(m, s, now))
            && (s in r.alphaRequests <==>
                  AlphaRequested(up) && s in ToFetch(symbols, m, now)
                  && s !in SymbolsOf(YahooResults(symbols, m, up, now)))
  {
    MissesMembership(UniqueSymbols(symbols), m, now, s);
  }

  /** A symbol with a live cache entry is never passed to either provider. */
  lemma CacheHitNeverFetched(symbols: seq<string>, m: map<string, Entry>, up: Upstream, ttl: int, now: int, s: string)
    requires s in UniqueSymbols(symbols) && Live(m, s, now)
    ensures forall b :: b in Resolve(symbols, m, up, ttl, now).yahooRequests ==> s !in b
    ensures s !in Resolve(symbols, m, up, ttl, now).alphaRequests
  {
    assert UniqueSymbols(symbols) != [];
    ResolveRequests(symbols, m, up, ttl, now, s);
    assert s !in ToFetch(symbols, m, now);
  }

  /** After a resolution, a symbol neither requested nor returned by Yahoo has
      the entry it had before (or none). */
  lemma CacheUntouchedElsewhere(symbols: seq<string>, m: map<string, Entry>, up: Upstream, ttl: int, now: int, t: string)
    requires t !in UniqueSymbols(symbols) && t !in SymbolsOf(YahooResults(symbols, m, up, now))
    ensures (t in FinalEntries(symbols, m, up, ttl, now) <==> t in m)
    ensures t in m ==> FinalEntries(symbols, m, up, ttl, now)[t] == m[t]
  {
    var u := UniqueSymbols(symbols);
    var yahoo := YahooResults(symbols, m, up, now);
    var missing := Missing(symbols, m, up, now);
    var m1 := EvictAll(m, u, now);
    MissesMembership(u, m, now, t);
    assert t !in missing;
    StoreAlphaAt(StoreAll(m1, yahoo, ttl, now), up, missing, ttl, now, t);
    StoreAllElsewhere(m1, yahoo, ttl, now, t);
    EvictAllElsewhere(m, u, now, t);
  }

  /** Each Yahoo quote ends up cached under its own symbol, the last one when
      several share a symbol, with a fresh expiry. */
  lemma YahooQuotesCached(symbols: seq<string>, m: map<string, Entry>, up: Upstream, ttl: int, now: int, t: string)
    requires t in SymbolsOf(YahooResults(symbols, m, up, now))
    ensures LastIndex(YahooResults(symbols, m, up, now), t) >= 0
    ensures t in FinalEntries(symbols, m, up, ttl, now)
    ensures FinalEntries(symbols, m, up, ttl, now)[t]
              == Entry(YahooResults(symbols, m, up, now)[LastIndex(YahooResults(symbols, m, up, now), t)], now + ttl)
  {
    var u := UniqueSymbols(symbols);
    var yahoo := YahooResults(symbols, m, up, now);
    var missing := Missing(symbols, m, up, now);
    var m1 := EvictAll(m, u, now);
    assert t !in missing;
    StoreAlphaAt(StoreAll(m1, yahoo, ttl, now), up, missing, ttl, now, t);
    StoreAllAt(m1, yahoo, ttl, now, t);
  }

  /** Each Alpha Vantage answer ends up cached under the symbol it was asked for,
      with a fresh expiry. */
  lemma AlphaQuotesCached(symbols: seq<string>, m: map<string, Entry>, up: Upstream, ttl: int, now: int, t: string)
    requires t in Missing(symbols, m, up, now) && AlphaQuote(up, t).Some?
    ensures t in FinalEntries(symbols, m, up, ttl, now)
    ensures FinalEntries(symbols, m, up, ttl, now)[t] == Entry(AlphaQuote(up, t).value, now + ttl)
  {
    var yahoo := YahooResults(symbols, m, up, now);
    var m1 := EvictAll(m, UniqueSymbols(symbols), now);
    StoreAlphaAt(StoreAll(m1, yahoo, ttl, now), up, Missing(symbols, m, up, now), ttl, now, t);
  }

  /** A requested symbol that no provider wrote keeps a live entry unchanged and
      has lost an expired one (lazy eviction). */
  lemma UnwrittenRequestedSymbol(symbols: seq<string>, m: map<string, Entry>, up: Upstream, ttl: int, now: int, t: string)
    requires t in UniqueSymbols(symbols) && t !in SymbolsOf(YahooResults(symbols, m, up, now))
    requires !(t in Missing(symbols, m, up, now) && AlphaQuote(up, t).Some?)
    ensures t in FinalEntries(symbols, m, up, ttl, now) <==> Live(m, t, now)
    ensures Live(m, t, now) ==> FinalEntries(symbols, m, up, ttl, now)[t] == m[t]
  {
    var u := UniqueSymbols(symbols);
    var yahoo := YahooResults(symbols, m, up, now);
    var missing := Missing(symbols, m, up, now);
    var m1 := EvictAll(m, u, now);
    StoreAlphaAt(StoreAll(m1, yahoo, ttl, now), up, missing, ttl, now, t);
    StoreAllElsewhere(m1, yahoo, ttl, now, t);
    EvictAllAt(m, u, now, t);
  }

  /** A requested symbol for which neither the cache, nor Yahoo, nor Alpha Vantage
      supplies a quote carrying it comes out as not-found. */
  lemma NotFoundWhenUnanswered(symbols: seq<string>, m: map<string, Entry>, up: Upstream, ttl: int, now: int, i: nat)
    requires i < |UniqueSymbols(symbols)|
    requires forall s :: s in UniqueSymbols(symbols) && Live(m, s, now) ==> m[s].data.symbol != UniqueSymbols(symbols)[i]
    requires forall q :: q in YahooResults(symbols, m, up, now) ==> q.symbol != UniqueSymbols(symbols)[i]
    requires !AlphaRequested(up)
    ensures Resolve(symbols, m, up, ttl, now).results[i] == NotFound(UniqueSymbols(symbols)[i])
  {
    var u := UniqueSymbols(symbols);
    var s := u[i];
    var hits := Hits(u, m, now);
    var yahoo := YahooResults(symbols, m, up, now);
    var missing := Missing(symbols, m, up, now);
    assert AlphaFound(up, missing) == [] by { NoAlphaWithoutKey(up, missing); }
    var out := Produced(symbols, m, up, now);
    assert out == hits + yahoo;
    if LastIndex(out, s) >= 0 {
      var k := LastIndex(out, s);
      if k < |hits| {
        var j := HitSource(u, m, now, k);
      }
      assert false;
    }
  }

  /** A requested symbol with a live entry, in a cache that keeps every quote
      under its own symbol, comes back as its cached quote when no provider
      returns a quote carrying it. */
  lemma LiveHitFound(symbols: seq<string>, m: map<string, Entry>, up: Upstream, ttl: int, now: int, i: nat)
    requires Consistent(m)
    requires i < |UniqueSymbols(symbols)| && Live(m, UniqueSymbols(symbols)[i], now)
    requires forall q :: q in YahooResults(symbols, m, up, now) ==> q.symbol != UniqueSymbols(symbols)[i]
    requires forall q :: q in AlphaFound(up, Missing(symbols, m, up, now)) ==> q.symbol != UniqueSymbols(symbols)[i]
    ensures Resolve(symbols, m, up, ttl, now).results[i] == Found(m[UniqueSymbols(symbols)[i]].data)
  {
    var u := UniqueSymbols(symbols);
    var s := u[i];
    var hits := Hits(u, m, now);
    var yahoo := YahooResults(symbols, m, up, now);
    var alpha := AlphaFound(up, Missing(symbols, m, up, now));
    var out := Produced(symbols, m, up, now);
    assert out == hits + yahoo + alpha;
    HitsCover(u, m, now, i);
    var h :| 0 <= h < |hits| && hits[h] == m[s].data;
    assert out[h].symbol == s;
    var L := LastIndex(out, s);
    assert L >= 0;
    LastIndexParts(hits, yahoo, alpha, s);
    var j := HitSource(u, m, now, L);
    assert u[j] == s;
    ResolveRowContents(symbols, m, up, ttl, now, i);
  }

  /** Without an API key Alpha Vantage supplies nothing. */
  lemma {:induction false} NoAlphaWithoutKey(up: Upstream, ss: seq<string>)
    requires !AlphaRequested(up)
    ensures AlphaFound(up, ss) == []
    decreases |ss|
  {
    if |ss| > 0 {
      NoAlphaWithoutKey(up, ss[..|ss| - 1]);
    }
  }

  // ---------------------------------------------------------------- idempotence

  /** Every entry is stored under the symbol of its own quote. */
  ghost predicate Consistent(m: map<string, Entry>) {
    forall s :: s in m ==> m[s].data.symbol == s
  }

  /** Alpha Vantage answers each symbol with a quote for that symbol. */
  ghost predicate AlphaFaithful(up: Upstream) {
    forall s :: AlphaQuote(up, s).Some? ==> AlphaQuote(up, s).value.symbol == s
  }

  /** When Alpha Vantage answers with the symbol asked for, a resolution keeps
      every cache entry under its own quote's symbol. */
  lemma ResolveKeepsConsistent(symbols: seq<string>, m: map<string, Entry>, up: Upstream, ttl: int, now: int)
    requires Consistent(m) && AlphaFaithful(up)
    ensures Consistent(Resolve(symbols, m, up, ttl, now).entries)
  {
    if UniqueSymbols(symbols) != [] {
      var e := FinalEntries(symbols, m, up, ttl, now);
      forall t | t in e ensures e[t].data.symbol == t {
        var yahoo := YahooResults(symbols, m, up, now);
        if t in SymbolsOf(yahoo) {
          YahooQuotesCached(symbols, m, up, ttl, now, t);
        } else if t in Missing(symbols, m, up, now) && AlphaQuote(up, t).Some? {
          AlphaQuotesCached(symbols, m, up, ttl, now, t);
        } else if t in UniqueSymbols(symbols) {
          UnwrittenRequestedSymbol(symbols, m, up, ttl, now, t);
        } else {
          CacheUntouchedElsewhere(symbols, m, up, ttl, now, t);
        }
      }
    }
  }

  /** After a resolution, every symbol that was found has a live entry holding
      the very quote that was returned for it. */
  lemma FoundAreCached(symbols: seq<string>, m: map<string, Entry>, up: Upstream, ttl: int, now: int, i: nat)
    requires Consistent(m) && AlphaFaithful(up) && ttl > 0
    requires i < |UniqueSymbols(symbols)|
    requires Rows(symbols, m, up, now)[i].Found?
    ensures Live(FinalEntries(symbols, m, up, ttl, now), UniqueSymbols(symbols)[i], now)
    ensures FinalEntries(symbols, m, up, ttl, now)[UniqueSymbols(symbols)[i]].data == Rows(symbols, m, up, now)[i].quote
  {
    var u := UniqueSymbols(symbols);
    var out := Produced(symbols, m, up, now);
    assert Rows(symbols, m, up, now) == Assemble(u, out);
    FoundEntry(symbols, m, up, ttl, now, u[i]);
  }

  /** The last quote served for a symbol is what the cache then holds for it. */
  lemma FoundEntry(symbols: seq<string>, m: map<string, Entry>, up: Upstream, ttl: int, now: int, s: string)
    requires Consistent(m) && AlphaFaithful(up) && ttl > 0
    requires LastIndex(Produced(symbols, m, up, now), s) >= 0
    ensures Live(FinalEntries(symbols, m, up, ttl, now), s, now)
    ensures FinalEntries(symbols, m, up, ttl, now)[s].data
              == Produced(symbols, m, up, now)[LastIndex(Produced(symbols, m, up, now), s)]
  {
    var hits := Hits(UniqueSymbols(symbols), m, now);
    var yahoo := YahooResults(symbols, m, up, now);
    var alpha := AlphaFound(up, Missing(symbols, m, up, now));
    var L := LastIndex(Produced(symbols, m, up, now), s);
    assert Produced(symbols, m, up, now) == hits + yahoo + alpha;
    LastIndexParts(hits, yahoo, alpha, s);
    if LastIndex(alpha, s) >= 0 {
      FoundFromAlpha(symbols, m, up, ttl, now, s, LastIndex(alpha, s));
    } else if LastIndex(yahoo, s) >= 0 {
      FoundFromYahoo(symbols, m, up, ttl, now, s);
    } else {
      FoundFromCache(symbols, m, up, ttl, now, s, L);
    }
  }

  lemma FoundFromAlpha(symbols: seq<string>, m: map<string, Entry>, up: Upstream, ttl: int, now: int, s: string, k: nat)
    requires AlphaFaithful(up) && ttl > 0
    requires k < |AlphaFound(up, Missing(symbols, m, up, now))|
    requires AlphaFound(up, Missing(symbols, m, up, now))[k].symbol == s
    ensures Live(FinalEntries(symbols, m, up, ttl, now), s, now)
    ensures FinalEntries(symbols, m, up, ttl, now)[s].data == AlphaFound(up, Missing(symbols, m, up, now))[k]
  {
    var missing := Missing(symbols, m, up, now);
    var j := AlphaSource(up, missing, k);
    assert missing[j] == s;
    AlphaQuotesCached(symbols, m, up, ttl, now, s);
  }

  lemma FoundFromYahoo(symbols: seq<string>, m: map<string, Entry>, up: Upstream, ttl: int, now: int, s: string)
    requires ttl > 0
    requires LastIndex(YahooResults(symbols, m, up, now), s) >= 0
    ensures Live(FinalEntries(symbols, m, up, ttl, now), s, now)
    ensures FinalEntries(symbols, m, up, ttl, now)[s].data
              == YahooResults(symbols, m, up, now)[LastIndex(YahooResults(symbols, m, up, now), s)]
  {
    var yahoo := YahooResults(symbols, m, up, now);
    assert s in SymbolsOf(yahoo) by { assert yahoo[LastIndex(yahoo, s)].symbol == s; }
    YahooQuotesCached(symbols, m, up, ttl, now, s);
  }

  lemma FoundFromCache(symbols: seq<string>, m: map<string, Entry>, up: Upstream, ttl: int, now: int, s: string, k: nat)
    requires Consistent(m)
    requires k < |Hits(UniqueSymbols(symbols), m, now)|
    requires Hits(UniqueSymbols(symbols), m, now)[k].symbol == s
    requires LastIndex(YahooResults(symbols, m, up, now), s) < 0
    ensures Live(FinalEntries(symbols, m, up, ttl, now), s, now)
    ensures FinalEntries(symbols, m, up, ttl, now)[s].data == Hits(UniqueSymbols(symbols), m, now)[k]
  {
    var u := UniqueSymbols(symbols);
    var yahoo := YahooResults(symbols, m, up, now);
    var j := HitSource(u, m, now, k);
    assert u[j] == s;
    assert s !in SymbolsOf(yahoo);
    MissesMembership(u, m, now, s);
    assert s !in Missing(symbols, m, up, now);
    UnwrittenRequestedSymbol(symbols, m, up, ttl, now, s);
  }

  /** Assembling the cached quotes of distinct symbols, each cached under its own
      symbol, gives each symbol its cached quote. */
  lemma AssembleHits(u: seq<string>, e: map<string, Entry>, now: int)
    requires NoDup(u)
    requires forall k :: 0 <= k < |u| ==> Live(e, u[k], now) && e[u[k]].data.symbol == u[k]
    ensures forall k :: 0 <= k < |u| ==> u[k] in e && Assemble(u, Hits(u, e, now))[k] == Found(e[u[k]].data)
  {
    var out := Hits(u, e, now);
    AllLive(u, e, now);
    forall i | 0 <= i < |u| ensures Assemble(u, out)[i] == Found(e[u[i]].data) {
      assert out[i].symbol == u[i];
      var L := LastIndex(out, u[i]);
      assert L >= i;
      assert out[L].symbol == u[L];
    }
  }

  /** When every requested symbol is live, nothing is fetched and the quotes
      produced are the cached ones. */
  lemma ProducedFromCache(symbols: seq<string>, u: seq<string>, e: map<string, Entry>, up: Upstream, now: int)
    requires u == UniqueSymbols(symbols)
    requires FetchYahoo(up, []) == []
    requires forall k :: 0 <= k < |u| ==> Live(e, u[k], now)
    ensures ToFetch(symbols, e, now) == []
    ensures YahooResults(symbols, e, up, now) == []
    ensures Missing(symbols, e, up, now) == []
    ensures Produced(symbols, e, up, now) == Hits(u, e, now)
  {
    AllLive(u, e, now);
    var t := ToFetch(symbols, e, now);
    assert t == [];
    var y := YahooResults(symbols, e, up, now);
    assert y == FetchYahoo(up, t);
    assert y == [];
    var ms := Missing(symbols, e, up, now);
    assert ms == StillMissing(t, SymbolsOf(y));
    assert ms == [];
    assert AlphaFound(up, ms) == [];
    var hits := Hits(u, e, now);
    assert Produced(symbols, e, up, now) == hits + y + AlphaFound(up, ms);
    assert hits + [] + [] == hits;
  }

  /** When every requested symbol is live the resolution leaves the cache as it was. */
  lemma FinalFromCache(symbols: seq<string>, u: seq<string>, e: map<string, Entry>, up: Upstream, ttl: int, now: int)
    requires u == UniqueSymbols(symbols)
    requires FetchYahoo(up, []) == []
    requires forall k :: 0 <= k < |u| ==> Live(e, u[k], now)
    ensures FinalEntries(symbols, e, up, ttl, now) == e
  {
    AllLive(u, e, now);
    ProducedFromCache(symbols, u, e, up, now);
    assert StoreAll(e, [], ttl, now) == e;
    assert StoreAlpha(e, up, [], ttl, now) == e;
  }

  /** The cache a resolution that found every symbol leaves behind serves the
      same rows again, fetching nothing and changing nothing. */
  lemma RepeatFromCache(symbols: seq<string>, m: map<string, Entry>, up: Upstream, ttl: int, now: int)
    requires Consistent(m) && AlphaFaithful(up) && ttl > 0
    requires FetchYahoo(up, []) == []
    requires forall i :: 0 <= i < |UniqueSymbols(symbols)| ==> Rows(symbols, m, up, now)[i].Found?
    ensures ToFetch(symbols, FinalEntries(symbols, m, up, ttl, now), now) == []
    ensures Missing(symbols, FinalEntries(symbols, m, up, ttl, now), up, now) == []
    ensures Rows(symbols, FinalEntries(symbols, m, up, ttl, now), up, now) == Rows(symbols, m, up, now)
    ensures FinalEntries(symbols, FinalEntries(symbols, m, up, ttl, now), up, ttl, now)
              == FinalEntries(symbols, m, up, ttl, now)
  {
    var u := UniqueSymbols(symbols);
    var rows := Rows(symbols, m, up, now);
    var e := FinalEntries(symbols, m, up, ttl, now);
    forall k | 0 <= k < |u| ensures Live(e, u[k], now) && e[u[k]].data == rows[k].quote && e[u[k]].data.symbol == u[k] {
      FoundAreCached(symbols, m, up, ttl, now, k);
      assert ResultSymbol(rows[k]) == u[k];
    }
    ProducedFromCache(symbols, u, e, up, now);
    FinalFromCache(symbols, u, e, up, ttl, now);
    AssembleHits(u, e, now);
    assert Rows(symbols, e, up, now) == Assemble(u, Hits(u, e, now));
  }

  /** Resolving the same symbols twice with no expiry in between: when the first
      call found every symbol (and the cache and Alpha Vantage keep quotes under
      their own symbols, and the Yahoo client returns nothing for an empty batch),
      the second call is served entirely from the cache, asks Alpha Vantage for
      nothing, and returns the same rows and the same cache. */
  lemma ResolveIdempotent(symbols: seq<string>, m: map<string, Entry>, up: Upstream, ttl: int, now: int)
    requires Consistent(m) && AlphaFaithful(up) && ttl > 0
    requires FetchYahoo(up, []) == []
    requires forall i :: 0 <= i < |UniqueSymbols(symbols)| ==> Rows(symbols, m, up, now)[i].Found?
    ensures var first := Resolve(symbols, m, up, ttl, now);
            var second := Resolve(symbols, first.entries, up, ttl, now);
            && second.results == first.results
            && second.entries == first.entries
            && second.alphaRequests == []
            && (forall b :: b in second.yahooRequests ==> b == [])
  {
    if UniqueSymbols(symbols) != [] {
      var e := FinalEntries(symbols, m, up, ttl, now);
      ResolveUnfold(symbols, m, up, ttl, now);
      RepeatFromCache(symbols, m, up, ttl, now);
      ResolveUnfold(symbols, e, up, ttl, now);
    }
  }

  /** A resolution of at least one symbol, phase by phase. */
  lemma ResolveUnfold(symbols: seq<string>, m: map<string, Entry>, up: Upstream, ttl: int, now: int)
    requires UniqueSymbols(symbols) != []
    ensures Resolve(symbols, m, up, ttl, now)
              == Resolution(Rows(symbols, m, up, now), FinalEntries(symbols, m, up, ttl, now),
                            if up.yahoo.Client? then [ToFetch(symbols, m, now)] else [],
                            if AlphaRequested(up) then Missing(symbols, m, up, now) else [])
  {
  }
}

/** The top-markets report: trading volume of every registry market quoted
    in the native unit over a window, converted into a requested exchange
    currency, with totals of converted volume and trade counts. */
module TopMarkets {
  import opened Common
  import opened Strings
  import opened Currency
  import opened TimeWindow
  import opened Market
  import opened Cache

  datatype Request = Request(exchange: RawExchange, start: TimeParam, end: TimeParam, history: bool)

  datatype MarketPair = MarketPair(base: Asset, counter: Asset)

  /** One market's statistic over the window. */
  datatype Stat = Stat(pair: MarketPair, rate: real, count: int, amount: real)

  /** One market after conversion into the exchange currency. */
  datatype Component = Component(pair: MarketPair, rate: real, count: int, amount: real, convertedAmount: real)

  datatype Report = Report(
    window: Window,
    exchange: Exchange,
    exchangeRate: real,
    total: real,
    count: int,
    components: seq<Component>)

  /** One market per registry listing, its currency priced in the native unit. */
  function MarketPairs(gateways: seq<Gateway>): (r: seq<MarketPair>)
    ensures |r| == |Listings(gateways)|
    ensures forall i :: 0 <= i < |r| ==>
              r[i] == MarketPair(Asset(Listings(gateways)[i].currency, Some(Listings(gateways)[i].issuer)),
                                 Asset(Xps, None))
  {
    var ls := Listings(gateways);
    seq(|ls|, i requires 0 <= i < |ls| => MarketPair(Asset(ls[i].currency, Some(ls[i].issuer)), Asset(Xps, None)))
  }

  /** The statistic read from a market's rows: average rate, trade count and
      amount from the data row, or all zero when there is none. */
  function StatOf(pair: MarketPair, rows: Rows): (s: Stat)
    ensures s.pair == pair
    ensures HasData(rows) ==>
              s.rate == Cell(rows, RateColumn) && s.count == CountCell(rows) && s.amount == Cell(rows, AmountColumn)
    ensures !HasData(rows) ==> s.rate == 0.0 && s.count == 0 && s.amount == 0.0
  {
    Stat(pair, Cell(rows, RateColumn), CountCell(rows), Cell(rows, AmountColumn))
  }

  /** The query for one market: one aggregate bucket over the window. */
  function MarketQuery(pair: MarketPair, w: Window): Query {
    Query(pair.base, pair.counter, w.start, w.end, WholeWindow)
  }

  function FetchStat(up: Upstream, w: Window, pair: MarketPair): (r: Result<Stat>)
    ensures r.Ok? <==> up(MarketQuery(pair, w)).Ok?
    ensures r.Ok? ==> r.value == StatOf(pair, up(MarketQuery(pair, w)).value)
    ensures r.Err? ==> r.error == up(MarketQuery(pair, w)).error
  {
    var rows :- up(MarketQuery(pair, w));
    Ok(StatOf(pair, rows))
  }

  /** One query per market over the window, in market order. */
  function Stats(up: Upstream, w: Window, pairs: seq<MarketPair>): (r: Result<seq<Stat>>)
    ensures r.Ok? ==> |r.value| == |pairs| && forall i :: 0 <= i < |pairs| ==> r.value[i].pair == pairs[i]
  {
    FanOut(pairs, p => FetchStat(up, w, p))
  }

  // ---------------------------------------------------------------------
  // Exchange rate selection

  /** The statistic prices the exchange currency in the native unit. */
  predicate Quotes(s: Stat, ex: Exchange) {
    && s.pair.counter.currency == Xps
    && s.pair.base.currency == ex.currency
    && s.pair.base.issuer == ex.issuer
  }

  /** The rate recorded for the exchange currency: later markets overwrite
      earlier ones, so it is the rate of the last market that quotes it. */
  function DirectRate(stats: seq<Stat>, ex: Exchange): (r: Option<real>)
    ensures r.Some? <==> exists i :: 0 <= i < |stats| && Quotes(stats[i], ex)
    ensures r.Some? ==> exists i :: && 0 <= i < |stats| && Quotes(stats[i], ex)
                                    && r.value == stats[i].rate
                                    && forall j :: i < j < |stats| ==> !Quotes(stats[j], ex)
  {
    var k := LastWhere(stats, s => Quotes(s, ex));
    if k < 0 then None else Some(stats[k].rate)
  }

  /** The one extra query: the native unit priced in the exchange currency. */
  function ConversionQuery(ex: Exchange, w: Window): Query {
    Query(Asset(Xps, None), Asset(ex.currency, ex.issuer), w.start, w.end, WholeWindow)
  }

  /** The exchange rate: 1 for the native unit, the reciprocal of a nonzero
      direct rate, otherwise the conversion query's rate used as it is. */
  function ExchangeRateFor(ex: Exchange, stats: seq<Stat>, up: Upstream, w: Window): (r: Result<real>)
    ensures ex.currency == Xps ==> r == Ok(1.0)
    ensures ex.currency != Xps && DirectRate(stats, ex).Some? && DirectRate(stats, ex).value != 0.0 ==>
              r.Ok? && r.value * DirectRate(stats, ex).value == 1.0
    ensures ex.currency != Xps && (DirectRate(stats, ex).None? || DirectRate(stats, ex).value == 0.0) ==>
              var conv := up(ConversionQuery(ex, w));
              && (conv.Err? ==> r == Err(conv.error))
              && (conv.Ok? && HasData(conv.value) ==> r == Ok(Cell(conv.value, RateColumn)))
              && (conv.Ok? && !HasData(conv.value) ==> r == Err(Text("cannot determine exchange rate")))
  {
    var direct := DirectRate(stats, ex);
    if ex.currency == Xps then Ok(1.0)
    else if direct.Some? && direct.value != 0.0 then Ok(1.0 / direct.value)
    else
      var rows :- up(ConversionQuery(ex, w));
      if HasData(rows) then Ok(Cell(rows, RateColumn))
      else Err(Text("cannot determine exchange rate"))
  }

  // ---------------------------------------------------------------------
  // Totals

  /** One market converted at the exchange rate `x`: its rate rescaled, and
      its amount converted at the rescaled rate. */
  function Convert(s: Stat, x: real): (c: Component)
    ensures c.pair == s.pair && c.count == s.count && c.amount == s.amount
    ensures c.rate == s.rate * x
    ensures c.convertedAmount == s.amount * c.rate
  {
    Component(s.pair, s.rate * x, s.count, s.amount, s.amount * (s.rate * x))
  }

  /** Every market converted, order and length kept. */
  function Finalize(stats: seq<Stat>, x: real): (cs: seq<Component>)
    ensures |cs| == |stats|
    ensures forall i :: 0 <= i < |cs| ==> cs[i] == Convert(stats[i], x)
    decreases |stats|
  {
    if stats == [] then [] else [Convert(stats[0], x)] + Finalize(stats[1..], x)
  }

  function Total(cs: seq<Component>): real {
    if cs == [] then 0.0 else cs[0].convertedAmount + Total(cs[1..])
  }

  function CountSum(cs: seq<Component>): int {
    if cs == [] then 0 else cs[0].count + CountSum(cs[1..])
  }

  /** Volume in the native unit before conversion: the sum of amount × rate. */
  function NativeVolume(stats: seq<Stat>): real {
    if stats == [] then 0.0 else stats[0].amount * stats[0].rate + NativeVolume(stats[1..])
  }

  function TradeCount(stats: seq<Stat>): int {
    if stats == [] then 0 else stats[0].count + TradeCount(stats[1..])
  }

  lemma ScaleStep(amount: real, rate: real, x: real)
    ensures amount * (rate * x) == x * (amount * rate)
  {
  }

  /** The converted total is the native volume scaled by the exchange rate. */
  lemma {:induction false} TotalIsScaledVolume(stats: seq<Stat>, x: real)
    ensures Total(Finalize(stats, x)) == x * NativeVolume(stats)
    decreases |stats|
  {
    if stats != [] {
      TotalIsScaledVolume(stats[1..], x);
      ScaleStep(stats[0].amount, stats[0].rate, x);
    }
  }

  /** The count is the sum of the markets' trade counts, whatever the exchange rate. */
  lemma {:induction false} CountIsTradeCount(stats: seq<Stat>, x: real)
    ensures CountSum(Finalize(stats, x)) == TradeCount(stats)
    decreases |stats|
  {
    if stats != [] {
      CountIsTradeCount(stats[1..], x);
    }
  }

  /** Two markets in the native unit: the total is the sum of amount × rate
      and the count the sum of trade counts. */
  lemma TwoMarketsInNativeUnit(a: Stat, b: Stat)
    ensures var cs := Finalize([a, b], 1.0);
            && Total(cs) == a.amount * a.rate + b.amount * b.rate
            && CountSum(cs) == a.count + b.count
  {
    TotalIsScaledVolume([a, b], 1.0);
    CountIsTradeCount([a, b], 1.0);
    assert [a, b][1..] == [b];
    assert [b][1..] == [];
    assert NativeVolume([b]) == b.amount * b.rate;
    assert TradeCount([b]) == b.count;
    assert NativeVolume([a, b]) == a.amount * a.rate + b.amount * b.rate;
    assert TradeCount([a, b]) == a.count + b.count;
  }

  // ---------------------------------------------------------------------
  // The report

  /** The report's totals are the markets' volume in the native unit scaled
      by the exchange rate, and their trade counts summed. */
  predicate SumsOf(rep: Report, stats: seq<Stat>) {
    && rep.total == rep.exchangeRate * NativeVolume(stats)
    && rep.count == TradeCount(stats)
  }

  /** The report assembled from the markets' statistics and the exchange rate. */
  function Assemble(ex: Exchange, w: Window, stats: seq<Stat>, x: real): (rep: Report)
    ensures rep.window == w && rep.exchange == ex && rep.exchangeRate == x
    ensures rep.components == Finalize(stats, x)
    ensures SumsOf(rep, stats)
  {
    var cs := Finalize(stats, x);
    TotalIsScaledVolume(stats, x);
    CountIsTradeCount(stats, x);
    Report(w, ex, x, Total(cs), CountSum(cs), cs)
  }

  /** The computation behind the cache: one query per market, the exchange
      rate, then the totals. */
  function Compute(ex: Exchange, w: Window, pairs: seq<MarketPair>, up: Upstream): (r: Result<Report>)
    ensures r.Ok? ==>
              && r.value.window == w && r.value.exchange == ex
              && |r.value.components| == |pairs|
              && (forall i :: 0 <= i < |pairs| ==> r.value.components[i].pair == pairs[i])
              && (ex.currency == Xps ==> r.value.exchangeRate == 1.0)
              && Stats(up, w, pairs).Ok?
              && SumsOf(r.value, Stats(up, w, pairs).value)
    ensures Stats(up, w, pairs).Err? ==> r == Err(Stats(up, w, pairs).error)
    ensures Stats(up, w, pairs).Ok? ==>
              var x := ExchangeRateFor(ex, Stats(up, w, pairs).value, up, w);
              && (r.Ok? <==> x.Ok?)
              && (x.Err? ==> r.error == x.error)
              && (x.Ok? ==> r.value.exchangeRate == x.value &&
                            r.value.components == Finalize(Stats(up, w, pairs).value, x.value))
  {
    match Stats(up, w, pairs)
    case Err(e) => Err(e)
    case Ok(stats) =>
      match ExchangeRateFor(ex, stats, up, w)
      case Err(e) => Err(e)
      case Ok(x) =>
        Ok(Assemble(ex, w, stats, x))
  }

  /** Each converted statistic of a successful fan-out comes from its own
      market's query: its rate is the data row's average price times the
      exchange rate, and its count and amount are the row's (all zero
      without a data row). With `Compute`'s contract this describes every
      component of a report. */
  lemma FinalizedFromRows(up: Upstream, w: Window, pairs: seq<MarketPair>, x: real)
    requires Stats(up, w, pairs).Ok?
    ensures var cs := Finalize(Stats(up, w, pairs).value, x);
            forall i :: 0 <= i < |pairs| ==>
              && up(MarketQuery(pairs[i], w)).Ok?
              && var rows := up(MarketQuery(pairs[i], w)).value;
                 && cs[i].rate == Cell(rows, RateColumn) * x
                 && cs[i].count == CountCell(rows)
                 && cs[i].amount == Cell(rows, AmountColumn)
  {
    var stats := Stats(up, w, pairs).value;
    var cs := Finalize(stats, x);
    forall i | 0 <= i < |pairs|
      ensures && up(MarketQuery(pairs[i], w)).Ok?
              && var rows := up(MarketQuery(pairs[i], w)).value;
                 && cs[i].rate == Cell(rows, RateColumn) * x
                 && cs[i].count == CountCell(rows)
                 && cs[i].amount == Cell(rows, AmountColumn)
    {
      StatFromRows(up, w, pairs, i);
      var rows := up(MarketQuery(pairs[i], w)).value;
      ConvertedFromRows(pairs[i], rows, x);
    }
  }

  lemma ConvertedFromRows(pair: MarketPair, rows: Rows, x: real)
    ensures var c := Convert(StatOf(pair, rows), x);
            && c.rate == Cell(rows, RateColumn) * x
            && c.count == CountCell(rows)
            && c.amount == Cell(rows, AmountColumn)
  {
  }

  /** The i-th statistic of a successful fan-out is read from the i-th market's rows. */
  lemma StatFromRows(up: Upstream, w: Window, pairs: seq<MarketPair>, i: int)
    requires Stats(up, w, pairs).Ok? && 0 <= i < |pairs|
    ensures up(MarketQuery(pairs[i], w)).Ok?
    ensures Stats(up, w, pairs).value[i] == StatOf(pairs[i], up(MarketQuery(pairs[i], w)).value)
  {
    assert FetchStat(up, w, pairs[i]).Ok?;
  }

  /** The report: exchange guard and window first, then the cache decision
      around the computation. */
  function TopMarkets(req: Request, now: int, reg: Registry, cacheEnabled: bool,
                      read: CacheRead<Report>, up: Upstream): (s: Served<Report>)
    ensures ValidateExchange(Xps, req.exchange).Err? ==>
              s == Served(Err(ValidateExchange(Xps, req.exchange).error), None)
    ensures ValidateExchange(Xps, req.exchange).Ok? && ResolveWindow(now, req.start, req.end).Err? ==>
              s == Served(Err(ResolveWindow(now, req.start, req.end).error), None)
    ensures ValidateExchange(Xps, req.exchange).Ok? && ResolveWindow(now, req.start, req.end).Ok? ==>
              var computed := Compute(ValidateExchange(Xps, req.exchange).value,
                                      ResolveWindow(now, req.start, req.end).value,
                                      MarketPairs(reg.gateways), up);
              && (cacheEnabled && read.ReadError? ==> s.reply == Err(Text("Redis - " + read.error)))
              && (cacheEnabled && read.Hit? ==>
                    s.reply == Ok(if req.history then Probe(true) else Cached(read.payload)))
              && (!cacheEnabled || read.Miss? ==>
                    s.reply == if computed.Err? then Err(computed.error)
                               else Ok(if req.history then Probe(false) else Fresh(computed.value)))
              && (s.write.Some? <==> cacheEnabled && read.Miss? && computed.Ok?)
              && (s.write.Some? ==> s.write.value.payload == computed.value)
    ensures s.reply.Ok? && s.reply.value.Fresh? ==>
              var rep := s.reply.value.report;
              && rep.window.start < rep.window.end
              && |rep.components| == |MarketPairs(reg.gateways)|
    ensures s.write.Some? ==>
              && ValidateExchange(Xps, req.exchange).Ok? && ResolveWindow(now, req.start, req.end).Ok?
              && s.write.value.key == TopMarketsKey(ValidateExchange(Xps, req.exchange).value,
                                                    ResolveWindow(now, req.start, req.end).value, now)
              && (s.write.value.ttl.Some? <==>
                    IsLive(ResolveWindow(now, req.start, req.end).value.end, now) ||
                    Contains(KeyHead("TM", ValidateExchange(Xps, req.exchange).value), LiveMarker))
  {
    match ValidateExchange(Xps, req.exchange)
    case Err(e) => Served(Err(e), None)
    case Ok(ex) =>
      match ResolveWindow(now, req.start, req.end)
      case Err(e) => Served(Err(e), None)
      case Ok(w) =>
        var key := TopMarketsKey(ex, w, now);
        TopMarketsExpiry(ex, w, now);
        Serve(cacheEnabled, req.history, key, read, Compute(ex, w, MarketPairs(reg.gateways), up))
  }
}

/** The exchange-rates report: for each requested (base, counter) pair, the
    volume-weighted average and closing price over a named range, or only
    the last traded price; pairs whose average comes out zero are dropped. */
module ExchangeRates {
  import opened Common
  import opened Currency
  import opened TimeWindow
  import opened Market

  /** Most pairs one request may ask for. */
  const MaxPairs := 50

  /** `params.pairs`: absent or falsy, present but not an array, or an array. */
  datatype RawPairs = NoPairs | NotArray | PairList(items: seq<RawPair>)

  datatype Request = Request(
    pairs: RawPairs,
    base: Option<RawCurrency>,
    counter: Option<RawCurrency>,
    range: Option<string>,
    last: bool)

  /** One answered pair; `None` stands for a field the report never set. */
  datatype RateEntry = RateEntry(base: Currency, counter: Currency, rate: Option<real>, last: Option<real>)

  /** An array `pairs` is taken as given, otherwise `base` and `counter`
      form one pair, otherwise the request is refused. */
  function RequestedPairs(req: Request): (r: Result<seq<RawPair>>)
    ensures req.pairs.PairList? ==> r == Ok(req.pairs.items)
    ensures !req.pairs.PairList? ==>
              r == if req.base.Some? && req.counter.Some? then Ok([RawPair(req.base, req.counter)])
                   else Err(Text("please specify a list of currency pairs or a base and counter currency"))
  {
    if req.pairs.PairList? then Ok(req.pairs.items)
    else if req.base.Some? && req.counter.Some? then Ok([RawPair(req.base, req.counter)])
    else Err(Text("please specify a list of currency pairs or a base and counter currency"))
  }

  /** Validates `items[from..]`: all parsed pairs in order, or the index of
      the first pair that does not parse. */
  function ParsePairs(reg: Registry, items: seq<RawPair>, from: nat): (r: Result<seq<CurrencyPair>>)
    requires from <= |items|
    ensures r.Ok? <==> forall i :: from <= i < |items| ==> ParseCurrencyPair(reg, items[i]).Some?
    ensures r.Ok? ==>
              && |r.value| == |items| - from
              && forall i :: from <= i < |items| ==> r.value[i - from] == ParseCurrencyPair(reg, items[i]).value
    ensures r.Err? ==>
              exists i :: && from <= i < |items| && r.error == InvalidPair(i)
                          && ParseCurrencyPair(reg, items[i]).None?
                          && forall j :: from <= j < i ==> ParseCurrencyPair(reg, items[j]).Some?
    decreases |items| - from
  {
    if from == |items| then Ok([])
    else
      match ParseCurrencyPair(reg, items[from])
      case None => Err(InvalidPair(from))
      case Some(p) =>
        var rest :- ParsePairs(reg, items, from + 1);
        Ok([p] + rest)
  }

  /** A validated currency as it is sent to the aggregation query. */
  function AssetOf(c: Currency): Asset {
    match c
    case Native => Asset(Xps, None)
    case Issued(code, issuer, _) => Asset(code, Some(issuer))
  }

  /** The query for one pair: the most recent trade in last-price mode, one
      aggregate bucket over the window otherwise. */
  function QueryFor(p: CurrencyPair, start: int, end: int, last: bool): (q: Query)
    ensures q.base == AssetOf(p.base) && q.counter == AssetOf(p.counter)
    ensures q.start == start && q.end == end
    ensures q.mode == if last then LastTrade else WholeWindow
  {
    Query(AssetOf(p.base), AssetOf(p.counter), start, end, if last then LastTrade else WholeWindow)
  }

  /** The pair annotated from its rows. Last-price mode sets only `last`;
      otherwise `rate` and `last` come from the data row, and without one
      `rate` is 0 and `last` stays unset. */
  function Annotate(p: CurrencyPair, last: bool, rows: Rows): (e: RateEntry)
    ensures e.base == p.base && e.counter == p.counter
    ensures last ==> e.rate.None? && e.last == Some(Cell(rows, LastPriceColumn))
    ensures !last && HasData(rows) ==>
              e.rate == Some(Cell(rows, RateColumn)) && e.last == Some(Cell(rows, CloseColumn))
    ensures !last && !HasData(rows) ==> e.rate == Some(0.0) && e.last.None?
  {
    if last then RateEntry(p.base, p.counter, None, Some(Cell(rows, LastPriceColumn)))
    else if HasData(rows) then
      RateEntry(p.base, p.counter, Some(Cell(rows, RateColumn)), Some(Cell(rows, CloseColumn)))
    else RateEntry(p.base, p.counter, Some(0.0), None)
  }

  function FetchRate(up: Upstream, p: CurrencyPair, start: int, end: int, last: bool): Result<RateEntry> {
    var rows :- up(QueryFor(p, start, end, last));
    Ok(Annotate(p, last, rows))
  }

  /** The per-pair step of the fan-out. */
  function Fetcher(up: Upstream, start: int, end: int, last: bool): CurrencyPair -> Result<RateEntry> {
    p => FetchRate(up, p, start, end, last)
  }

  /** Keeps the entries whose rate is not 0; an unset rate is kept. */
  function KeepNonZero(es: seq<RateEntry>): (r: seq<RateEntry>)
    ensures forall e :: e in r <==> e in es && e.rate != Some(0.0)
    ensures |r| <= |es|
  {
    if es == [] then []
    else if es[0].rate == Some(0.0) then KeepNonZero(es[1..])
    else [es[0]] + KeepNonZero(es[1..])
  }

  /** Filtering keeps input order: it distributes over concatenation. */
  lemma {:induction false} KeepNonZeroAppend(a: seq<RateEntry>, b: seq<RateEntry>)
    ensures KeepNonZero(a + b) == KeepNonZero(a) + KeepNonZero(b)
  {
    if a == [] {
      assert a + b == b;
    } else {
      assert (a + b)[0] == a[0];
      assert (a + b)[1..] == a[1..] + b;
      KeepNonZeroAppend(a[1..], b);
    }
  }

  /** Entries with an unset rate are never dropped. */
  lemma {:induction false} KeepNonZeroKeepsUnset(es: seq<RateEntry>)
    requires forall i :: 0 <= i < |es| ==> es[i].rate.None?
    ensures KeepNonZero(es) == es
  {
    if es != [] {
      KeepNonZeroKeepsUnset(es[1..]);
    }
  }

  /** A request that passed every check: the window start and the parsed pairs. */
  datatype Batch = Batch(start: int, pairs: seq<CurrencyPair>)

  /** The checks made before any query, in source order: the range, the
      request shape, every pair's validity, then the 50-pair cap (against
      the raw request length). */
  function Admit(req: Request, clock: Clock, reg: Registry): (r: Result<Batch>)
    ensures RangeStart(clock, req.last, req.range).Err? ==> r == Err(Text("invalid time range"))
    ensures RangeStart(clock, req.last, req.range).Ok? && RequestedPairs(req).Err? ==>
              r == Err(RequestedPairs(req).error)
    ensures RangeStart(clock, req.last, req.range).Ok? && RequestedPairs(req).Ok? ==>
              var raw := RequestedPairs(req).value;
              && (ParsePairs(reg, raw, 0).Err? ==> r == Err(ParsePairs(reg, raw, 0).error))
              && (ParsePairs(reg, raw, 0).Ok? && |raw| > MaxPairs ==>
                    r == Err(Text("Cannot retrieve more than 50 pairs")))
              && (ParsePairs(reg, raw, 0).Ok? && |raw| <= MaxPairs ==>
                    r == Ok(Batch(RangeStart(clock, req.last, req.range).value, ParsePairs(reg, raw, 0).value)))
    ensures r.Ok? ==> |r.value.pairs| == |RequestedPairs(req).value| <= MaxPairs
  {
    var start :- RangeStart(clock, req.last, req.range);
    var raw :- RequestedPairs(req);
    var pairs :- ParsePairs(reg, raw, 0);
    if |raw| > MaxPairs then Err(Text("Cannot retrieve more than 50 pairs"))
    else Ok(Batch(start, pairs))
  }

  /** The report: the checks, then one query per pair, the first failure
      aborting the whole report; the answer is the annotated pairs whose
      rate is not 0, in request order. */
  function ExchangeRates(req: Request, clock: Clock, reg: Registry, up: Upstream): (r: Result<seq<RateEntry>>)
    ensures Admit(req, clock, reg).Err? ==> r == Err(Admit(req, clock, reg).error)
    ensures Admit(req, clock, reg).Ok? ==>
              var b := Admit(req, clock, reg).value;
              var fan := FanOut(b.pairs, Fetcher(up, b.start, clock.now, req.last));
              && (r.Ok? <==> fan.Ok?)
              && (fan.Err? ==> r.error == fan.error)
              && (fan.Ok? ==> r.value == KeepNonZero(fan.value))
    ensures RangeStart(clock, req.last, req.range).Err? ==> r == Err(Text("invalid time range"))
    ensures RangeStart(clock, req.last, req.range).Ok? && RequestedPairs(req).Err? ==>
              r == Err(RequestedPairs(req).error)
    ensures r.Ok? ==> forall e :: e in r.value ==> e.rate != Some(0.0)
    ensures r.Ok? && req.last ==> forall e :: e in r.value ==> e.rate.None?
    ensures r.Ok? ==> RequestedPairs(req).Ok? && |r.value| <= |RequestedPairs(req).value| <= MaxPairs
  {
    var b :- Admit(req, clock, reg);
    var entries :- FanOut(b.pairs, Fetcher(up, b.start, clock.now, req.last));
    assert forall e :: e in entries ==>
             exists i :: 0 <= i < |b.pairs| && e == FetchRate(up, b.pairs[i], b.start, clock.now, req.last).value;
    Ok(KeepNonZero(entries))
  }

  /** The entry a pair contributes in average mode: its query found a data
      row whose average price is not 0, and the entry carries that price and
      the row's close price. */
  predicate Answers(up: Upstream, p: CurrencyPair, start: int, end: int, e: RateEntry) {
    && up(QueryFor(p, start, end, false)).Ok?
    && var rows := up(QueryFor(p, start, end, false)).value;
       && HasData(rows) && Cell(rows, RateColumn) != 0.0
       && e == RateEntry(p.base, p.counter, Some(Cell(rows, RateColumn)), Some(Cell(rows, CloseColumn)))
  }

  /** In average mode the answer holds exactly the entries of the requested
      pairs whose data row has a non-zero average price. */
  lemma AnsweredPairs(req: Request, clock: Clock, reg: Registry, up: Upstream)
    requires !req.last && ExchangeRates(req, clock, reg, up).Ok?
    ensures Admit(req, clock, reg).Ok?
    ensures var b := Admit(req, clock, reg).value;
            forall e :: e in ExchangeRates(req, clock, reg, up).value <==>
              exists i :: 0 <= i < |b.pairs| && Answers(up, b.pairs[i], b.start, clock.now, e)
  {
    var b := Admit(req, clock, reg).value;
    var f := Fetcher(up, b.start, clock.now, false);
    var entries := FanOut(b.pairs, f).value;
    var r := ExchangeRates(req, clock, reg, up).value;
    assert r == KeepNonZero(entries);
    forall e
      ensures e in r <==> exists i :: 0 <= i < |b.pairs| && Answers(up, b.pairs[i], b.start, clock.now, e)
    {
      if e in r {
        var i :| 0 <= i < |entries| && entries[i] == e;
        EntryFromRows(up, b.pairs[i], b.start, clock.now, e);
      }
      if exists i :: 0 <= i < |b.pairs| && Answers(up, b.pairs[i], b.start, clock.now, e) {
        var i :| 0 <= i < |b.pairs| && Answers(up, b.pairs[i], b.start, clock.now, e);
        assert entries[i] == f(b.pairs[i]).value;
        EntryFromRows(up, b.pairs[i], b.start, clock.now, e);
        assert e in entries;
      }
    }
  }

  /** An average-mode entry survives the filter exactly when it answers for its pair. */
  lemma EntryFromRows(up: Upstream, p: CurrencyPair, start: int, end: int, e: RateEntry)
    requires FetchRate(up, p, start, end, false).Ok?
    ensures FetchRate(up, p, start, end, false).value == e && e.rate != Some(0.0) <==>
            Answers(up, p, start, end, e)
  {
  }

  /** More than 50 valid pairs are refused whatever the market data. */
  lemma TooManyPairsRefused(req: Request, clock: Clock, reg: Registry, up: Upstream)
    requires req.pairs.PairList? && |req.pairs.items| > MaxPairs
    requires RangeStart(clock, req.last, req.range).Ok?
    requires forall i :: 0 <= i < |req.pairs.items| ==> ParseCurrencyPair(reg, req.pairs.items[i]).Some?
    ensures ExchangeRates(req, clock, reg, up) == Err(Text("Cannot retrieve more than 50 pairs"))
  {
  }

  /** An invalid pair is reported by its position, before any query. */
  lemma InvalidPairRefused(req: Request, clock: Clock, reg: Registry, up: Upstream, i: nat)
    requires req.pairs.PairList? && i < |req.pairs.items|
    requires RangeStart(clock, req.last, req.range).Ok?
    requires ParseCurrencyPair(reg, req.pairs.items[i]).None?
    requires forall j :: 0 <= j < i ==> ParseCurrencyPair(reg, req.pairs.items[j]).Some?
    ensures ExchangeRates(req, clock, reg, up) == Err(InvalidPair(i))
  {
    var r := ParsePairs(reg, req.pairs.items, 0);
    assert r.Err?;
    var k :| 0 <= k < |req.pairs.items| && r.error == InvalidPair(k) &&
             ParseCurrencyPair(reg, req.pairs.items[k]).None? &&
             forall j :: 0 <= j < k ==> ParseCurrencyPair(reg, req.pairs.items[j]).Some?;
    assert !(k < i) && !(i < k);
  }

  /** In last-price mode every requested pair is answered, in request order. */
  lemma LastModeKeepsEveryPair(req: Request, clock: Clock, reg: Registry, up: Upstream)
    requires req.last
    ensures var r := ExchangeRates(req, clock, reg, up);
            r.Ok? ==> |r.value| == |RequestedPairs(req).value| &&
                      forall i :: 0 <= i < |r.value| ==>
                        r.value[i].base == ParseCurrencyPair(reg, RequestedPairs(req).value[i]).value.base &&
                        r.value[i].counter == ParseCurrencyPair(reg, RequestedPairs(req).value[i]).value.counter
  {
    var r := ExchangeRates(req, clock, reg, up);
    if r.Ok? {
      var raw := RequestedPairs(req).value;
      var pairs := ParsePairs(reg, raw, 0).value;
      var start := RangeStart(clock, req.last, req.range).value;
      var f := p => FetchRate(up, p, start, clock.now, req.last);
      var entries := FanOut(pairs, f).value;
      KeepNonZeroKeepsUnset(entries);
    }
  }

  /** A pair with no trades in the window is dropped from the answer. */
  lemma ZeroTradePairDropped(clock: Clock, reg: Registry, up: Upstream)
    requires reg.isValidAddress("G1")
    requires forall q :: up(q) == Ok([])
    ensures ExchangeRates(
              Request(PairList([RawPair(Some(RawCurrency(Some("BTC"), Some("G1"))),
                                        Some(RawCurrency(Some("XPS"), None)))]),
                      None, None, None, false),
              clock, reg, up) == Ok([])
  {
    assert Strings.Upper("BTC") == "BTC";
    assert Strings.Upper("XPS") == "XPS";
  }
}

/** The total-network-value report: the outstanding balance of every
    registry currency plus the ledger's native supply, each priced in the
    native unit and the whole converted into a requested exchange currency
    at one snapshot time. */
module NetworkValue {
  import opened Common
  import opened Strings
  import opened Currency
  import opened TimeWindow
  import opened Market
  import opened Cache

  /** The ledger's own unit as this report names it. */
  const Str := "STR"
  /** Ledger units per native unit: the supply is kept in millionths. */
  const UnitsPerCoin := 1000000

  datatype Request = Request(exchange: RawExchange, time: TimeParam, history: bool)

  /** An entry of the issuer-capitalization answer: a currency's outstanding balance. */
  datatype Holding = Holding(currency: string, issuer: Option<string>, amount: real)

  /** What reading the latest saved ledger gave: a listing error, no ledger
      at all, an error fetching it, or its total supply in ledger units. */
  datatype LedgerRead = ListError(listError: string) | NoLedgers | GetError(getError: string) | Ledger(totalCoins: int)

  /** The rate fetched for one registry currency against the native unit. */
  datatype PairRate = PairRate(counter: Listing, rate: real)

  /** A currency priced in the native unit; `rate` is unset for the native
      supply itself. */
  datatype Priced = Priced(currency: string, issuer: Option<string>, amount: real,
                           rate: Option<real>, convertedAmount: real)

  /** A currency in the exchange currency; `rate` is `None` where the
      division by a zero rate leaves no finite number. */
  datatype Component = Component(currency: string, issuer: Option<string>, amount: real,
                                 rate: Option<real>, convertedAmount: real)

  datatype Report = Report(time: int, exchange: Exchange, exchangeRate: real, total: real,
                           components: seq<Component>)

  // ---------------------------------------------------------------------
  // Conversion pairs and their rates

  /** The registry listings that are not the native unit, in registry order;
      each is fetched as native unit against that listing. */
  function ConversionPairs(ls: seq<Listing>): (r: seq<Listing>)
    ensures forall l :: l in r <==> l in ls && l.currency != Str
    ensures |r| <= |ls|
  {
    if ls == [] then []
    else if ls[0].currency == Str then ConversionPairs(ls[1..])
    else [ls[0]] + ConversionPairs(ls[1..])
  }

  /** Building the pairs keeps registry order. */
  lemma {:induction false} ConversionPairsAppend(a: seq<Listing>, b: seq<Listing>)
    ensures ConversionPairs(a + b) == ConversionPairs(a) + ConversionPairs(b)
  {
    if a == [] {
      assert a + b == b;
    } else {
      assert (a + b)[0] == a[0];
      assert (a + b)[1..] == a[1..] + b;
      ConversionPairsAppend(a[1..], b);
    }
  }

  /** The rate query: the 72 hours up to the snapshot, one bucket. */
  function RateQuery(c: Listing, time: int): (q: Query)
    ensures q.end == time && q.end - q.start == 72 * 3600
    ensures q.base == Asset(Str, None) && q.counter == Asset(c.currency, Some(c.issuer))
    ensures q.mode == WholeWindow
  {
    Query(Asset(Str, None), Asset(c.currency, Some(c.issuer)), time - RateLookback, time, WholeWindow)
  }

  function FetchRate(up: Upstream, time: int, c: Listing): (r: Result<PairRate>)
    ensures r.Ok? ==> r.value.counter == c
    ensures up(RateQuery(c, time)).Ok? ==> r == Ok(PairRate(c, Cell(up(RateQuery(c, time)).value, RateColumn)))
    ensures up(RateQuery(c, time)).Err? ==> r == Err(up(RateQuery(c, time)).error)
  {
    var rows :- up(RateQuery(c, time));
    Ok(PairRate(c, Cell(rows, RateColumn)))
  }

  /** One rate query per conversion pair, in pair order. */
  function Rates(up: Upstream, time: int, cs: seq<Listing>): (r: Result<seq<PairRate>>)
    ensures r.Ok? ==> |r.value| == |cs| && forall i :: 0 <= i < |cs| ==> r.value[i].counter == cs[i]
  {
    FanOut(cs, c => FetchRate(up, time, c))
  }

  /** A successful fan-out gives each pair the average price of its own
      query's data row over the 72 hours, or 0 without a data row. */
  lemma RateFromRows(up: Upstream, time: int, cs: seq<Listing>, k: int)
    requires Rates(up, time, cs).Ok? && 0 <= k < |cs|
    ensures up(RateQuery(cs[k], time)).Ok?
    ensures Rates(up, time, cs).value[k] == PairRate(cs[k], Cell(up(RateQuery(cs[k], time)).value, RateColumn))
  {
    assert FetchRate(up, time, cs[k]).Ok?;
  }

  // ---------------------------------------------------------------------
  // Pricing in the native unit

  /** One balance priced in the native unit: the amount divided by the
      rate, or 0 when the rate is 0. */
  function PriceOf(h: Holding, rate: real): (p: Priced)
    ensures p.currency == h.currency && p.issuer == h.issuer && p.amount == h.amount
    ensures p.rate == Some(rate)
    ensures rate != 0.0 ==> p.convertedAmount * rate == h.amount
    ensures rate == 0.0 ==> p.convertedAmount == 0.0
  {
    Priced(h.currency, h.issuer, h.amount, Some(rate), if rate != 0.0 then h.amount / rate else 0.0)
  }

  /** How many holdings are not the native unit. */
  function NonNativeCount(hs: seq<Holding>): (n: nat)
    ensures n <= |hs|
  {
    if hs == [] then 0 else (if hs[0].currency == Str then 0 else 1) + NonNativeCount(hs[1..])
  }

  /** Holdings listed in registry order have one non-native entry per
      conversion pair. */
  lemma {:induction false} NonNativeCountMatches(hs: seq<Holding>, ls: seq<Listing>)
    requires |hs| == |ls|
    requires forall i :: 0 <= i < |hs| ==> hs[i].currency == ls[i].currency
    ensures NonNativeCount(hs) == |ConversionPairs(ls)|
    decreases |hs|
  {
    if hs != [] {
      NonNativeCountMatches(hs[1..], ls[1..]);
    }
  }

  /** A native-unit holding: no rate of its own, counted at rate 1 later. */
  function NativeHolding(h: Holding): Priced {
    Priced(h.currency, h.issuer, h.amount, None, 0.0)
  }

  /** Each holding priced with the rate of its own conversion pair: the
      k-th non-native holding takes the k-th rate, and native-unit holdings
      take none. */
  function Align(hs: seq<Holding>, rates: seq<PairRate>): (ps: seq<Priced>)
    requires |rates| == NonNativeCount(hs)
    ensures |ps| == |hs|
    ensures forall i :: 0 <= i < |hs| && hs[i].currency == Str ==> ps[i] == NativeHolding(hs[i])
    ensures forall i :: 0 <= i < |hs| && hs[i].currency != Str ==>
              NonNativeCount(hs[..i]) < |rates| &&
              ps[i] == PriceOf(hs[i], rates[NonNativeCount(hs[..i])].rate)
    decreases |hs|
  {
    if hs == [] then []
    else
      var rest := if hs[0].currency == Str then rates else rates[1..];
      var head := if hs[0].currency == Str then NativeHolding(hs[0]) else PriceOf(hs[0], rates[0].rate);
      var tail := Align(hs[1..], rest);
      var ps := [head] + tail;
      assert forall i | 1 <= i < |hs| :: ps[i] == tail[i - 1] && hs[i] == hs[1..][i - 1];
      assert forall i | 1 <= i < |hs| && hs[i].currency != Str ::
        NonNativeCount(hs[..i]) < |rates| &&
        rates[NonNativeCount(hs[..i])] == rest[NonNativeCount(hs[1..][..i - 1])] by {
        forall i | 1 <= i < |hs| && hs[i].currency != Str {
          AlignIndexStep(hs, i);
        }
      }
      assert hs[..0] == [];
      ps
  }

  /** The rate position of a later non-native holding, counted from the
      first holding or from the second. */
  lemma AlignIndexStep(hs: seq<Holding>, i: nat)
    requires 1 <= i < |hs| && hs[i].currency != Str
    ensures NonNativeCount(hs[1..][..i - 1]) < NonNativeCount(hs[1..])
    ensures NonNativeCount(hs[..i]) == NonNativeCount(hs) - NonNativeCount(hs[1..]) + NonNativeCount(hs[1..][..i - 1])
  {
    assert hs[1..][i - 1] == hs[i];
    NonNativeCountStep(hs, i);
    NonNativeCountBelow(hs[1..], i - 1);
  }

  /** Counting a non-empty prefix: the first holding, then the rest. */
  lemma NonNativeCountStep(hs: seq<Holding>, i: nat)
    requires 1 <= i <= |hs|
    ensures NonNativeCount(hs[..i]) == NonNativeCount(hs[..1]) + NonNativeCount(hs[1..][..i - 1])
    ensures NonNativeCount(hs[..1]) == if hs[0].currency == Str then 0 else 1
  {
    assert hs[..i][1..] == hs[1..][..i - 1];
    assert hs[..1][1..] == [];
  }

  /** The holdings before a non-native one count fewer than all of them. */
  lemma {:induction false} NonNativeCountBelow(hs: seq<Holding>, i: nat)
    requires i < |hs| && hs[i].currency != Str
    ensures NonNativeCount(hs[..i]) < NonNativeCount(hs)
    decreases i
  {
    if i == 0 {
      assert hs[..0] == [];
    } else {
      NonNativeCountBelow(hs[1..], i - 1);
      NonNativeCountStep(hs, i);
    }
  }

  /** Without native-unit holdings, alignment is position by position. */
  lemma AlignWithoutNative(hs: seq<Holding>, rates: seq<PairRate>)
    requires |rates| == |hs|
    requires forall i :: 0 <= i < |hs| ==> hs[i].currency != Str
    ensures NonNativeCount(hs) == |hs|
    ensures forall i :: 0 <= i < |hs| ==> Align(hs, rates)[i] == PriceOf(hs[i], rates[i].rate)
  {
    NonNativeCountAll(hs);
    forall i | 0 <= i < |hs|
      ensures NonNativeCount(hs[..i]) == i
    {
      assert forall j :: 0 <= j < |hs[..i]| ==> hs[..i][j].currency != Str;
      NonNativeCountAll(hs[..i]);
    }
  }

  lemma {:induction false} NonNativeCountAll(hs: seq<Holding>)
    requires forall i :: 0 <= i < |hs| ==> hs[i].currency != Str
    ensures NonNativeCount(hs) == |hs|
    decreases |hs|
  {
    if hs != [] {
      NonNativeCountAll(hs[1..]);
    }
  }

  /** Where listing i's own conversion pair sits among the conversion
      pairs: right after the pairs of the listings before it. */
  function PairIndex(ls: seq<Listing>, i: nat): nat
    requires i <= |ls|
  {
    |ConversionPairs(ls[..i])|
  }

  /** For holdings listed in registry order, the rate position `Align` uses
      for a non-native holding is that of its own listing's pair. */
  lemma {:induction false} OwnPair(hs: seq<Holding>, ls: seq<Listing>, i: int)
    requires Matching(hs, ls) && 0 <= i < |hs| && hs[i].currency != Str
    ensures NonNativeCount(hs[..i]) == PairIndex(ls, i) < |ConversionPairs(ls)|
    ensures ConversionPairs(ls)[PairIndex(ls, i)] == ls[i]
  {
    NonNativeCountMatches(hs[..i], ls[..i]);
    assert ls == ls[..i] + ls[i..];
    ConversionPairsAppend(ls[..i], ls[i..]);
    assert ls[i..][0] == ls[i] && ls[i..][1..] == ls[i + 1..];
  }

  /** Rates fetched for the conversion pairs, in pair order. */
  predicate RatesFor(rates: seq<PairRate>, ls: seq<Listing>) {
    && |rates| == |ConversionPairs(ls)|
    && forall k :: 0 <= k < |rates| ==> rates[k].counter == ConversionPairs(ls)[k]
  }

  /** The correction's promise: every non-native holding is priced with the
      rate fetched for its own listing, and native holdings take none. */
  lemma AlignUsesOwnPair(hs: seq<Holding>, ls: seq<Listing>, rates: seq<PairRate>)
    requires Matching(hs, ls) && RatesFor(rates, ls)
    ensures NonNativeCount(hs) == |rates|
    ensures forall i :: 0 <= i < |hs| && hs[i].currency != Str ==>
              && PairIndex(ls, i) < |rates|
              && rates[PairIndex(ls, i)].counter == ls[i]
              && Align(hs, rates)[i] == PriceOf(hs[i], rates[PairIndex(ls, i)].rate)
  {
    NonNativeCountMatches(hs, ls);
    forall i | 0 <= i < |hs| && hs[i].currency != Str
      ensures && PairIndex(ls, i) < |rates|
              && rates[PairIndex(ls, i)].counter == ls[i]
              && Align(hs, rates)[i] == PriceOf(hs[i], rates[PairIndex(ls, i)].rate)
    {
      OwnPair(hs, ls, i);
    }
  }

  /** The pricing as written: the rate at position i, which belongs to the
      i-th conversion pair, is applied to the holding at position i, which
      belongs to the i-th listing; holdings past the last rate get neither a
      rate nor a converted amount (`None`). */
  function PriceAsWritten(hs: seq<Holding>, rates: seq<PairRate>): (ps: seq<Option<Priced>>)
    requires |rates| <= |hs|
    ensures |ps| == |hs|
    ensures forall i :: 0 <= i < |rates| ==> ps[i] == Some(PriceOf(hs[i], rates[i].rate))
    ensures forall i :: |rates| <= i < |hs| ==> ps[i].None?
  {
    seq(|hs|, i requires 0 <= i < |hs| => if i < |rates| then Some(PriceOf(hs[i], rates[i].rate)) else None)
  }

  /** A registry listing the native code before an issued currency: as
      written, the native holding takes the issued currency's rate and the
      issued currency is left unpriced; aligned, each keeps its own. */
  lemma NativeListingShiftsRates()
    ensures var hs := [Holding(Str, Some("G"), 5.0), Holding("USD", Some("G"), 10.0)];
            var rates := [PairRate(Listing("USD", "G"), 2.0)];
            && PriceAsWritten(hs, rates)[0] == Some(Priced(Str, Some("G"), 5.0, Some(2.0), 2.5))
            && PriceAsWritten(hs, rates)[1].None?
            && NonNativeCount(hs) == |rates|
            && Align(hs, rates)[0] == NativeHolding(hs[0])
            && Align(hs, rates)[1] == Priced("USD", Some("G"), 10.0, Some(2.0), 5.0)
  {
    var hs := [Holding(Str, Some("G"), 5.0), Holding("USD", Some("G"), 10.0)];
    var rates := [PairRate(Listing("USD", "G"), 2.0)];
    assert hs[1..] == [Holding("USD", Some("G"), 10.0)];
    assert hs[..1] == [Holding(Str, Some("G"), 5.0)];
    assert NonNativeCount(hs[..1]) == 0;
    assert PriceOf(hs[1], 2.0).convertedAmount * 2.0 == 10.0;
    assert PriceOf(hs[0], 2.0).convertedAmount * 2.0 == 5.0;
  }

  /** A supply in ledger units as native units. */
  function Coins(units: int): real {
    units as real / UnitsPerCoin as real
  }

  /** Converting back to ledger units gives the supply as read. */
  lemma CoinsRoundTrip(units: int)
    ensures Coins(units) * UnitsPerCoin as real == units as real
  {
  }

  /** The native supply in native units. */
  function Supply(read: LedgerRead): (r: Result<real>)
    ensures read.Ledger? ==> r == Ok(Coins(read.totalCoins))
    ensures read.ListError? ==> r == Err(Text("CouchDB - " + read.listError))
    ensures read.GetError? ==> r == Err(Text("CouchDB - " + read.getError))
    ensures read.NoLedgers? ==> r == Err(Text("no ledgers saved"))
  {
    match read
    case ListError(e) => Err(Text("CouchDB - " + e))
    case NoLedgers => Err(Text("no ledgers saved"))
    case GetError(e) => Err(Text("CouchDB - " + e))
    case Ledger(coins) => Ok(Coins(coins))
  }

  // ---------------------------------------------------------------------
  // The final rate

  /** The pair's counter is the exchange currency. */
  predicate Matches(p: PairRate, ex: Exchange) {
    p.counter.currency == ex.currency && Some(p.counter.issuer) == ex.issuer
  }

  /** The rate of the last pair whose counter is the exchange currency. */
  function LastMatch(rates: seq<PairRate>, ex: Exchange): (r: Option<real>)
    ensures r.Some? <==> exists i :: 0 <= i < |rates| && Matches(rates[i], ex)
    ensures r.Some? ==> exists i :: && 0 <= i < |rates| && Matches(rates[i], ex)
                                    && r.value == rates[i].rate
                                    && forall j :: i < j < |rates| ==> !Matches(rates[j], ex)
  {
    var k := LastWhere(rates, p => Matches(p, ex));
    if k < 0 then None else Some(rates[k].rate)
  }

  /** The candidate before any conversion query: a matching pair's rate,
      used as it is, else 1 for the native unit, else nothing. */
  function Candidate(rates: seq<PairRate>, ex: Exchange): Option<real> {
    var m := LastMatch(rates, ex);
    if m.Some? then m else if ex.currency == Str then Some(1.0) else None
  }

  /** The conversion query for the exchange currency over `w`. */
  function ConversionQuery(ex: Exchange, w: Window): Query {
    Query(Asset(Str, None), Asset(ex.currency, ex.issuer), w.start, w.end, WholeWindow)
  }

  /** A candidate JavaScript would treat as truthy: set and nonzero. */
  predicate Usable(c: Option<real>) {
    c.Some? && c.value != 0.0
  }

  /** The final rate: a usable candidate, else the conversion query's rate
      used as it is. */
  function FinalRate(rates: seq<PairRate>, ex: Exchange, up: Upstream, w: Window): (r: Result<real>)
    ensures Usable(Candidate(rates, ex)) ==> r == Ok(Candidate(rates, ex).value)
    ensures !Usable(Candidate(rates, ex)) ==>
              && (up(ConversionQuery(ex, w)).Err? ==> r == Err(up(ConversionQuery(ex, w)).error))
              && (up(ConversionQuery(ex, w)).Ok? && HasData(up(ConversionQuery(ex, w)).value) ==>
                    r == Ok(Cell(up(ConversionQuery(ex, w)).value, RateColumn)))
              && (up(ConversionQuery(ex, w)).Ok? && !HasData(up(ConversionQuery(ex, w)).value) ==>
                    r == Err(Wrapped("cannot determine exchange rate")))
  {
    var c := Candidate(rates, ex);
    if Usable(c) then Ok(c.value)
    else
      var rows :- up(ConversionQuery(ex, w));
      if HasData(rows) then Ok(Cell(rows, RateColumn))
      else Err(Wrapped("cannot determine exchange rate"))
  }

  /** For the native exchange currency the rate is 1: no conversion pair
      has the native unit as its counter, so nothing overrides it. */
  lemma NativeFinalRateIsOne(ls: seq<Listing>, rates: seq<PairRate>, up: Upstream, w: Window)
    requires |rates| == |ConversionPairs(ls)|
    requires forall i :: 0 <= i < |rates| ==> rates[i].counter == ConversionPairs(ls)[i]
    ensures FinalRate(rates, Exchange(Str, None), up, w) == Ok(1.0)
  {
    var ex := Exchange(Str, None);
    forall i | 0 <= i < |rates|
      ensures !Matches(rates[i], ex)
    {
      assert ConversionPairs(ls)[i] in ConversionPairs(ls);
    }
  }

  /** For an exchange currency the registry does not list, the conversion
      query's rate is used directly, not its reciprocal. */
  lemma ConversionRateUsedDirectly(ls: seq<Listing>, rates: seq<PairRate>, ex: Exchange, up: Upstream, w: Window)
    requires |rates| == |ConversionPairs(ls)|
    requires forall i :: 0 <= i < |rates| ==> rates[i].counter == ConversionPairs(ls)[i]
    requires ex.currency != Str
    requires forall l :: l in ls ==> !(l.currency == ex.currency && Some(l.issuer) == ex.issuer)
    requires up(ConversionQuery(ex, w)).Ok? && HasData(up(ConversionQuery(ex, w)).value)
    ensures FinalRate(rates, ex, up, w) == Ok(Cell(up(ConversionQuery(ex, w)).value, RateColumn))
  {
    forall i | 0 <= i < |rates|
      ensures !Matches(rates[i], ex)
    {
      assert ConversionPairs(ls)[i] in ConversionPairs(ls);
    }
  }

  // ---------------------------------------------------------------------
  // Finalize

  /** Native-unit value of one entry: the native supply counts at rate 1. */
  function NativeValueOf(p: Priced): real {
    if p.currency == Str then p.amount else p.convertedAmount
  }

  /** The rate in the exchange currency: the final rate over the native
      rate, with no finite value for a zero or unset native rate. */
  function RescaledRate(rate: Option<real>, f: real): (r: Option<real>)
    ensures r.Some? <==> rate.Some? && rate.value != 0.0
    ensures rate == Some(1.0) ==> r == Some(f)
  {
    if rate.Some? && rate.value != 0.0 then Some(f / rate.value) else None
  }

  /** One entry in the exchange currency; the native supply counts at rate 1. */
  function Rescale(p: Priced, f: real): (c: Component)
    ensures c.currency == p.currency && c.issuer == p.issuer && c.amount == p.amount
    ensures c.convertedAmount == NativeValueOf(p) * f
    ensures p.currency == Str ==> c.rate == Some(f)
    ensures p.currency != Str ==> c.rate == RescaledRate(p.rate, f)
  {
    var rate := if p.currency == Str then Some(1.0) else p.rate;
    Component(p.currency, p.issuer, p.amount, RescaledRate(rate, f), NativeValueOf(p) * f)
  }

  /** Every entry rescaled by the final rate, in order. */
  function Finalize(ps: seq<Priced>, f: real): (cs: seq<Component>)
    ensures |cs| == |ps|
    ensures forall i :: 0 <= i < |cs| ==> cs[i] == Rescale(ps[i], f)
    decreases |ps|
  {
    if ps == [] then [] else [Rescale(ps[0], f)] + Finalize(ps[1..], f)
  }

  function Total(cs: seq<Component>): real {
    if cs == [] then 0.0 else cs[0].convertedAmount + Total(cs[1..])
  }

  /** Value of all entries in the native unit. */
  function NativeValue(ps: seq<Priced>): real {
    if ps == [] then 0.0 else NativeValueOf(ps[0]) + NativeValue(ps[1..])
  }

  /** Native-unit value is additive over concatenation. */
  lemma {:induction false} NativeValueAppend(a: seq<Priced>, b: seq<Priced>)
    ensures NativeValue(a + b) == NativeValue(a) + NativeValue(b)
    decreases |a|
  {
    if a == [] {
      assert a + b == b;
    } else {
      assert (a + b)[0] == a[0];
      assert (a + b)[1..] == a[1..] + b;
      NativeValueAppend(a[1..], b);
    }
  }

  /** The total in the exchange currency is the native-unit value scaled by the final rate. */
  lemma {:induction false} TotalIsScaledValue(ps: seq<Priced>, f: real)
    ensures Total(Finalize(ps, f)) == f * NativeValue(ps)
    decreases |ps|
  {
    if ps != [] {
      TotalIsScaledValue(ps[1..], f);
      var cs := Finalize(ps, f);
      assert cs == [Rescale(ps[0], f)] + Finalize(ps[1..], f);
      assert cs[1..] == Finalize(ps[1..], f);
      assert cs[0].convertedAmount == NativeValueOf(ps[0]) * f;
      Distribute(f, NativeValueOf(ps[0]), NativeValue(ps[1..]));
    }
  }

  lemma Distribute(f: real, a: real, b: real)
    ensures a * f + f * b == f * (a + b)
  {
  }

  /** The total is `value`, in the native unit, at the report's final rate. */
  predicate ScaledTotal(rep: Report, value: real) {
    rep.total == rep.exchangeRate * value
  }

  function Assemble(time: int, ex: Exchange, ps: seq<Priced>, f: real): (rep: Report)
    ensures rep.time == time && rep.exchange == ex && rep.exchangeRate == f
    ensures rep.components == Finalize(ps, f)
    ensures ScaledTotal(rep, NativeValue(ps))
  {
    TotalIsScaledValue(ps, f);
    Report(time, ex, f, Total(Finalize(ps, f)), Finalize(ps, f))
  }

  // ---------------------------------------------------------------------
  // The report

  /** The native supply, appended after the registry currencies. */
  function NativeEntry(supply: real): Priced {
    Priced(Str, None, supply, None, 0.0)
  }

  /** The native supply rescaled: rate 1 becomes the final rate, and the
      supply is converted at that rate. */
  lemma NativeRescale(supply: real, f: real)
    ensures Rescale(NativeEntry(supply), f) == Component(Str, None, supply, Some(f), supply * f)
  {
    var p := NativeEntry(supply);
    assert Rescale(p, f).convertedAmount == NativeValueOf(p) * f;
  }

  /** The native supply's component sits after the registry currencies. */
  lemma NativeComponent(ps: seq<Priced>, supply: real, f: real)
    ensures Finalize(ps + [NativeEntry(supply)], f)[|ps|] == Component(Str, None, supply, Some(f), supply * f)
  {
    assert (ps + [NativeEntry(supply)])[|ps|] == NativeEntry(supply);
    NativeRescale(supply, f);
  }

  /** The last component is the native supply, at the report's final rate. */
  predicate EndsWithSupply(rep: Report, supply: real) {
    && |rep.components| > 0
    && rep.components[|rep.components| - 1] ==
         Component(Str, None, supply, Some(rep.exchangeRate), supply * rep.exchangeRate)
  }

  /** The total is the registry currencies' native value plus the native
      supply, all at the report's final rate. */
  predicate TotalOf(rep: Report, priced: seq<Priced>, supply: real) {
    ScaledTotal(rep, NativeValue(priced) + supply)
  }

  /** Appending the native supply adds the supply to the native value. */
  lemma ValueWithSupply(priced: seq<Priced>, supply: real)
    ensures NativeValue(priced + [NativeEntry(supply)]) == NativeValue(priced) + supply
  {
    NativeValueAppend(priced, [NativeEntry(supply)]);
    assert NativeValue([NativeEntry(supply)]) == supply;
  }

  /** The report over the priced registry currencies followed by the native supply. */
  function Finish(time: int, ex: Exchange, priced: seq<Priced>, supply: real, f: real): (rep: Report)
    ensures rep.time == time && rep.exchange == ex && rep.exchangeRate == f
    ensures |rep.components| == |priced| + 1
    ensures EndsWithSupply(rep, supply)
    ensures TotalOf(rep, priced, supply)
  {
    NativeComponent(priced, supply, f);
    ValueWithSupply(priced, supply);
    Assemble(time, ex, priced + [NativeEntry(supply)], f)
  }

  /** The capitalization answer has one entry per listing, in listing order. */
  predicate Matching(hs: seq<Holding>, ls: seq<Listing>) {
    |hs| == |ls| && forall i :: 0 <= i < |hs| ==> hs[i].currency == ls[i].currency
  }

  /** The computation behind the cache: balances, rates, the native supply,
      the final rate, then the totals. `convWindow` is the window of the
      conversion query. */
  function Compute(ex: Exchange, time: int, listings: seq<Listing>, caps: Result<seq<Holding>>,
                   ledger: LedgerRead, up: Upstream, convWindow: Window): (r: Result<Report>)
    requires caps.Ok? ==> Matching(caps.value, listings)
    ensures caps.Err? ==> r == Err(caps.error)
    ensures caps.Ok? ==>
              var rates := Rates(up, time, ConversionPairs(listings));
              && (rates.Err? ==> r == Err(rates.error))
              && (rates.Ok? && Supply(ledger).Err? ==> r == Err(Supply(ledger).error))
              && (rates.Ok? && Supply(ledger).Ok? ==>
                    var f := FinalRate(rates.value, ex, up, convWindow);
                    && (r.Ok? <==> f.Ok?)
                    && (f.Err? ==> r.error == f.error)
                    && (f.Ok? ==> r.value.exchangeRate == f.value &&
                                  NonNativeCount(caps.value) == |rates.value| &&
                                  r.value.components ==
                                    Finalize(Align(caps.value, rates.value) + [NativeEntry(Supply(ledger).value)], f.value)))
    ensures r.Ok? ==>
              && r.value.time == time && r.value.exchange == ex
              && caps.Ok? && Supply(ledger).Ok?
              && |r.value.components| == |listings| + 1
              && EndsWithSupply(r.value, Supply(ledger).value)
              && Rates(up, time, ConversionPairs(listings)).Ok?
              && NonNativeCount(caps.value) == |ConversionPairs(listings)|
              && FinalRate(Rates(up, time, ConversionPairs(listings)).value, ex, up, convWindow)
                   == Ok(r.value.exchangeRate)
              && TotalOf(r.value, Align(caps.value, Rates(up, time, ConversionPairs(listings)).value),
                         Supply(ledger).value)
  {
    var holdings :- caps;
    NonNativeCountMatches(holdings, listings);
    var rates :- Rates(up, time, ConversionPairs(listings));
    var priced := Align(holdings, rates);
    var supply :- Supply(ledger);
    var f :- FinalRate(rates, ex, up, convWindow);
    Ok(Finish(time, ex, priced, supply, f))
  }

  /** Every registry currency is priced with the average price of its own
      listing's rate query, whichever listings are native. */
  lemma PricedFromRows(hs: seq<Holding>, ls: seq<Listing>, up: Upstream, time: int)
    requires Matching(hs, ls) && Rates(up, time, ConversionPairs(ls)).Ok?
    ensures NonNativeCount(hs) == |Rates(up, time, ConversionPairs(ls)).value|
    ensures forall i :: 0 <= i < |hs| && hs[i].currency != Str ==>
              && up(RateQuery(ls[i], time)).Ok?
              && Align(hs, Rates(up, time, ConversionPairs(ls)).value)[i]
                   == PriceOf(hs[i], Cell(up(RateQuery(ls[i], time)).value, RateColumn))
  {
    var rates := Rates(up, time, ConversionPairs(ls)).value;
    AlignUsesOwnPair(hs, ls, rates);
    forall i | 0 <= i < |hs| && hs[i].currency != Str
      ensures && up(RateQuery(ls[i], time)).Ok?
              && Align(hs, rates)[i] == PriceOf(hs[i], Cell(up(RateQuery(ls[i], time)).value, RateColumn))
    {
      OwnPair(hs, ls, i);
      RateFromRows(up, time, ConversionPairs(ls), PairIndex(ls, i));
    }
  }

  /** Each component of a report: a registry currency converted at the
      average price of its own listing's rate query, a native listing at no
      rate, and the native supply last. */
  lemma ComponentsFromRows(ex: Exchange, time: int, listings: seq<Listing>, caps: Result<seq<Holding>>,
                           ledger: LedgerRead, up: Upstream, convWindow: Window, rep: Report)
    requires caps.Ok? && Matching(caps.value, listings)
    requires Compute(ex, time, listings, caps, ledger, up, convWindow) == Ok(rep)
    ensures |rep.components| == |listings| + 1
    ensures forall i :: 0 <= i < |listings| && listings[i].currency != Str ==>
              && up(RateQuery(listings[i], time)).Ok?
              && rep.components[i] == Rescale(PriceOf(caps.value[i], Cell(up(RateQuery(listings[i], time)).value, RateColumn)),
                                              rep.exchangeRate)
    ensures forall i :: 0 <= i < |listings| && listings[i].currency == Str ==>
              rep.components[i] == Rescale(NativeHolding(caps.value[i]), rep.exchangeRate)
  {
    var hs := caps.value;
    assert Rates(up, time, ConversionPairs(listings)).Ok?;
    var rates := Rates(up, time, ConversionPairs(listings)).value;
    PricedFromRows(hs, listings, up, time);
    var ps := Align(hs, rates) + [NativeEntry(Supply(ledger).value)];
    assert rep.components == Finalize(ps, rep.exchangeRate);
    assert forall i :: 0 <= i < |hs| ==> ps[i] == Align(hs, rates)[i];
  }

  /** A request without a time is a snapshot of the current second, cached
      for 240 seconds; a valid past time is its own snapshot, cached without
      expiry (for an exchange spelled without ":l") under a key of its own. */
  lemma SnapshotCaching(ex: Exchange, now: int, t: TimeParam)
    ensures t.Absent? ==>
              SnapshotTime(now, t) == Ok(now) &&
              Expiry(NetworkValueKey(ex, now, now)) == Some(LiveTtl)
    ensures Valid(t) && t.parsed.value != now ==>
              && SnapshotTime(now, t) == Ok(t.parsed.value)
              && (NoColonL(KeyHead("TNV", ex)) ==> Expiry(NetworkValueKey(ex, t.parsed.value, now)).None?)
              && forall u :: NetworkValueKey(ex, u, now) == NetworkValueKey(ex, t.parsed.value, now) ==> u == t.parsed.value
  {
    NetworkValueExpiry(ex, now, now);
    if Valid(t) && t.parsed.value != now {
      var time := t.parsed.value;
      if NoColonL(KeyHead("TNV", ex)) {
        NoColonLNoMarker(KeyHead("TNV", ex));
        NetworkValueExpiry(ex, time, now);
      }
      forall u | NetworkValueKey(ex, u, now) == NetworkValueKey(ex, time, now)
        ensures u == time
      {
        NetworkValueKeyInjective(ex, u, time, now);
      }
    }
  }

  /** The report: exchange guard and snapshot time first, then the cache
      decision around the computation. */
  function NetworkValue(req: Request, now: int, reg: Registry, cacheEnabled: bool,
                        read: CacheRead<Report>, caps: Result<seq<Holding>>, ledger: LedgerRead,
                        up: Upstream, convWindow: Window): (s: Served<Report>)
    requires caps.Ok? ==> Matching(caps.value, Listings(reg.gateways))
    ensures ValidateExchange(Str, req.exchange).Err? ==>
              s == Served(Err(ValidateExchange(Str, req.exchange).error), None)
    ensures ValidateExchange(Str, req.exchange).Ok? && SnapshotTime(now, req.time).Err? ==>
              s == Served(Err(SnapshotTime(now, req.time).error), None)
    ensures ValidateExchange(Str, req.exchange).Ok? && SnapshotTime(now, req.time).Ok? ==>
              var computed := Compute(ValidateExchange(Str, req.exchange).value, SnapshotTime(now, req.time).value,
                                      Listings(reg.gateways), caps, ledger, up, convWindow);
              && (cacheEnabled && read.ReadError? ==> s.reply == Err(Text("Redis - " + read.error)))
              && (cacheEnabled && read.Hit? ==>
                    s.reply == Ok(if req.history then Probe(true) else Cached(read.payload)))
              && (!cacheEnabled || read.Miss? ==>
                    s.reply == if computed.Err? then Err(computed.error)
                               else Ok(if req.history then Probe(false) else Fresh(computed.value)))
              && (s.write.Some? <==> cacheEnabled && read.Miss? && computed.Ok?)
              && (s.write.Some? ==> s.write.value.payload == computed.value)
    ensures s.reply.Ok? && s.reply.value.Fresh? ==>
              |s.reply.value.report.components| == |Listings(reg.gateways)| + 1
    ensures s.write.Some? ==>
              && ValidateExchange(Str, req.exchange).Ok? && SnapshotTime(now, req.time).Ok?
              && s.write.value.key == NetworkValueKey(ValidateExchange(Str, req.exchange).value,
                                                      SnapshotTime(now, req.time).value, now)
              && (s.write.value.ttl.Some? <==>
                    IsLive(SnapshotTime(now, req.time).value, now) ||
                    Contains(KeyHead("TNV", ValidateExchange(Str, req.exchange).value), LiveMarker))
  {
    match ValidateExchange(Str, req.exchange)
    case Err(e) => Served(Err(e), None)
    case Ok(ex) =>
      match SnapshotTime(now, req.time)
      case Err(e) => Served(Err(e), None)
      case Ok(time) =>
        var key := NetworkValueKey(ex, time, now);
        NetworkValueExpiry(ex, time, now);
        Serve(cacheEnabled, req.history, key, read,
              Compute(ex, time, Listings(reg.gateways), caps, ledger, up, convWindow))
  }
}

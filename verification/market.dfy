/** The interface to the trade-aggregation query (`offersExercised`), the
    extraction of one statistic from its rows, and the fan-out that runs one
    query per pair (`async.map` / `async.mapLimit`). */
module Market {
  import opened Common

  /** A currency as it is sent to the aggregation query. */
  datatype Asset = Asset(currency: string, issuer: Option<string>)

  /** `reduce:false, limit:1, descending:true` (the most recent trade) or
      `timeIncrement:'all'` (one bucket over the whole window). */
  datatype Mode = LastTrade | WholeWindow

  datatype Query = Query(base: Asset, counter: Asset, start: int, end: int, mode: Mode)

  /** The query's rows: a header row, then data rows of numeric columns. */
  type Rows = seq<seq<real>>

  /** The aggregation query as a function of its options. It is the only
      source of market data; its failures are passed on verbatim. */
  type Upstream = Query -> Result<Rows>

  /** Columns of an aggregated row. */
  const AmountColumn := 1
  const CountColumn := 3
  const CloseColumn := 7
  const RateColumn := 8
  /** Column of the price in a last-trade row. */
  const LastPriceColumn := 1

  /** True when the query found data: a header row and at least one data row. */
  predicate HasData(rows: Rows) {
    |rows| > 1
  }

  /** `data[1][k]`, or 0 when there is no data row. */
  function Cell(rows: Rows, k: nat): (v: real)
    ensures !HasData(rows) ==> v == 0.0
    ensures HasData(rows) && k < |rows[1]| ==> v == rows[1][k]
  {
    if HasData(rows) && k < |rows[1]| then rows[1][k] else 0.0
  }

  /** A trade count read from the count column. */
  function CountCell(rows: Rows): (n: int)
    ensures !HasData(rows) ==> n == 0
    ensures n as real <= Cell(rows, CountColumn) < n as real + 1.0
  {
    Cell(rows, CountColumn).Floor
  }

  /** The position of the last element satisfying `p`, or -1 when none does. */
  function LastWhere<T>(xs: seq<T>, p: T -> bool): (k: int)
    ensures -1 <= k < |xs|
    ensures k >= 0 ==> p(xs[k])
    ensures forall j :: k < j < |xs| ==> !p(xs[j])
    decreases |xs|
  {
    if xs == [] then -1
    else if p(xs[|xs| - 1]) then |xs| - 1
    else LastWhere(xs[..|xs| - 1], p)
  }

  /** The first index at which `f` fails, when there is one. */
  predicate FirstFailureAt<A, B>(xs: seq<A>, f: A -> Result<B>, i: int) {
    && 0 <= i < |xs|
    && f(xs[i]).Err?
    && forall j :: 0 <= j < i ==> f(xs[j]).Ok?
  }

  /** Runs `f` on every element: the results in input order when all
      succeed, otherwise the error of an element that fails. */
  function FanOut<A, B>(xs: seq<A>, f: A -> Result<B>): (r: Result<seq<B>>)
    ensures r.Ok? <==> forall i :: 0 <= i < |xs| ==> f(xs[i]).Ok?
    ensures r.Ok? ==> |r.value| == |xs| &&
                      forall i :: 0 <= i < |xs| ==> r.value[i] == f(xs[i]).value
    decreases |xs|
  {
    if xs == [] then Ok([])
    else
      match f(xs[0])
      case Err(e) => Err(e)
      case Ok(y) =>
        match FanOut(xs[1..], f)
        case Err(e) => Err(e)
        case Ok(ys) => Ok([y] + ys)
  }

  /** A failed fan-out reports the error of the first element that fails. */
  lemma {:induction false} FanOutFirstError<A, B>(xs: seq<A>, f: A -> Result<B>, i: int)
    requires FirstFailureAt(xs, f, i)
    ensures FanOut(xs, f) == Err(f(xs[i]).error)
    decreases |xs|
  {
    if i > 0 {
      assert FirstFailureAt(xs[1..], f, i - 1);
      FanOutFirstError(xs[1..], f, i - 1);
    }
  }

  /** The fan-out distributes over concatenation: splitting the input into
      batches and joining the batches' results changes nothing. */
  lemma FanOutAppend<A, B>(xs: seq<A>, ys: seq<A>, f: A -> Result<B>)
    ensures FanOut(xs + ys, f).Ok? <==> FanOut(xs, f).Ok? && FanOut(ys, f).Ok?
    ensures FanOut(xs + ys, f).Ok? ==> FanOut(xs + ys, f).value == FanOut(xs, f).value + FanOut(ys, f).value
  {
    var zs := xs + ys;
    assert forall i :: 0 <= i < |xs| ==> zs[i] == xs[i];
    assert forall i :: 0 <= i < |ys| ==> zs[|xs| + i] == ys[i];
    if FanOut(zs, f).Ok? {
      var r := FanOut(xs, f).value + FanOut(ys, f).value;
      assert forall i :: |xs| <= i < |zs| ==> r[i] == FanOut(ys, f).value[i - |xs|];
    }
  }

  /** Batches fail with the error of the first failing batch. */
  lemma {:induction false} FanOutAppendError<A, B>(xs: seq<A>, ys: seq<A>, f: A -> Result<B>)
    ensures FanOut(xs + ys, f).Err? ==>
              FanOut(xs + ys, f).error == if FanOut(xs, f).Err? then FanOut(xs, f).error else FanOut(ys, f).error
    decreases |xs|
  {
    if xs == [] {
      assert xs + ys == ys;
    } else {
      var zs := xs + ys;
      assert zs[0] == xs[0];
      assert zs[1..] == xs[1..] + ys;
      FanOutAppendError(xs[1..], ys, f);
    }
  }
}

# Exchange-rate normalization and aggregation, in Dafny

This project models the decision logic of three report routes of a
ledger-analytics API:

- **exchange rates** (`api/routes/exchangeRates.js`). For each requested
  (base, counter) pair it reports the volume-weighted average and closing
  price over a named range, or only the last traded price. Pairs whose
  average is zero are dropped.
- **top markets** (`api/routes/topMarkets.js`). It reports the trading volume
  of every registry market quoted in the native unit "XPS". The volume is
  converted into a requested exchange currency, with a converted total and a
  trade-count total.
- **total network value** (`api/routes/totalNetworkValue.js`). It reports the
  outstanding balance of every registry currency plus the native "STR"
  supply. Each is priced in the native unit, then all are converted into a
  requested exchange currency at one snapshot time.

The model covers:

- the currency validators and the exchange-currency guard;
- the time-window rules;
- the per-pair fan-out, which keeps input order and aborts on the first error;
- reading statistics out of the aggregation query's rows;
- the exchange-rate selection, including the one extra conversion query;
- the totals;
- the cache-aside layer: key shape, the 240-second expiry of ":live" keys,
  and the hit, history-probe and miss decisions.

Modules:

| file | module | contents |
|---|---|---|
| common.dfy | `Common` | `Option`, `Result` (usable with `:-`), the error values, JavaScript truthiness of strings |
| strings.dfy | `Strings` | ASCII upper-casing, decimal rendering of integers, substring search |
| currency.dfy | `Currency` | `parseCurrency`, `parseCurrencyPair`, the exchange guard, registry listings |
| timewindow.dfy | `TimeWindow` | named ranges, start/end resolution, the snapshot instant |
| market.dfy | `Market` | the aggregation query as a function, row cells, the fan-out |
| cache.dfy | `Cache` | cache keys, expiry, the cache-aside decision |
| exchangerates.dfy | `ExchangeRates` | the exchange-rates report |
| topmarkets.dfy | `TopMarkets` | the top-markets report |
| networkvalue.dfy | `NetworkValue` | the total-network-value report |

Everything outside the routes is a parameter:

- The aggregation query `offersExercised` is a function `Query -> Result<Rows>`.
- The gateway registry (address check, name lookups, gateway list) is a
  `Registry` value of functions and data.
- The following are input values:
  - the current time, and the instants one month and one year back;
  - the cache read;
  - the issuer-capitalization answer;
  - the ledger read.
- A report returns a `Served` value. It holds the reply and, if any, the
  cache entry to write back with its expiry.

## Model

| member | source | states |
|---|---|---|
| Currency.ParseCurrency | api/routes/exchangeRates.js:172-199 | A missing code is rejected. The code is upper-cased. The native code is accepted exactly when no issuer is given. Any other code needs an issuer: an address is kept and its gateway name looked up; any other issuer is a gateway name that must resolve to an address for that code. |
| Currency.ParseCurrencyIgnoresCase | api/routes/exchangeRates.js:177 | Upper-casing the code before validation changes nothing. |
| Currency.AddressAndNameAgree | api/routes/exchangeRates.js:185-195 | Given as a gateway name or as the address it resolves to, an issuer yields the same canonical code and issuer. |
| Currency.ParseCurrencyPair | api/routes/exchangeRates.js:159-169 | A pair is valid exactly when both sides are present and both parse. Its sides are the parsed currencies. |
| Currency.ValidateExchange | api/routes/topMarkets.js:67-75 | A falsy exchange defaults to the native unit. Otherwise each guard fails with its own message, in source order. The code is upper-cased for the issuer-required test but compared as given for the no-issuer test. An accepted exchange is kept as spelled. |
| Currency.LowerCaseNativeWithIssuerPasses | api/routes/topMarkets.js:72-75 | "xps" with an issuer passes the guard; "XPS" with an issuer does not. |
| Currency.AccountListings | api/routes/topMarkets.js:80-84 | An account yields one listing per currency, in order, each issued by the account's address. |
| Currency.Listings | api/routes/topMarkets.js:78-87 | Every enumerated listing is a currency of some gateway account, issued by that account's address. |
| Currency.ListingsMembership | api/routes/topMarkets.js:78-87 | A listing is enumerated exactly when some gateway's account lists that currency. |
| Currency.ListingsAppend | api/routes/topMarkets.js:78-87 | Enumeration keeps registry order: the listings of joined gateway lists are joined. |
| TimeWindow.RangeStart | api/routes/exchangeRates.js:76-89 | Last-price mode starts at 2013-01-01 whatever the range. A falsy range means "day". "hour", "day" and "week" start one hour, day or week before now; "month" and "year" start at the clock's instants one month and one year back. Any other range is "invalid time range". |
| TimeWindow.CandidateWindow | api/routes/topMarkets.js:93-124 | With neither time present, the window is the 24 hours before now. A valid end alone, even beside an unparseable start, gives the 24 hours before it. Two valid times give the window between them. Otherwise an unparseable start gives "invalid startTime", else an unparseable end gives "invalid endTime", and a valid start with no end gives "invalid time". An absent field counts as parseable; empty text does not. |
| TimeWindow.ResolveWindow | api/routes/topMarkets.js:93-132 | An accepted window has start < end. Reversed times are swapped. Equal times are refused with "please provide 2 distinct times". The "invalid startTime", "invalid endTime" and "invalid time" refusals are those of the candidate window, and a start without an end is always refused. |
| TimeWindow.ResolveWindowSymmetric | api/routes/topMarkets.js:98-106 | The order in which two valid times are given does not matter. |
| TimeWindow.SnapshotTime | api/routes/totalNetworkValue.js:100-102 | An absent time is now, a parsed time is itself, and an unparseable one (empty text included) fails with "invalid time: " and the raw text. The snapshot exists exactly when the time is absent or parses. |
| Strings.NatToStringRoundTrip | api/routes/topMarkets.js:142 | The decimal rendering of a unix time in a key can be read back to the same number. |
| Strings.IntToStringInjective | api/routes/topMarkets.js:142 | Distinct integers render to distinct key text. |
| Strings.MarkerStaysInPrefix | api/routes/topMarkets.js:289 | Appending a suffix that starts with ':' and has no ":l" neither creates nor removes a ":live" match. |
| Strings.NoColonLNoMarker | api/routes/topMarkets.js:289 | Text with no ':' followed by 'l' does not contain ":live". |
| Cache.Expiry | api/routes/topMarkets.js:289 | A written entry gets a 240-second expiry exactly when its key contains ":live". |
| Cache.TopMarketsExpiry | api/routes/topMarkets.js:135-143 | A top-markets entry expires exactly when its window ends now, or when the exchange's own spelling puts ":live" into the key. |
| Cache.NetworkValueExpiry | api/routes/totalNetworkValue.js:110-118 | The same rule for network-value entries and their snapshot time. |
| Cache.KeyHeadFormat | api/routes/topMarkets.js:136-137 | A key head reads back as the prefix and ':', the currency as spelled, and '.' plus the issuer exactly when the issuer is truthy. |
| Cache.TopMarketsKey | api/routes/topMarkets.js:136-143 | A top-markets key is the "TM" head followed by ":live:" and the window length for a live window, or ":hist:" and the start and end instants otherwise. |
| Cache.NetworkValueKey | api/routes/totalNetworkValue.js:111-118 | A network-value key is the "TNV" head followed by ":live" for a live snapshot, or ":hist:" and the instant otherwise. |
| Cache.ExpiryIffLive | api/routes/totalNetworkValue.js:113-118 | When neither key head has ':' directly before 'l', an entry expires exactly when it is live. The head is "TM:" or "TNV:" followed by the code, so this excludes every currency code that starts with 'l', as well as codes and issuers containing ":l". |
| Cache.TopMarketsKeyInjective | api/routes/topMarkets.js:136-143 | Two windows share a key only when both are live with the same length, or both are the same past window. |
| Cache.NetworkValueKeyInjective | api/routes/totalNetworkValue.js:111-118 | Two past snapshots share a key only when they are the same instant. |
| Cache.Serve | api/routes/topMarkets.js:145-152 | With the cache on: a read error is reported with the prefix "Redis - "; a hit answers from the cache (true in history mode); a miss computes. A computed report is written back only with the cache on and a miss. In history mode a computed report answers false. |
| Cache.HitIgnoresComputation | api/routes/topMarkets.js:145-149 | A cache hit does not depend on the computation. |
| Cache.WriteThenReadRoundTrip | api/routes/topMarkets.js:251-256 | A miss writes exactly the report it answers with, and a later hit on that entry serves it unchanged. |
| Market.Cell | api/routes/topMarkets.js:182-190 | A statistic comes from the first data row, or is 0 when the query found no data. |
| Market.CountCell | api/routes/topMarkets.js:184 | The trade count is the count column, 0 without data. |
| Market.FanOut | api/routes/exchangeRates.js:113-153 | The per-pair map succeeds exactly when every query succeeds. It then gives one result per pair, in input order. |
| Market.FanOutFirstError | api/routes/exchangeRates.js:132 | A failed map reports the error of the first pair whose query fails. |
| Market.FanOutAppend | api/routes/exchangeRates.js:113 | Running the map in consecutive batches succeeds exactly when every batch does, with the batches' results joined. |
| Market.FanOutAppendError | api/routes/exchangeRates.js:113 | A batched map fails with the error of the first failing batch. |
| ExchangeRates.RequestedPairs | api/routes/exchangeRates.js:91-98 | An array of pairs is used as given. Otherwise base and counter form one pair. Otherwise the request is refused. |
| ExchangeRates.ParsePairs | api/routes/exchangeRates.js:100-108 | All pairs parse, giving the parsed pairs in order; or the error names the first pair that does not. |
| ExchangeRates.QueryFor | api/routes/exchangeRates.js:113-128 | A pair's query covers the window with its validated currencies. It is a most-recent-trade query in last-price mode and one aggregate bucket otherwise. |
| ExchangeRates.Annotate | api/routes/exchangeRates.js:134-144 | Last-price mode sets only `last`, 0 without data. Otherwise the average and close come from the data row. Without data the rate is 0 and close is unset. |
| ExchangeRates.KeepNonZero | api/routes/exchangeRates.js:151 | Exactly the entries whose rate is not 0 are kept; an unset rate is kept. |
| ExchangeRates.KeepNonZeroAppend | api/routes/exchangeRates.js:151 | The filter keeps input order. |
| ExchangeRates.KeepNonZeroKeepsUnset | api/routes/exchangeRates.js:151 | Entries without a rate are never dropped. |
| ExchangeRates.Admit | api/routes/exchangeRates.js:76-110 | The checks run in source order: range, request shape, every pair's validity (the first invalid one named), then the cap of 50 on the raw request length. A request passing all of them yields the window start and the parsed pairs. |
| ExchangeRates.ExchangeRates | api/routes/exchangeRates.js:74-153 | A refused request gives the check's error. Otherwise the answer exists exactly when every pair's query succeeds. It is then the annotated pairs whose rate is not 0, in request order; otherwise it is the first failing query's error. An answer has no zero rate and at most as many entries as requested, never more than 50. In last-price mode no entry has a rate. |
| ExchangeRates.AnsweredPairs | api/routes/exchangeRates.js:130-152 | In average mode, an entry is in the answer exactly when some requested pair's query found a data row whose average price is not 0. The entry then carries the pair, that average price and the row's close price. |
| ExchangeRates.EntryFromRows | api/routes/exchangeRates.js:138-151 | An average-mode entry survives the zero filter exactly when its data row exists and has a non-zero average price. |
| ExchangeRates.TooManyPairsRefused | api/routes/exchangeRates.js:110 | More than 50 valid pairs are refused whatever the market data. |
| ExchangeRates.InvalidPairRefused | api/routes/exchangeRates.js:100-110 | The first invalid pair is reported by position, before the cap and before any query. |
| ExchangeRates.LastModeKeepsEveryPair | api/routes/exchangeRates.js:122-151 | In last-price mode every requested pair is answered, in request order. |
| ExchangeRates.ZeroTradePairDropped | api/routes/exchangeRates.js:138-151 | A single BTC/XPS pair with no trades gives an empty answer. |
| TopMarkets.MarketPairs | api/routes/topMarkets.js:78-87 | One market per registry listing, in order: the listed currency and issuer against the native unit. |
| TopMarkets.StatOf | api/routes/topMarkets.js:182-190 | A market's rate, count and amount come from the data row, or are all zero without data. |
| TopMarkets.FetchStat | api/routes/topMarkets.js:169-191 | A market's statistic exists exactly when its query succeeds, and is read from that query's rows; the query's error is passed on. |
| TopMarkets.Stats | api/routes/topMarkets.js:169-196 | One statistic per market, in market order. |
| TopMarkets.StatFromRows | api/routes/topMarkets.js:169-195 | In a successful fan-out, the i-th statistic is read from the i-th market's own query rows. |
| TopMarkets.DirectRate | api/routes/topMarkets.js:202-206 | The recorded rate of the exchange currency is that of the last market quoting it, and is absent when no market quotes it. |
| TopMarkets.ExchangeRateFor | api/routes/topMarkets.js:210-235 | The native unit gives 1. A nonzero direct rate gives its reciprocal. Otherwise the conversion query's rate is used as it is; its error is passed on, and no data gives "cannot determine exchange rate". |
| TopMarkets.Convert | api/routes/topMarkets.js:239-241 | A market keeps its pair, count and amount. Its rate is scaled by the exchange rate, and its converted amount is its amount times that scaled rate. |
| TopMarkets.Finalize | api/routes/topMarkets.js:237-244 | Every market is converted, in market order. |
| TopMarkets.ConvertedFromRows | api/routes/topMarkets.js:182-190 | A market converted from its rows has rate = average column × exchange rate, and the count and amount columns. |
| TopMarkets.FinalizedFromRows | api/routes/topMarkets.js:169-244 | After a successful fan-out, converted market i has rate = row_i[8] × exchange rate, count = row_i[3] and amount = row_i[1], all zero without a data row. With Compute this describes every component of a report. |
| TopMarkets.TotalIsScaledVolume | api/routes/topMarkets.js:237-247 | The converted total is the exchange rate times the native-unit volume (the sum of amount × rate). |
| TopMarkets.CountIsTradeCount | api/routes/topMarkets.js:243-248 | The count is the sum of the markets' trade counts, whatever the exchange rate. |
| TopMarkets.TwoMarketsInNativeUnit | api/routes/topMarkets.js:237-248 | For two markets in the native unit, the total is the sum of amount × rate and the count the sum of counts. |
| TopMarkets.Assemble | api/routes/topMarkets.js:237-249 | The report carries the window, exchange and rate, and totals as above. |
| TopMarkets.Compute | api/routes/topMarkets.js:159-258 | A failing market query fails the report with that query's error. Otherwise the report exists exactly when the exchange rate is found, and fails with its error when not. Its exchange rate is that of ExchangeRateFor. Its components are the converted statistics, one per market in market order, with totals as above. Its rate is 1 for the native unit. |
| TopMarkets.TopMarkets | api/routes/topMarkets.js:64-152 | Guard and window errors come before the cache and the queries, and nothing is written then. After them, with the cache on, a read error answers "Redis - " and the error, and a hit answers the stored report (true in history mode). With the cache off or on a miss, the answer is the computed report (false in history mode) or its error. An entry is written exactly on an enabled miss with a computed report, and holds that report. A fresh report has start < end and one component per market. A written entry uses the top-markets key, and expires exactly when live or when the exchange spelling contains ":live". |
| NetworkValue.ConversionPairs | api/routes/totalNetworkValue.js:85-96 | The listings that are not "STR", in registry order. |
| NetworkValue.ConversionPairsAppend | api/routes/totalNetworkValue.js:85-96 | Building the pairs keeps registry order. |
| NetworkValue.RateQuery | api/routes/totalNetworkValue.js:222-228 | A rate query covers the 72 hours up to the snapshot, "STR" against the listing, in one bucket. |
| NetworkValue.FetchRate | api/routes/totalNetworkValue.js:229-238 | A pair's rate is the average column of the data row, 0 without data. A query error is passed on. |
| NetworkValue.Rates | api/routes/totalNetworkValue.js:217-244 | One rate per conversion pair, in pair order. |
| NetworkValue.RateFromRows | api/routes/totalNetworkValue.js:220-238 | In a successful fan-out, pair k's rate is the average price in its own 72-hour query's data row, or 0 without one. |
| NetworkValue.PriceOf | api/routes/totalNetworkValue.js:148-149 | A balance priced at a nonzero rate is converted so that converted × rate = amount; at rate 0 the converted amount is 0. |
| NetworkValue.NonNativeCountMatches | api/routes/totalNetworkValue.js:77-96 | A capitalization answer in listing order has one non-native entry per conversion pair. |
| NetworkValue.Align | api/routes/totalNetworkValue.js:147-149 | The k-th non-native balance is priced with the k-th rate, and native balances take none. |
| NetworkValue.OwnPair | api/routes/totalNetworkValue.js:85-96 | For balances in listing order, the position Align uses for non-native balance i is that of listing i's own conversion pair. |
| NetworkValue.AlignUsesOwnPair | api/routes/totalNetworkValue.js:147-149 | With rates fetched for the conversion pairs in order, every non-native balance i is priced with the rate whose pair is listing i. |
| NetworkValue.PricedFromRows | api/routes/totalNetworkValue.js:142-149 | Every non-native balance i is priced with the average price from listing i's own 72-hour rate query. |
| NetworkValue.AlignWithoutNative | api/routes/totalNetworkValue.js:147-149 | Without native listings, balance i takes rate i, as the source does. |
| NetworkValue.PriceAsWritten | api/routes/totalNetworkValue.js:147-149 | As written: rate i goes to capitalization entry i, and entries past the last rate get none. |
| NetworkValue.NativeListingShiftsRates | api/routes/totalNetworkValue.js:140-149 | A registry listing "STR" before "USD": as written the STR balance takes USD's rate and USD none; aligned, USD takes its own. |
| NetworkValue.Supply | api/routes/totalNetworkValue.js:277-286 | A listing or fetch error is reported with the prefix "CouchDB - ", and no ledger gives "no ledgers saved". Otherwise the supply is the ledger's total. |
| NetworkValue.CoinsRoundTrip | api/routes/totalNetworkValue.js:284 | The supply in native units times 1,000,000 is the ledger's total. |
| NetworkValue.LastMatch | api/routes/totalNetworkValue.js:147-155 | The matching rate belongs to the last pair whose counter is the exchange currency and issuer. It is absent when no pair matches. |
| NetworkValue.FinalRate | api/routes/totalNetworkValue.js:145-178 | A usable candidate (a matching rate, else 1 for "STR") is used as it is, with no reciprocal. A zero or missing one falls back to the conversion query's rate. That query's error is passed on, and no data gives the wrapped "cannot determine exchange rate". |
| NetworkValue.NativeFinalRateIsOne | api/routes/totalNetworkValue.js:145 | For the "STR" exchange the final rate is 1, because no conversion pair can override it. |
| NetworkValue.ConversionRateUsedDirectly | api/routes/totalNetworkValue.js:166-176 | For an exchange currency the registry does not list, the conversion query's rate is the final rate, not its reciprocal. |
| NetworkValue.RescaledRate | api/routes/totalNetworkValue.js:192 | A rescaled rate exists exactly for a nonzero native rate; from rate 1 it is the final rate. |
| NetworkValue.Rescale | api/routes/totalNetworkValue.js:186-192 | A component keeps currency, issuer and amount. Its converted amount is its native value times the final rate, and "STR" gets the final rate as its rate. |
| NetworkValue.Finalize | api/routes/totalNetworkValue.js:184-194 | Every entry is rescaled, in order. |
| NetworkValue.NativeValueAppend | api/routes/totalNetworkValue.js:193 | Native-unit value adds up over concatenation. |
| NetworkValue.TotalIsScaledValue | api/routes/totalNetworkValue.js:184-197 | The total is the final rate times the entries' native-unit value. |
| NetworkValue.NativeRescale | api/routes/totalNetworkValue.js:186-191 | The STR supply, rescaled, has rate = final rate and converted amount = supply × final rate. |
| NetworkValue.NativeComponent | api/routes/totalNetworkValue.js:160-191 | The STR component follows the registry currencies, with that rate and converted amount. |
| NetworkValue.Assemble | api/routes/totalNetworkValue.js:182-198 | The report carries time, exchange and final rate. Its components are the rescaled entries and its total is as above. |
| NetworkValue.Finish | api/routes/totalNetworkValue.js:157-198 | The STR component comes last, and the total is the final rate times (registry native value + supply). |
| NetworkValue.Compute | api/routes/totalNetworkValue.js:129-211 | Errors are passed on in source order: capitalization, then the rate queries, then the ledger read, then the final rate. The report exists exactly when all of these succeed. Its exchange rate is the final rate, and its components are the aligned balances followed by the STR supply, all rescaled by that rate. It has one component per listing plus STR last, and its total is the final rate times (aligned native value + supply). |
| NetworkValue.ComponentsFromRows | api/routes/totalNetworkValue.js:142-194 | Component i of a report is balance i, priced at the average price of listing i's own rate query and rescaled by the final rate. A native listing's balance is rescaled at no rate. |
| NetworkValue.SnapshotCaching | api/routes/totalNetworkValue.js:100-118 | A request without a time is a snapshot of now, cached for 240 seconds. A valid past time is its own snapshot. For an exchange spelled without ":l", that snapshot is cached without expiry, under a key no other instant shares. |
| NetworkValue.NetworkValue | api/routes/totalNetworkValue.js:62-127 | Guard and time errors come before the cache and any query. After them, with the cache on, a read error answers "Redis - " and the error, and a hit answers the stored report (true in history mode). With the cache off or on a miss, the answer is the computed report (false in history mode) or its error. An entry is written exactly on an enabled miss with a computed report, and holds that report. A fresh report has one component per listing plus STR. A written entry uses the network-value key, and expires exactly when live or when the exchange spelling contains ":live". |

## Findings

| source | as written | input that shows it | evidently intended | confidence | as-written member | corrected member |
|---|---|---|---|---|---|---|
| api/routes/totalNetworkValue.js:147-149 | Rates come one per conversion pair, where "STR" listings are skipped (lines 86-96). The capitalization answer comes one per listing (line 133). The loop pairs the two by position. | A registry listing "STR" and then "USD" with issuer "G": the STR balance takes USD's rate and the USD balance gets none. Its converted amount stays undefined, so the total is NaN. | Each balance is priced with the rate of its own currency's pair. | not executed; medium, because it depends on the registry listing the code "STR" and on the capitalization answer having one entry per listing | NetworkValue.PriceAsWritten, NetworkValue.NativeListingShiftsRates | NetworkValue.Align, NetworkValue.AlignUsesOwnPair |

The network-value report in this model (`NetworkValue.Compute`) uses
`NetworkValue.Align`. Each balance gets the rate of its own listing's pair
(`NetworkValue.AlignUsesOwnPair`). For registries without a native listing it
agrees with the source (`NetworkValue.AlignWithoutNative`).

## Left out

- api/library/couchClient.js is not part of this model. It only instruments
  database calls with timing, metrics and logging.
- Redis reads and writes, the CouchDB ledger read, the issuer-capitalization
  collaborator and the aggregation query are inputs or function parameters.
  Their internals are not modelled. The model assumes the capitalization
  answer has one entry per listing, in listing order.
- The gateway registry functions (address check, name-to-address,
  address-to-name, gateway list) are uninterpreted fields of `Registry`.
- Date handling:
  - Parsing and formatting of times are not modelled. Times are integer unix
    seconds, and a parsed time is given with the request.
  - The instants one month and one year before now are clock inputs.
  - A time field is either absent or text. Non-string JSON values (null,
    numbers) are not modelled.
- Numbers:
  - JavaScript doubles are modelled as exact reals. NaN, Infinity and
    rounding are not modelled.
  - A rate of 0 in `finalRate / rate` gives `None` instead of Infinity.
  - A data row too short to hold the column read gives 0 instead of
    `undefined`.
  - Market.CountCell: takes the integer part of the count column, because
    counts are modelled as integers; upstream counts are whole numbers.
- Concurrency:
  - `async.map` and `async.mapLimit(…, 50)` are a sequential,
    order-preserving map.
  - When several queries fail, the model reports the first in input order.
    The source reports whichever fails first in time.
- Callback-plumbing defects outside the report logic:
  - The `return callback(...)` inside `forEach` at
    api/routes/exchangeRates.js:100-108 does not stop processing, so the
    callback may be called several times. ExchangeRates.ParsePairs models
    only the first call: the position of the first invalid pair. The error
    text's JSON rendering of the pair is not modelled.
  - `cacheResponse` can call back after the response was sent
    (api/routes/topMarkets.js:286-292, api/routes/totalNetworkValue.js:289-295).
    Write errors and the logging are not modelled.
  - `getConversion` in api/routes/totalNetworkValue.js:168-172 passes
    `startTime` and `endTime`, which that route never declares. As written,
    evaluating `endTime` at line 170 throws a ReferenceError, and so does
    `startTime` at line 169 unless some other code left a global of that
    name. So when no usable rate is found, that path never answers.
    NetworkValue.FinalRate instead runs the conversion query over a window
    given as a parameter, `convWindow`.
- The rate table in api/routes/topMarkets.js:199-213 is keyed by the string
  `currency + "." + issuer`. The model matches currency and issuer as
  separate fields. It therefore ignores collisions between such strings, and
  the text "undefined" that an absent issuer becomes.
- The loop at api/routes/topMarkets.js:217-221 changes nothing: every market
  has the counter "XPS". It is not modelled.
- The gateway name that parseCurrency produces (api/routes/exchangeRates.js:188
  and :192) is dropped from the assets sent to the aggregation query. That
  query's module is not part of this model.
- Request values that make the source throw are not modelled:
  - A truthy currency code that is not a string makes `toUpperCase` throw a
    TypeError (api/routes/exchangeRates.js:177). `RawCurrency` holds only
    string codes.
  - A `null` entry in `pairs` throws at api/routes/exchangeRates.js:162.
    `RawPair` entries are always objects.
- Currency.Listings: the registry enumeration assumes that the lodash
  `.flatten()` at api/routes/topMarkets.js:87 and
  api/routes/totalNetworkValue.js:83 flattens every nesting level, as
  lodash 2 does by default. Lodash 3 and later flatten one level only, which
  would leave arrays of listings instead of listings.
- Upper-casing covers ASCII letters only; the source's `toUpperCase` is
  Unicode-aware.
- Issuers that are not strings are not modelled.

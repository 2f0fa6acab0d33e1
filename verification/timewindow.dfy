/** Time-window resolution of the three reports, in integer unix seconds
    with the current time `now` as a parameter. */
module TimeWindow {
  import opened Common

  const Hour := 3600
  const Day := 86400
  const Week := 604800
  /** The exchange-rates "last price" mode starts at 2013-01-01T00:00:00Z. */
  const LastPriceEpoch := 1356998400
  /** The network-value report averages rates over the 72 hours before its snapshot. */
  const RateLookback := 72 * Hour

  /** The clock as the exchange-rates report reads it. A month and a year
      back from `now` are calendar arithmetic, given here as instants. */
  datatype Clock = Clock(now: int, monthAgo: int, yearAgo: int)

  datatype Window = Window(start: int, end: int)

  /** A timestamp request field: absent, or given as text together with
      the instant it parses to, if any. */
  datatype TimeField = Absent | Given(raw: string, parsed: Option<int>)

  /** The empty text parses to no instant. */
  predicate WellFormed(t: TimeField) {
    t.Given? && t.raw == "" ==> t.parsed.None?
  }

  type TimeParam = t: TimeField | WellFormed(t) witness Absent

  /** Given as non-empty text, so truthy in JavaScript. */
  predicate Present(t: TimeParam) {
    t.Given? && t.raw != ""
  }

  /** Truthy and parses to an instant. */
  predicate Valid(t: TimeParam) {
    Present(t) && t.parsed.Some?
  }

  /** Given, but the text does not parse. An absent field is not
      unparseable: it stands for the current time. */
  predicate Unparseable(t: TimeParam) {
    t.Given? && t.parsed.None?
  }

  // ---------------------------------------------------------------------
  // exchangeRates: named range or last-price mode; the window ends now

  /** The start of the exchange-rates window. Last-price mode wins over any
      range, even an unknown one; otherwise a falsy range means "day". */
  function RangeStart(clock: Clock, last: bool, range: Option<string>): (r: Result<int>)
    ensures last ==> r == Ok(LastPriceEpoch)
    ensures !last && !Truthy(range) ==> r == Ok(clock.now - Day)
    ensures !last && Truthy(range) ==>
              (r.Ok? <==> range.value in {"hour", "day", "week", "month", "year"})
    ensures r.Err? ==> r.error == Text("invalid time range")
    ensures !last && range == Some("hour") ==> r == Ok(clock.now - Hour)
    ensures !last && range == Some("day") ==> r == Ok(clock.now - Day)
    ensures !last && range == Some("week") ==> r == Ok(clock.now - Week)
    ensures !last && range == Some("month") ==> r == Ok(clock.monthAgo)
    ensures !last && range == Some("year") ==> r == Ok(clock.yearAgo)
    ensures !last && r.Ok? && range != Some("month") && range != Some("year") ==>
              r.value < clock.now
  {
    var name := if Truthy(range) then range.value else "day";
    if last then Ok(LastPriceEpoch)
    else if name == "hour" then Ok(clock.now - Hour)
    else if name == "day" then Ok(clock.now - Day)
    else if name == "week" then Ok(clock.now - Week)
    else if name == "month" then Ok(clock.monthAgo)
    else if name == "year" then Ok(clock.yearAgo)
    else Err(Text("invalid time range"))
  }

  // ---------------------------------------------------------------------
  // topMarkets: explicit start/end with defaults, swapped if reversed

  /** The window before ordering: both valid are put in order, a valid end
      alone (even beside an invalid start) gets the 24 hours before it, and
      neither present gives the 24 hours before now. Otherwise the first
      given field that does not parse is reported; an absent field counts
      as parsing (to now). */
  function CandidateWindow(now: int, start: TimeParam, end: TimeParam): (r: Result<Window>)
    ensures r.Ok? ==> r.value.start <= r.value.end
    ensures !Present(start) && !Present(end) ==> r == Ok(Window(now - Day, now))
    ensures !Valid(start) && Valid(end) ==>
              r == Ok(Window(end.parsed.value - Day, end.parsed.value))
    ensures Valid(start) && Valid(end) ==>
              (r.Ok? && {r.value.start, r.value.end} == {start.parsed.value, end.parsed.value})
    ensures (Present(start) || Present(end)) && !Valid(end) && Unparseable(start) ==>
              r == Err(InvalidTime("startTime", start.raw))
    ensures (Present(start) || Present(end)) && !Valid(end) && !Unparseable(start) && Unparseable(end) ==>
              r == Err(InvalidTime("endTime", end.raw))
    ensures Valid(start) && end.Absent? ==> r == Err(Text("invalid time"))
    ensures Present(start) && !Valid(end) ==> r.Err?
    ensures r.Err? && Unparseable(start) ==> r.error == InvalidTime("startTime", start.raw)
  {
    if !Present(start) && !Present(end) then Ok(Window(now - Day, now))
    else if Valid(start) && Valid(end) then
      var s, e := start.parsed.value, end.parsed.value;
      if s < e then Ok(Window(s, e)) else Ok(Window(e, s))
    else if Valid(end) then Ok(Window(end.parsed.value - Day, end.parsed.value))
    else if Unparseable(start) then Err(InvalidTime("startTime", start.raw))
    else if Unparseable(end) then Err(InvalidTime("endTime", end.raw))
    else Err(Text("invalid time"))
  }

  /** The top-markets window: the candidate, with equal times refused. */
  function ResolveWindow(now: int, start: TimeParam, end: TimeParam): (r: Result<Window>)
    ensures r.Ok? ==> r.value.start < r.value.end
    ensures !Present(start) && !Present(end) ==> r == Ok(Window(now - Day, now))
    ensures !Valid(start) && Valid(end) ==>
              r == Ok(Window(end.parsed.value - Day, end.parsed.value))
    ensures Valid(start) && Valid(end) ==>
              var s, e := start.parsed.value, end.parsed.value;
              r == if s == e then Err(Text("please provide 2 distinct times"))
                   else if s < e then Ok(Window(s, e)) else Ok(Window(e, s))
    ensures (Present(start) || Present(end)) && !Valid(end) && Unparseable(start) ==>
              r == Err(InvalidTime("startTime", start.raw))
    ensures (Present(start) || Present(end)) && !Valid(end) && !Unparseable(start) && Unparseable(end) ==>
              r == Err(InvalidTime("endTime", end.raw))
    ensures Valid(start) && end.Absent? ==> r == Err(Text("invalid time"))
    ensures Present(start) && !Present(end) ==> r.Err?
  {
    var w :- CandidateWindow(now, start, end);
    if w.end < w.start then Ok(Window(w.end, w.start))
    else if w.end == w.start then Err(Text("please provide 2 distinct times"))
    else Ok(w)
  }

  /** Reversed bounds are swapped silently: the order in which the two
      valid times are given does not matter. */
  lemma ResolveWindowSymmetric(now: int, a: TimeParam, b: TimeParam)
    requires Valid(a) && Valid(b)
    ensures ResolveWindow(now, a, b) == ResolveWindow(now, b, a)
  {
  }

  // ---------------------------------------------------------------------
  // totalNetworkValue: one snapshot instant

  /** The snapshot instant: an absent time means now. */
  function SnapshotTime(now: int, time: TimeParam): (r: Result<int>)
    ensures time.Absent? ==> r == Ok(now)
    ensures Valid(time) ==> r == Ok(time.parsed.value)
    ensures Unparseable(time) ==> r == Err(Text("invalid time: " + time.raw))
    ensures r.Ok? <==> time.Absent? || Valid(time)
  {
    match time
    case Absent => Ok(now)
    case Given(raw, parsed) =>
      if parsed.None? then Err(Text("invalid time: " + raw)) else Ok(parsed.value)
  }

  /** A window is live when it ends at the current second. */
  predicate IsLive(end: int, now: int) {
    end == now
  }
}

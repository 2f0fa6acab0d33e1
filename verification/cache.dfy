/** The cache-aside layer of the top-markets and network-value reports:
    deterministic keys, the 240-second expiry of live entries, and the
    decision between a cache hit, a history probe and a fresh computation. */
module Cache {
  import opened Common
  import opened Strings
  import opened Currency
  import opened TimeWindow

  /** Seconds a live entry is kept. */
  const LiveTtl := 240

  /** "<PREFIX>:<currency>[.<issuer>]" with the exchange spelled as
      requested: the prefix and a colon, the currency, and a dot and the
      issuer only when the issuer is truthy. */
  function KeyHead(prefix: string, ex: Exchange): string {
    prefix + ":" + ex.currency + (if Truthy(ex.issuer) then "." + ex.issuer.value else "")
  }

  /** The head read back: the prefix and a colon, then the currency as
      spelled, then a dot and the issuer exactly when the issuer is truthy. */
  lemma KeyHeadFormat(prefix: string, ex: Exchange)
    ensures var h := KeyHead(prefix, ex);
            && |h| >= |prefix| + 1 + |ex.currency|
            && h[..|prefix| + 1] == prefix + ":"
            && h[|prefix| + 1..|prefix| + 1 + |ex.currency|] == ex.currency
            && h[|prefix| + 1 + |ex.currency|..] == if Truthy(ex.issuer) then "." + ex.issuer.value else ""
  {
    var tail := if Truthy(ex.issuer) then "." + ex.issuer.value else "";
    assert KeyHead(prefix, ex) == (prefix + ":") + ex.currency + tail;
  }

  // ---------------------------------------------------------------------
  // Keys

  /** ":live:<length>" for a window ending now, ":hist:<start>:<end>" otherwise. */
  function TopMarketsSuffix(w: Window, now: int): string {
    if IsLive(w.end, now) then ":live:" + IntToString(w.end - w.start)
    else ":hist:" + IntToString(w.start) + ":" + IntToString(w.end)
  }

  /** The top-markets key: the "TM" head, then the live window's length or
      the past window's bounds. */
  function TopMarketsKey(ex: Exchange, w: Window, now: int): (k: string)
    ensures IsLive(w.end, now) ==> k == KeyHead("TM", ex) + ":live:" + IntToString(w.end - w.start)
    ensures !IsLive(w.end, now) ==>
              k == KeyHead("TM", ex) + ":hist:" + IntToString(w.start) + ":" + IntToString(w.end)
  {
    KeyHead("TM", ex) + TopMarketsSuffix(w, now)
  }

  /** ":live" for a snapshot taken now, ":hist:<time>" otherwise. */
  function NetworkValueSuffix(time: int, now: int): string {
    if IsLive(time, now) then ":live" else ":hist:" + IntToString(time)
  }

  /** The network-value key: the "TNV" head, then ":live" or the past
      snapshot's instant. */
  function NetworkValueKey(ex: Exchange, time: int, now: int): (k: string)
    ensures IsLive(time, now) ==> k == KeyHead("TNV", ex) + ":live"
    ensures !IsLive(time, now) ==> k == KeyHead("TNV", ex) + ":hist:" + IntToString(time)
  {
    KeyHead("TNV", ex) + NetworkValueSuffix(time, now)
  }

  /** The expiry written after the payload: 240 seconds exactly when the
      key contains ":live" anywhere, none otherwise. */
  function Expiry(key: string): (ttl: Option<int>)
    ensures ttl.Some? <==> Contains(key, LiveMarker)
    ensures ttl.Some? ==> ttl.value == LiveTtl
  {
    if Contains(key, LiveMarker) then Some(LiveTtl) else None
  }

  // ---------------------------------------------------------------------
  // Expiry follows liveness

  lemma HistSuffixShape(a: int, b: int)
    ensures var suf := ":hist:" + IntToString(a) + ":" + IntToString(b);
            |suf| > 0 && suf[0] == ':' && NoColonL(suf)
  {
    var sa, sb := IntToString(a), IntToString(b);
    NumeralNoColonL(sa);
    NumeralNoColonL(sb);
    assert NoColonL(":hist:");
    NoColonLConcat(":hist:", sa);
    NoColonLConcat(":hist:" + sa, ":");
    NoColonLConcat(":hist:" + sa + ":", sb);
  }

  lemma HistSnapshotSuffixShape(t: int)
    ensures var suf := ":hist:" + IntToString(t);
            |suf| > 0 && suf[0] == ':' && NoColonL(suf)
  {
    NumeralNoColonL(IntToString(t));
    assert NoColonL(":hist:");
    NoColonLConcat(":hist:", IntToString(t));
  }

  /** A top-markets entry expires when its window is live, and otherwise
      only when the exchange's own spelling smuggles ":live" into the key. */
  lemma TopMarketsExpiry(ex: Exchange, w: Window, now: int)
    ensures Expiry(TopMarketsKey(ex, w, now)).Some? <==>
            IsLive(w.end, now) || Contains(KeyHead("TM", ex), LiveMarker)
  {
    var head := KeyHead("TM", ex);
    if IsLive(w.end, now) {
      MarkerInSuffix(head, TopMarketsSuffix(w, now));
    } else {
      HistSuffixShape(w.start, w.end);
      MarkerStaysInPrefix(head, TopMarketsSuffix(w, now));
    }
  }

  /** The same rule for network-value entries. */
  lemma NetworkValueExpiry(ex: Exchange, time: int, now: int)
    ensures Expiry(NetworkValueKey(ex, time, now)).Some? <==>
            IsLive(time, now) || Contains(KeyHead("TNV", ex), LiveMarker)
  {
    var head := KeyHead("TNV", ex);
    if IsLive(time, now) {
      MarkerInSuffix(head, NetworkValueSuffix(time, now));
    } else {
      HistSnapshotSuffixShape(time);
      MarkerStaysInPrefix(head, NetworkValueSuffix(time, now));
    }
  }

  /** For an exchange whose spelling has no ':' directly before an 'l'
      (every currency code and address of the registry), the expiry applies
      exactly to live windows. */
  lemma ExpiryIffLive(ex: Exchange, w: Window, time: int, now: int)
    requires NoColonL(KeyHead("TM", ex)) && NoColonL(KeyHead("TNV", ex))
    ensures Expiry(TopMarketsKey(ex, w, now)).Some? <==> IsLive(w.end, now)
    ensures Expiry(NetworkValueKey(ex, time, now)).Some? <==> IsLive(time, now)
  {
    NoColonLNoMarker(KeyHead("TM", ex));
    NoColonLNoMarker(KeyHead("TNV", ex));
    TopMarketsExpiry(ex, w, now);
    NetworkValueExpiry(ex, time, now);
  }

  // ---------------------------------------------------------------------
  // Keys are collision-free

  lemma {:induction false} SplitAtColon(a1: string, b1: string, a2: string, b2: string)
    requires Numeral(a1) && Numeral(a2)
    requires a1 + ":" + b1 == a2 + ":" + b2
    ensures a1 == a2 && b1 == b2
  {
    var s := a1 + ":" + b1;
    var t := a2 + ":" + b2;
    assert s[|a1|] == ':' && t[|a2|] == ':';
    assert forall i :: 0 <= i < |a1| ==> s[i] == a1[i];
    assert forall i :: 0 <= i < |a2| ==> t[i] == a2[i];
    assert |a1| == |a2|;
    assert a1 == s[..|a1|] && a2 == t[..|a2|];
    assert b1 == s[|a1| + 1..] && b2 == t[|a2| + 1..];
  }

  lemma {:induction false} SameHead(head: string, x: string, y: string)
    requires head + x == head + y
    ensures x == y
  {
    assert x == (head + x)[|head|..];
    assert y == (head + y)[|head|..];
  }

  /** Two top-markets windows for the same exchange share a key only when
      both are live with the same length, or both are the same past window. */
  lemma TopMarketsKeyInjective(ex: Exchange, w1: Window, w2: Window, now: int)
    requires TopMarketsKey(ex, w1, now) == TopMarketsKey(ex, w2, now)
    ensures IsLive(w1.end, now) <==> IsLive(w2.end, now)
    ensures IsLive(w1.end, now) ==> w1.end - w1.start == w2.end - w2.start
    ensures !IsLive(w1.end, now) ==> w1 == w2
  {
    var s1, s2 := TopMarketsSuffix(w1, now), TopMarketsSuffix(w2, now);
    SameHead(KeyHead("TM", ex), s1, s2);
    assert s1[1] == (if IsLive(w1.end, now) then 'l' else 'h');
    assert s2[1] == (if IsLive(w2.end, now) then 'l' else 'h');
    if IsLive(w1.end, now) {
      SameHead(":live:", IntToString(w1.end - w1.start), IntToString(w2.end - w2.start));
      IntToStringInjective(w1.end - w1.start, w2.end - w2.start);
    } else {
      var a1, b1 := IntToString(w1.start), IntToString(w1.end);
      var a2, b2 := IntToString(w2.start), IntToString(w2.end);
      assert s1 == ":hist:" + (a1 + ":" + b1);
      assert s2 == ":hist:" + (a2 + ":" + b2);
      SameHead(":hist:", a1 + ":" + b1, a2 + ":" + b2);
      SplitAtColon(a1, b1, a2, b2);
      IntToStringInjective(w1.start, w2.start);
      IntToStringInjective(w1.end, w2.end);
    }
  }

  /** Two past snapshots for the same exchange share a key only when they
      are the same instant. */
  lemma NetworkValueKeyInjective(ex: Exchange, t1: int, t2: int, now: int)
    requires NetworkValueKey(ex, t1, now) == NetworkValueKey(ex, t2, now)
    ensures IsLive(t1, now) <==> IsLive(t2, now)
    ensures !IsLive(t1, now) ==> t1 == t2
  {
    var s1, s2 := NetworkValueSuffix(t1, now), NetworkValueSuffix(t2, now);
    SameHead(KeyHead("TNV", ex), s1, s2);
    assert s1[1] == (if IsLive(t1, now) then 'l' else 'h');
    assert s2[1] == (if IsLive(t2, now) then 'l' else 'h');
    if !IsLive(t1, now) {
      SameHead(":hist:", IntToString(t1), IntToString(t2));
      IntToStringInjective(t1, t2);
    }
  }

  // ---------------------------------------------------------------------
  // Read decision and write-back

  /** What the cache read returned. */
  datatype CacheRead<P> = ReadError(error: string) | Hit(payload: P) | Miss

  /** What the report hands back on success: a freshly computed report, a
      stored one, or, in history mode, only whether an entry existed. */
  datatype Reply<P> = Fresh(report: P) | Cached(stored: P) | Probe(found: bool)

  /** An entry written back: its key, the report, and its expiry. */
  datatype Entry<P> = Entry(key: string, payload: P, ttl: Option<int>)

  datatype Served<P> = Served(reply: Result<Reply<P>>, write: Option<Entry<P>>)

  /** Cache-aside around one report computation. With the cache disabled or
      on a miss the computation's result is used (and written back when the
      cache is on); a hit answers from the cache; a read error is reported
      with the "Redis - " prefix. */
  function Serve<P>(enabled: bool, history: bool, key: string, read: CacheRead<P>,
                    computed: Result<P>): (s: Served<P>)
    ensures enabled && read.ReadError? ==>
              s.reply == Err(Text("Redis - " + read.error)) && s.write.None?
    ensures enabled && read.Hit? ==>
              s.reply == Ok(if history then Probe(true) else Cached(read.payload)) && s.write.None?
    ensures !enabled || read.Miss? ==>
              && (s.reply.Err? <==> computed.Err?)
              && (s.reply.Err? ==> s.reply.error == computed.error)
              && (s.reply.Ok? ==> s.reply.value == if history then Probe(false)
                                                   else Fresh(computed.value))
    ensures s.write.Some? <==> enabled && read.Miss? && computed.Ok?
    ensures s.write.Some? ==>
              s.write.value == Entry(key, computed.value, Expiry(key))
    ensures history && s.reply.Ok? ==> s.reply.value.Probe?
  {
    if enabled && read.ReadError? then Served(Err(Text("Redis - " + read.error)), None)
    else if enabled && read.Hit? then
      Served(Ok(if history then Probe(true) else Cached(read.payload)), None)
    else
      match computed
      case Err(e) => Served(Err(e), None)
      case Ok(report) =>
        var write := if enabled then Some(Entry(key, report, Expiry(key))) else None;
        Served(Ok(if history then Probe(false) else Fresh(report)), write)
  }

  /** A hit never depends on the computation. */
  lemma HitIgnoresComputation<P>(history: bool, key: string, p: P, c1: Result<P>, c2: Result<P>)
    ensures Serve(true, history, key, Hit(p), c1) == Serve(true, history, key, Hit(p), c2)
  {
  }

  /** Round trip: what a miss writes back is what a later plain read of the
      same key serves, unchanged. */
  lemma WriteThenReadRoundTrip<P>(key: string, miss: Served<P>, computed: Result<P>, later: Result<P>)
    requires miss == Serve(true, false, key, Miss, computed)
    requires computed.Ok?
    ensures miss.write.Some? && miss.reply == Ok(Fresh(computed.value))
    ensures Serve(true, false, key, Hit(miss.write.value.payload), later).reply
            == Ok(Cached(computed.value))
  {
  }
}

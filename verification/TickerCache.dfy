/** The sliding window of tickers with its lazily invalidated price extremes (src/receiver/ticker_container.cpp)
    and the recomputation and volatility thresholds built on it (src/receiver/ticker_calculate.cpp). */
module TickerCache {
  import opened Options

  datatype Side = Bid | Ask | Avg

  datatype Ticker = Ticker(bid: real, ask: real, avg: real, updated: nat) {
    function Price(side: Side): real {
      match side case Bid => bid case Ask => ask case Avg => avg
    }
  }

  /** numeric_limits<double>::min() and max(): the smallest positive and the largest finite double. */
  datatype Bounds = Bounds(least: real, most: real)
  type Doubles = b: Bounds | 0.0 < b.least < b.most witness Bounds(1.0, 2.0)

  // Every price is a finite double.
  predicate Finite(b: Doubles, t: Ticker) {
    forall side :: t.Price(side) <= b.most
  }

  datatype Extremes = Extremes(minBid: real, maxBid: real, minAsk: real, maxAsk: real, minAvg: real, maxAvg: real) {
    function Low(side: Side): real {
      match side case Bid => minBid case Ask => minAsk case Avg => minAvg
    }

    function High(side: Side): real {
      match side case Bid => maxBid case Ask => maxAsk case Avg => maxAvg
    }

    function Widen(t: Ticker): Extremes {
      Extremes(
        if t.bid < minBid then t.bid else minBid, if t.bid > maxBid then t.bid else maxBid,
        if t.ask < minAsk then t.ask else minAsk, if t.ask > maxAsk then t.ask else maxAsk,
        if t.avg < minAvg then t.avg else minAvg, if t.avg > maxAvg then t.avg else maxAvg)
    }

    // Some price of the ticker sits on or outside an extreme.
    predicate Touched(t: Ticker) {
      exists side :: t.Price(side) >= High(side) || t.Price(side) <= Low(side)
    }
  }

  function Cleared(b: Doubles): Extremes {
    Extremes(b.most, b.least, b.most, b.least, b.most, b.least)
  }

  /** The extremes of a list of tickers by a plain scan. */
  function Scanned(b: Doubles, ts: seq<Ticker>): Extremes {
    if ts == [] then Cleared(b) else Scanned(b, ts[..|ts| - 1]).Widen(ts[|ts| - 1])
  }

  lemma WidenSide(e: Extremes, t: Ticker, side: Side)
    ensures e.Widen(t).High(side) == if t.Price(side) > e.High(side) then t.Price(side) else e.High(side)
    ensures e.Widen(t).Low(side) == if t.Price(side) < e.Low(side) then t.Price(side) else e.Low(side)
  {}

  lemma {:induction false} ScannedHigh(b: Doubles, ts: seq<Ticker>, side: Side)
    ensures forall t :: t in ts ==> t.Price(side) <= Scanned(b, ts).High(side)
    ensures Scanned(b, ts).High(side) >= b.least
    ensures Scanned(b, ts).High(side) == b.least || exists t :: t in ts && t.Price(side) == Scanned(b, ts).High(side)
  {
    if ts != [] {
      var front, last := ts[..|ts| - 1], ts[|ts| - 1];
      ScannedHigh(b, front, side);
      WidenSide(Scanned(b, front), last, side);
      assert ts == front + [last];
      assert last in ts;
    }
  }

  lemma {:induction false} ScannedLow(b: Doubles, ts: seq<Ticker>, side: Side)
    ensures forall t :: t in ts ==> Scanned(b, ts).Low(side) <= t.Price(side)
    ensures Scanned(b, ts).Low(side) <= b.most
    ensures Scanned(b, ts).Low(side) == b.most || exists t :: t in ts && t.Price(side) == Scanned(b, ts).Low(side)
  {
    if ts != [] {
      var front, last := ts[..|ts| - 1], ts[|ts| - 1];
      ScannedLow(b, front, side);
      WidenSide(Scanned(b, front), last, side);
      assert ts == front + [last];
      assert last in ts;
    }
  }

  /** A scan bounds every price, and each extreme is a price of the list unless it is still the initial limit. */
  lemma ScannedBounds(b: Doubles, ts: seq<Ticker>, side: Side)
    ensures forall t :: t in ts ==> Scanned(b, ts).Low(side) <= t.Price(side) <= Scanned(b, ts).High(side)
    ensures Scanned(b, ts).High(side) >= b.least && Scanned(b, ts).Low(side) <= b.most
    ensures Scanned(b, ts).High(side) == b.least || exists t :: t in ts && t.Price(side) == Scanned(b, ts).High(side)
    ensures Scanned(b, ts).Low(side) == b.most || exists t :: t in ts && t.Price(side) == Scanned(b, ts).Low(side)
  {
    ScannedHigh(b, ts, side);
    ScannedLow(b, ts, side);
  }

  predicate IsMaximum(x: real, ts: seq<Ticker>, side: Side) {
    (exists t :: t in ts && t.Price(side) == x) && forall t :: t in ts ==> t.Price(side) <= x
  }

  predicate IsMinimum(x: real, ts: seq<Ticker>, side: Side) {
    (exists t :: t in ts && t.Price(side) == x) && forall t :: t in ts ==> x <= t.Price(side)
  }

  /** The scan is exact precisely when the initial limits do not show through: for the maximum, when some price
      reaches the smallest positive double; for the minimum, when some price is at most the largest. */
  lemma ScannedExact(b: Doubles, ts: seq<Ticker>, side: Side)
    ensures IsMaximum(Scanned(b, ts).High(side), ts, side) <==> exists t :: t in ts && t.Price(side) >= b.least
    ensures IsMinimum(Scanned(b, ts).Low(side), ts, side) <==> exists t :: t in ts && t.Price(side) <= b.most
  {
    ScannedBounds(b, ts, side);
  }

  lemma WidenCommutes(e: Extremes, t: Ticker, u: Ticker)
    ensures e.Widen(t).Widen(u) == e.Widen(u).Widen(t)
  {}

  lemma {:induction false} ScannedFromFront(b: Doubles, t: Ticker, rest: seq<Ticker>)
    ensures Scanned(b, [t] + rest) == Scanned(b, rest).Widen(t)
  {
    if rest == [] {
      assert [t] + rest == [t] && [t][..0] == [];
    } else {
      var front, last := rest[..|rest| - 1], rest[|rest| - 1];
      ScannedFromFront(b, t, front);
      assert ([t] + rest)[..|rest|] == [t] + front;
      WidenCommutes(Scanned(b, front), t, last);
    }
  }

  /** Dropping a ticker strictly inside the extremes leaves them exact for the rest. */
  lemma DropUntouched(b: Doubles, ts: seq<Ticker>)
    requires ts != [] && !Scanned(b, ts).Touched(ts[0])
    ensures Scanned(b, ts[1..]) == Scanned(b, ts)
  {
    ScannedFromFront(b, ts[0], ts[1..]);
    assert ts == [ts[0]] + ts[1..];
    var e := Scanned(b, ts);
    assert e.Low(Bid) < ts[0].Price(Bid) < e.High(Bid);
    assert e.Low(Ask) < ts[0].Price(Ask) < e.High(Ask);
    assert e.Low(Avg) < ts[0].Price(Avg) < e.High(Avg);
  }

  /** The last ticker left touches its own extremes. */
  lemma OnlyTickerTouches(b: Doubles, t: Ticker)
    requires Finite(b, t)
    ensures Scanned(b, [t]).Touched(t)
  {
    assert [t][..0] == [];
    assert t.Price(Bid) <= Scanned(b, [t]).Low(Bid);
  }

  // ----- the cache as a value; `covered` marks which held tickers the extremes speak for

  datatype Cache = Cache(list: seq<Ticker>, covered: seq<bool>, extremes: Extremes, valid: bool)

  function Marked(list: seq<Ticker>, marks: seq<bool>): seq<Ticker>
    requires |list| == |marks|
  {
    if list == [] then [] else (if marks[0] then [list[0]] else []) + Marked(list[1..], marks[1..])
  }

  lemma {:induction false} MarkedAppend(list: seq<Ticker>, marks: seq<bool>, t: Ticker, mark: bool)
    requires |list| == |marks|
    ensures Marked(list + [t], marks + [mark]) == Marked(list, marks) + if mark then [t] else []
  {
    if list == [] {
      assert ([t])[1..] == [] && [mark][1..] == [];
      assert list + [t] == [t] && marks + [mark] == [mark];
    } else {
      MarkedAppend(list[1..], marks[1..], t, mark);
      assert (list + [t])[1..] == list[1..] + [t] && (marks + [mark])[1..] == marks[1..] + [mark];
    }
  }

  lemma MarkedSubset(list: seq<Ticker>, marks: seq<bool>)
    requires |list| == |marks|
    ensures forall t :: t in Marked(list, marks) ==> t in list
  {}

  predicate Expired(t: Ticker, now: nat, remainSeconds: nat) {
    now > t.updated + remainSeconds * 1000
  }

  function Pushed(c: Cache, t: Ticker): Cache {
    Cache(c.list + [t], c.covered + [true], if c.valid then c.extremes.Widen(t) else c.extremes, c.valid)
  }

  function DropExpired(b: Doubles, c: Cache, now: nat, remainSeconds: nat): Cache
    requires |c.list| == |c.covered|
    decreases |c.list|
  {
    if c.list == [] || !Expired(c.list[0], now, remainSeconds) then c
    else
      var touched := c.extremes.Touched(c.list[0]);
      var next := Cache(c.list[1..], c.covered[1..], if touched then Cleared(b) else c.extremes, c.valid && !touched);
      DropExpired(b, next, now, remainSeconds)
  }

  // How many tickers at the front have expired.
  function ExpiredFront(list: seq<Ticker>, now: nat, remainSeconds: nat): (n: nat)
    ensures n <= |list|
  {
    if list == [] || !Expired(list[0], now, remainSeconds) then 0 else 1 + ExpiredFront(list[1..], now, remainSeconds)
  }

  lemma {:induction false} DropIsSuffix(b: Doubles, c: Cache, now: nat, remainSeconds: nat)
    requires |c.list| == |c.covered|
    ensures var d, n := DropExpired(b, c, now, remainSeconds), ExpiredFront(c.list, now, remainSeconds);
            && d.list == c.list[n..] && d.covered == c.covered[n..]
            && (d.valid ==> c.valid && d.extremes == c.extremes)
    decreases |c.list|
  {
    if c.list != [] && Expired(c.list[0], now, remainSeconds) {
      var touched := c.extremes.Touched(c.list[0]);
      var next := Cache(c.list[1..], c.covered[1..], if touched then Cleared(b) else c.extremes, c.valid && !touched);
      DropIsSuffix(b, next, now, remainSeconds);
    }
  }

  /** update_ticker. */
  function Updated(b: Doubles, c: Cache, t: Ticker, now: nat, remainSeconds: nat): Cache
    requires |c.list| == |c.covered|
  {
    DropExpired(b, Pushed(c, t), now, remainSeconds)
  }

  // Unsigned 64-bit subtraction, as the cut-off of a recomputation is computed.
  function SubU64(a: nat, s: nat): nat {
    if s <= a then a - s else (a - s) % 0x1_0000_0000_0000_0000
  }

  function RecentMarks(list: seq<Ticker>, cutoff: nat): (marks: seq<bool>)
    ensures |marks| == |list|
  {
    seq(|list|, i requires 0 <= i < |list| => list[i].updated > cutoff)
  }

  /** The step of process_beta_threshold_calculate that refreshes the extremes: copy and store taken together. */
  function Recomputed(b: Doubles, c: Cache, now: nat, intervalSeconds: nat): (r: (Cache, bool))
    requires |c.list| == |c.covered|
    ensures |r.0.list| == |r.0.covered|
  {
    if c.valid && |c.list| >= intervalSeconds then (c, true)
    else
      var marks := RecentMarks(c.list, SubU64(now, intervalSeconds * 1000));
      var recent := Marked(c.list, marks);
      if |recent| < intervalSeconds then (c, false)
      else (Cache(c.list, marks, Scanned(b, recent), true), true)
  }

  // The marked tickers are those at the marked places, in order.
  lemma {:induction false} MarkedAt(list: seq<Ticker>, marks: seq<bool>) returns (at: seq<nat>)
    requires |list| == |marks|
    ensures |at| == |Marked(list, marks)|
    ensures forall i :: 0 <= i < |at| ==> at[i] < |list| && Marked(list, marks)[i] == list[at[i]]
    ensures forall i, j :: 0 <= i < j < |at| ==> at[i] < at[j]
    ensures forall k :: 0 <= k < |list| ==> (k in at <==> marks[k])
  {
    if list == [] {
      at := [];
    } else {
      var front, n := list[..|list| - 1], |list| - 1;
      at := MarkedAt(front, marks[..n]);
      MarkedAppend(front, marks[..n], list[n], marks[n]);
      assert front + [list[n]] == list && marks[..n] + [marks[n]] == marks;
      if marks[n] { at := at + [n]; }
    }
  }

  /** A recomputation works from exactly the tickers of the last interval, each as often as held and in order, and it is
      needed and possible just when these are as many as the interval has seconds. */
  lemma RecentExactly(b: Doubles, c: Cache, now: nat, intervalSeconds: nat)
    returns (recent: seq<Ticker>, at: seq<nat>)
    requires |c.list| == |c.covered| && intervalSeconds * 1000 <= now
    ensures |at| == |recent| && forall i :: 0 <= i < |at| ==> at[i] < |c.list| && recent[i] == c.list[at[i]]
    ensures forall i, j :: 0 <= i < j < |at| ==> at[i] < at[j]
    ensures forall k :: 0 <= k < |c.list| ==> (k in at <==> now - c.list[k].updated < intervalSeconds * 1000)
    ensures var (after, publishes) := Recomputed(b, c, now, intervalSeconds);
            if c.valid && |c.list| >= intervalSeconds then publishes && after == c
            else && (publishes <==> |recent| >= intervalSeconds)
                 && after.list == c.list && (!publishes ==> after == c)
                 && (publishes ==> after.valid && after.extremes == Scanned(b, recent))
  {
    var marks := RecentMarks(c.list, SubU64(now, intervalSeconds * 1000));
    at := MarkedAt(c.list, marks);
    recent := Marked(c.list, marks);
  }

  /** An update appends its ticker and takes away the longest front of tickers past the holding time, no more; the
      extremes lose their validity just when some price taken away was not strictly inside them. */
  lemma UpdateKeeps(b: Doubles, c: Cache, t: Ticker, now: nat, remainSeconds: nat) returns (n: nat)
    requires |c.list| == |c.covered|
    ensures var all := c.list + [t];
            && n <= |all| && Updated(b, c, t, now, remainSeconds).list == all[n..]
            && (forall i :: 0 <= i < n ==> all[i].updated + remainSeconds * 1000 < now)
            && (n < |all| ==> now <= all[n].updated + remainSeconds * 1000)
    ensures var all, e := c.list + [t], Pushed(c, t).extremes;
            Updated(b, c, t, now, remainSeconds).valid <==>
              c.valid && forall i, side :: 0 <= i < n ==> e.Low(side) < all[i].Price(side) < e.High(side)
  {
    n := ExpiredFront(c.list + [t], now, remainSeconds);
    ExpiredExactly(c.list + [t], now, remainSeconds);
    DropIsSuffix(b, Pushed(c, t), now, remainSeconds);
    ValidAfterDrop(b, Pushed(c, t), now, remainSeconds);
  }

  lemma {:induction false} ValidAfterDrop(b: Doubles, c: Cache, now: nat, remainSeconds: nat)
    requires |c.list| == |c.covered|
    ensures DropExpired(b, c, now, remainSeconds).valid <==>
            c.valid && forall i :: 0 <= i < ExpiredFront(c.list, now, remainSeconds) ==> !c.extremes.Touched(c.list[i])
    decreases |c.list|
  {
    if c.list != [] && Expired(c.list[0], now, remainSeconds) {
      var touched := c.extremes.Touched(c.list[0]);
      var next := Cache(c.list[1..], c.covered[1..], if touched then Cleared(b) else c.extremes, c.valid && !touched);
      ValidAfterDrop(b, next, now, remainSeconds);
      var n := ExpiredFront(next.list, now, remainSeconds);
      assert forall i :: 0 < i < n + 1 ==> c.list[i] == next.list[i - 1];
      assert forall i :: 0 <= i < n ==> next.list[i] == c.list[i + 1];
    }
  }

  lemma {:induction false} ExpiredExactly(list: seq<Ticker>, now: nat, remainSeconds: nat)
    ensures var n := ExpiredFront(list, now, remainSeconds);
            && (forall i :: 0 <= i < n ==> list[i].updated + remainSeconds * 1000 < now)
            && (n < |list| ==> now <= list[n].updated + remainSeconds * 1000)
  {
    if list != [] { ExpiredExactly(list[1..], now, remainSeconds); }
  }

  /** Whenever the extremes are flagged valid they are those of a scan of the covered tickers, which are not empty. */
  ghost predicate Sound(b: Doubles, c: Cache) {
    && |c.list| == |c.covered|
    && (forall t :: t in c.list ==> Finite(b, t))
    && (c.valid ==> c.extremes == Scanned(b, Marked(c.list, c.covered)) && Marked(c.list, c.covered) != [])
  }

  lemma PushKeepsSound(b: Doubles, c: Cache, t: Ticker)
    requires Sound(b, c) && Finite(b, t)
    ensures Sound(b, Pushed(c, t))
  {
    MarkedAppend(c.list, c.covered, t, true);
    var before := Marked(c.list, c.covered);
    assert (before + [t])[..|before|] == before;
  }

  lemma {:induction false} DropKeepsSound(b: Doubles, c: Cache, now: nat, remainSeconds: nat)
    requires Sound(b, c)
    ensures Sound(b, DropExpired(b, c, now, remainSeconds))
    decreases |c.list|
  {
    if c.list != [] && Expired(c.list[0], now, remainSeconds) {
      var touched := c.extremes.Touched(c.list[0]);
      var next := Cache(c.list[1..], c.covered[1..], if touched then Cleared(b) else c.extremes, c.valid && !touched);
      if !c.covered[0] {
        assert Marked(c.list, c.covered) == Marked(next.list, next.covered);
      } else if next.valid {
        var marked := Marked(c.list, c.covered);
        assert marked[0] == c.list[0] && marked[1..] == Marked(next.list, next.covered);
        DropUntouched(b, marked);
        if marked[1..] == [] {
          assert marked == [c.list[0]];
          OnlyTickerTouches(b, c.list[0]);
        }
      }
      DropKeepsSound(b, next, now, remainSeconds);
    }
  }

  /** With prices that doubles can tell from zero, valid extremes are a true minimum and maximum on every side. */
  lemma ValidExtremesAreExact(b: Doubles, c: Cache, side: Side)
    requires Sound(b, c) && c.valid
    requires forall t :: t in c.list ==> t.Price(side) >= b.least
    ensures IsMaximum(c.extremes.High(side), Marked(c.list, c.covered), side)
    ensures IsMinimum(c.extremes.Low(side), Marked(c.list, c.covered), side)
  {
    var marked := Marked(c.list, c.covered);
    MarkedSubset(c.list, c.covered);
    assert marked[0] in marked;
    ScannedExact(b, marked, side);
  }

  // ----- thresholds

  datatype InstConfig = InstConfig(a: real, b: real, c: real, beta: real)

  datatype Threshold = Threshold(volatility: real, multiplier: real, threshold: real)
  datatype BetaThresholds = BetaThresholds(bid: Threshold, ask: Threshold, avg: Threshold)

  function VolatilityMultiplier(volatility: real, config: InstConfig): real {
    config.a + config.b * volatility + config.c * volatility * volatility
  }

  function BetaThreshold(multiplier: real, config: InstConfig): real {
    multiplier * config.beta
  }

  function SideThreshold(e: Extremes, side: Side, config: InstConfig): Threshold
    requires e.Low(side) > 0.0
  {
    var volatility := (e.High(side) - e.Low(side)) / e.Low(side);
    var multiplier := VolatilityMultiplier(volatility, config);
    Threshold(volatility, multiplier, BetaThreshold(multiplier, config))
  }

  function Thresholds(e: Extremes, config: InstConfig): Option<BetaThresholds> {
    if e.minBid <= 0.0 || e.minAsk <= 0.0 || e.minAvg <= 0.0 then None
    else Some(BetaThresholds(SideThreshold(e, Bid, config), SideThreshold(e, Ask, config),
                             SideThreshold(e, Avg, config)))
  }

  lemma QuotientSign(x: real, y: real)
    requires y > 0.0
    ensures x / y >= 0.0 <==> x >= 0.0
  {
    var q := x / y;
    assert q * y == x;
  }

  // ----- the object the receiver keeps per instrument

  class TickerWrapper {
    const doubles: Doubles
    var list: seq<Ticker>
    var extremes: Extremes
    var valid: bool
    ghost var covered: seq<bool>

    ghost function Value(): Cache
      reads this
    {
      Cache(list, covered, extremes, valid)
    }

    constructor (doubles: Doubles)
      ensures this.doubles == doubles && Value() == Cache([], [], Cleared(doubles), false)
    {
      this.doubles := doubles;
      list, covered, extremes, valid := [], [], Cleared(doubles), false;
    }

    method ClearMinMax()
      modifies `extremes, `valid
      ensures extremes == Cleared(doubles) && !valid
    {
      extremes := Cleared(doubles);
      valid := false;
    }

    method UpdateTicker(t: Ticker, remainSeconds: nat, now: nat)
      requires |list| == |covered|
      modifies this
      ensures Value() == Updated(doubles, old(Value()), t, now, remainSeconds)
    {
      list := list + [t];
      covered := covered + [true];
      if valid {
        extremes := extremes.Widen(t);
      }
      ghost var pushed := Value();
      while list != [] && Expired(list[0], now, remainSeconds)
        invariant |list| == |covered|
        invariant DropExpired(doubles, Value(), now, remainSeconds) == DropExpired(doubles, pushed, now, remainSeconds)
        decreases |list|
      {
        if extremes.Touched(list[0]) {
          ClearMinMax();
        }
        list := list[1..];
        covered := covered[1..];
      }
    }

    method CopyTickerListAfter(cutoff: nat) returns (recent: seq<Ticker>)
      ensures recent == Marked(list, RecentMarks(list, cutoff))
    {
      recent := [];
      for i := 0 to |list|
        invariant recent == Marked(list[..i], RecentMarks(list[..i], cutoff))
      {
        MarkedAppend(list[..i], RecentMarks(list[..i], cutoff), list[i], list[i].updated > cutoff);
        assert list[..i] + [list[i]] == list[..i + 1];
        assert RecentMarks(list[..i], cutoff) + [list[i].updated > cutoff] == RecentMarks(list[..i + 1], cutoff);
        if list[i].updated > cutoff {
          recent := recent + [list[i]];
        }
      }
      assert list[..|list|] == list;
    }

    // One pass of the calculator for this instrument; None when it has too few tickers or a non-positive minimum.
    method ProcessBeta(now: nat, intervalSeconds: nat, config: InstConfig) returns (published: Option<BetaThresholds>)
      requires |list| == |covered|
      modifies this
      ensures var (after, enough) := Recomputed(doubles, old(Value()), now, intervalSeconds);
              && Value() == after
              && published == if enough then Thresholds(after.extremes, config) else None
    {
      if !valid || |list| < intervalSeconds {
        var cutoff := SubU64(now, intervalSeconds * 1000);
        var recent := CopyTickerListAfter(cutoff);
        if |recent| < intervalSeconds {
          return None;
        }
        extremes := ScanExtremes(doubles, recent);
        valid := true;
        covered := RecentMarks(list, cutoff);
      }
      published := Thresholds(extremes, config);
    }
  }

  method ScanExtremes(b: Doubles, ts: seq<Ticker>) returns (e: Extremes)
    ensures e == Scanned(b, ts)
  {
    var maxBid, minBid, maxAsk, minAsk, maxAvg, minAvg := b.least, b.most, b.least, b.most, b.least, b.most;
    for i := 0 to |ts|
      invariant Extremes(minBid, maxBid, minAsk, maxAsk, minAvg, maxAvg) == Scanned(b, ts[..i])
    {
      assert ts[..i + 1][..i] == ts[..i];
      if ts[i].bid > maxBid { maxBid := ts[i].bid; }
      if ts[i].bid < minBid { minBid := ts[i].bid; }
      if ts[i].ask > maxAsk { maxAsk := ts[i].ask; }
      if ts[i].ask < minAsk { minAsk := ts[i].ask; }
      if ts[i].avg > maxAvg { maxAvg := ts[i].avg; }
      if ts[i].avg < minAvg { minAvg := ts[i].avg; }
    }
    assert ts[..|ts|] == ts;
    e := Extremes(minBid, maxBid, minAsk, maxAsk, minAvg, maxAvg);
  }

  function On(p: BetaThresholds, side: Side): Threshold {
    match side case Bid => p.bid case Ask => p.ask case Avg => p.avg
  }

  lemma ThresholdPerSide(e: Extremes, config: InstConfig, side: Side)
    ensures Thresholds(e, config).Some? <==> forall s :: e.Low(s) > 0.0
    ensures Thresholds(e, config).Some? ==> On(Thresholds(e, config).value, side) == SideThreshold(e, side, config)
  {
    if forall s :: e.Low(s) > 0.0 {
      assert e.Low(Bid) > 0.0 && e.Low(Ask) > 0.0 && e.Low(Avg) > 0.0;
    }
  }
}

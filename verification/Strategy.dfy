/** Order construction and gating of one strategy thread (src/actuary/strategy_processor.cpp). */
module Strategy {
  import opened Decimal
  import opened AccountPositions
  import opened Options
  import RC = RiskControl

  datatype Side = Buy | Sell

  /** closeOnly is the global switch, assetCloseOnly the exchange's flag for this instrument; orderSize and maxPosition
      are the configured values already zoomed. */
  datatype Config = Config(
    stopMakeOrder: bool, closeOnly: bool, assetCloseOnly: bool, orderSize: real, maxPosition: real,
    margin: real, precision: nat, beta: real, pauseMillis: nat,
    compareSizes: bool, minNotional: real, notionalMultiple: real)

  datatype Quote = Quote(bid: real, bidSize: real, ask: real, askSize: real)

  /** Beta thresholds of one instrument, as the receiver publishes them. */
  datatype Betas = Betas(bid: real, ask: real)

  /** What an iteration reads from the slots, and the reduce ratio of the position threshold. */
  datatype Market = Market(
    benchmark: Quote, follower: Quote, benchmarkBeta: Betas, followerBeta: Betas,
    bidAskMedian: real, askBidMedian: real, reduceRatio: real)

  // ----- signals

  function BuyThreshold(m: Market): real {
    (m.benchmarkBeta.bid + m.followerBeta.ask) * (1.0 + m.reduceRatio)
  }

  function SellThreshold(m: Market): real {
    (m.benchmarkBeta.ask + m.followerBeta.bid) * (1.0 - m.reduceRatio)
  }

  // x / d >= y in floating point, where a positive x over zero is infinite and zero over zero compares false.
  predicate QuotientAtLeast(x: real, d: real, y: real) {
    if d == 0.0 then x > 0.0 else x / d >= y
  }

  predicate SizesAllow(cfg: Config, benchmarkNotional: real, followerNotional: real) {
    !cfg.compareSizes ||
    (benchmarkNotional >= cfg.minNotional && benchmarkNotional >= followerNotional * cfg.notionalMultiple)
  }

  predicate BuySignal(cfg: Config, m: Market) {
    && QuotientAtLeast(m.benchmark.bid, 1.0 + BuyThreshold(m), m.follower.ask + m.bidAskMedian)
    && SizesAllow(cfg, m.benchmark.bid * m.benchmark.bidSize, m.follower.ask * m.follower.askSize)
  }

  predicate SellSignal(cfg: Config, m: Market) {
    && m.benchmark.ask * (1.0 + SellThreshold(m)) <= m.follower.bid + m.askBidMedian
    && SizesAllow(cfg, m.benchmark.ask * m.benchmark.askSize, m.follower.bid * m.follower.bidSize)
  }

  /** The buy test without its division: with a positive divisor the ask, shifted by the median and marked up by both
      betas and the ratio, must not pass the benchmark bid; with a negative one it must reach it, and with none the bid
      alone decides. */
  lemma BuySignalExactlyWhen(cfg: Config, m: Market)
    ensures var markup := 1.0 + (m.benchmarkBeta.bid + m.followerBeta.ask) * (1.0 + m.reduceRatio);
            BuySignal(cfg, m) <==>
              && (if markup > 0.0 then (m.follower.ask + m.bidAskMedian) * markup <= m.benchmark.bid
                  else if markup < 0.0 then (m.follower.ask + m.bidAskMedian) * markup >= m.benchmark.bid
                  else m.benchmark.bid > 0.0)
              && (cfg.compareSizes ==>
                    && m.benchmark.bid * m.benchmark.bidSize >= cfg.minNotional
                    && m.benchmark.bid * m.benchmark.bidSize >=
                       m.follower.ask * m.follower.askSize * cfg.notionalMultiple)
  {
    QuotientTest(m.benchmark.bid, 1.0 + BuyThreshold(m), m.follower.ask + m.bidAskMedian);
  }

  lemma QuotientTest(x: real, d: real, y: real)
    ensures QuotientAtLeast(x, d, y) <==> if d > 0.0 then y * d <= x else if d < 0.0 then y * d >= x else x > 0.0
  {
    if d > 0.0 {
      QuotientBound(y, x, d);
    } else if d < 0.0 {
      var q := x / d;
      assert q * d == x;
      assert (q - y) * -d == y * d - x;
      Sign(q - y, -d);
    }
  }

  /** The sell test in full. */
  lemma SellSignalExactlyWhen(cfg: Config, m: Market)
    ensures SellSignal(cfg, m) <==>
              && m.benchmark.ask * (1.0 + (m.benchmarkBeta.ask + m.followerBeta.bid) * (1.0 - m.reduceRatio)) <=
                 m.follower.bid + m.askBidMedian
              && (cfg.compareSizes ==>
                    && m.benchmark.ask * m.benchmark.askSize >= cfg.minNotional
                    && m.benchmark.ask * m.benchmark.askSize >=
                       m.follower.bid * m.follower.bidSize * cfg.notionalMultiple)
  {}

  /** What the ratio does, with prices and betas that are not negative: a larger one never turns no buy into a buy, nor
      a sell into no sell. */
  lemma RatioHoldsBackBuys(cfg: Config, m: Market, ratio: real)
    requires m.reduceRatio <= ratio && m.benchmark.bid >= 0.0
    requires m.benchmarkBeta.bid + m.followerBeta.ask >= 0.0
    requires 1.0 + (m.benchmarkBeta.bid + m.followerBeta.ask) * (1.0 + m.reduceRatio) > 0.0
    ensures BuySignal(cfg, m.(reduceRatio := ratio)) ==> BuySignal(cfg, m)
  {
    LargerRatio(m.benchmarkBeta.bid + m.followerBeta.ask, m.reduceRatio, ratio, m.follower.ask + m.bidAskMedian,
                m.benchmark.bid);
    BuySignalExactlyWhen(cfg, m);
    BuySignalExactlyWhen(cfg, m.(reduceRatio := ratio));
  }

  lemma LargerRatio(betas: real, r: real, s: real, price: real, bid: real)
    requires betas >= 0.0 && r <= s && 1.0 + betas * (1.0 + r) > 0.0 && bid >= 0.0
    ensures 1.0 + betas * (1.0 + s) > 0.0
    ensures price * (1.0 + betas * (1.0 + s)) <= bid ==> price * (1.0 + betas * (1.0 + r)) <= bid
  {
    var x, y := betas * (1.0 + r), betas * (1.0 + s);
    ProductGrows(betas, 1.0 + r, 1.0 + s);
    assert x <= y;
    LowerMarkup(price, bid, 1.0 + x, 1.0 + y);
  }

  lemma LowerMarkup(price: real, bid: real, low: real, high: real)
    requires bid >= 0.0 && 0.0 < low <= high
    ensures price * high <= bid ==> price * low <= bid
  {
    if price >= 0.0 {
      ProductGrows(price, low, high);
    } else {
      ProductSign(-price, low);
      assert -price * low == -(price * low);
    }
  }

  lemma RatioHelpsSells(cfg: Config, m: Market, ratio: real)
    requires m.reduceRatio <= ratio && m.benchmark.ask >= 0.0 && m.benchmarkBeta.ask + m.followerBeta.bid >= 0.0
    ensures SellSignal(cfg, m) ==> SellSignal(cfg, m.(reduceRatio := ratio))
  {
    var betas := m.benchmarkBeta.ask + m.followerBeta.bid;
    ProductGrows(betas, 1.0 - ratio, 1.0 - m.reduceRatio);
    ProductGrows(m.benchmark.ask, 1.0 + betas * (1.0 - ratio), 1.0 + betas * (1.0 - m.reduceRatio));
  }

  lemma ProductGrows(a: real, x: real, y: real)
    requires a >= 0.0 && x <= y
    ensures a * x <= a * y
  {
    ProductSign(a, y - x);
    assert a * y == a * x + a * (y - x);
  }

  // ----- prices

  // The price before truncation, and the bound derived from the benchmark.
  function RawPrice(cfg: Config, m: Market, side: Side): real {
    if side.Buy? then m.follower.ask * (1.0 + cfg.margin) else m.follower.bid * (1.0 - cfg.margin)
  }

  function Cap(cfg: Config, m: Market, side: Side): real
    requires cfg.beta != -1.0
  {
    if side.Buy? then m.benchmark.bid / (1.0 + cfg.beta) - m.bidAskMedian
    else m.benchmark.ask * (1.0 + cfg.beta) - m.askBidMedian
  }

  function CutToCap(original: real, cap: real, margin: real, precision: nat, side: Side): real {
    if margin > 0.0 && (if side.Buy? then original > cap else original < cap) then DecimalProcess(cap, precision)
      else original
  }

  function FinalPrice(cfg: Config, m: Market, side: Side): real
    requires cfg.beta != -1.0
  {
    CutToCap(DecimalProcess(RawPrice(cfg, m, side), cfg.precision), Cap(cfg, m, side), cfg.margin, cfg.precision, side)
  }

  /** With a positive margin the final buy price never exceeds the truncated ask-based price, and it stays within the
      cap exactly when no cut was needed, the cap is not negative, or the cap is already a whole number of units. */
  lemma BuyPriceCapped(raw: real, cap: real, margin: real, precision: nat)
    requires margin > 0.0
    ensures var original := DecimalProcess(raw, precision);
            var price := CutToCap(original, cap, margin, precision, Buy);
            && price <= original
            && (price <= cap <==> original <= cap || cap >= 0.0 || DecimalProcess(cap, precision) == cap)
  {
    var original := DecimalProcess(raw, precision);
    Idempotent(raw, precision);
    WithinOneUnit(cap, precision);
    if original > cap {
      Monotone(cap, original, precision);
    }
  }

  function WideBeta(): Config {
    Config(false, false, false, 1.0, 1.0, 0.1, 0, 1.0, 0, false, 0.0, 0.0)
  }

  function NearMarket(): Market {
    Market(Quote(1.0, 1.0, 1.0, 1.0), Quote(0.1, 1.0, 0.1, 1.0), Betas(0.0, 0.0), Betas(0.0, 0.0), 0.9, 0.0, 0.0)
  }

  /** A buy signal with zero thresholds under a beta of one: the cap is negative, is rounded up to zero, and the order
      goes out above it. */
  lemma BuyAboveNegativeCap()
    ensures BuySignal(WideBeta(), NearMarket())
    ensures Cap(WideBeta(), NearMarket(), Buy) == -0.4 && FinalPrice(WideBeta(), NearMarket(), Buy) == 0.0
  {
    assert BuyThreshold(NearMarket()) == 0.0;
    assert RawPrice(WideBeta(), NearMarket(), Buy) == 0.11;
    assert Cap(WideBeta(), NearMarket(), Buy) == -0.4;
    CutsToZero();
  }

  lemma CutsToZero()
    ensures CutToCap(DecimalProcess(0.11, 0), -0.4, 0.1, 0, Buy) == 0.0
  {
    assert (0.11).Floor == 0 && (-(-0.4)).Floor == 0;
  }

  /** When the signal's threshold is at least beta, the signal itself puts the cap at or above the follower's ask. */
  lemma BuySignalLiftsCap(cfg: Config, m: Market)
    requires BuySignal(cfg, m) && m.benchmark.bid >= 0.0 && BuyThreshold(m) >= cfg.beta > -1.0
    ensures Cap(cfg, m, Buy) >= m.follower.ask
  {
    SmallerDivisor(m.benchmark.bid, 1.0 + cfg.beta, 1.0 + BuyThreshold(m));
  }

  lemma SmallerDivisor(x: real, c: real, d: real)
    requires x >= 0.0 && 0.0 < c <= d
    ensures x / d <= x / c
  {
    var q := x / d;
    Over(x, c);
    Over(x, d);
    NonNegativeQuotient(x, d);
    assert q * d == q * c + q * (d - c);
    ProductSign(q, d - c);
    Less(x / c, q, c);
  }

  lemma ProductSign(a: real, b: real)
    requires a >= 0.0 && b >= 0.0
    ensures a * b >= 0.0
  {}

  lemma NonNegativeQuotient(x: real, d: real)
    requires x >= 0.0 && d > 0.0
    ensures x / d >= 0.0
  {
    Over(x, d);
    Sign(x / d, d);
  }

  lemma SellSignalLowersCap(cfg: Config, m: Market)
    requires SellSignal(cfg, m) && m.benchmark.ask >= 0.0 && SellThreshold(m) >= cfg.beta > -1.0
    ensures Cap(cfg, m, Sell) <= m.follower.bid
  {
    var a, t := m.benchmark.ask, SellThreshold(m);
    ProductSign(a, t - cfg.beta);
    assert a * (1.0 + t) == a * (1.0 + cfg.beta) + a * (t - cfg.beta);
  }

  /** With a positive margin the final sell price never drops below the truncated bid-based price, nor a unit below the
      cap. */
  lemma SellPriceCapped(raw: real, cap: real, margin: real, precision: nat)
    requires margin > 0.0
    ensures var original := DecimalProcess(raw, precision);
            var price := CutToCap(original, cap, margin, precision, Sell);
            price >= original && price > cap - Unit(precision)
  {
    var original := DecimalProcess(raw, precision);
    Idempotent(raw, precision);
    WithinOneUnit(cap, precision);
    UnitPositive(precision);
    if original < cap {
      Monotone(original, cap, precision);
    }
  }

  // No cut was needed, the cap is not negative, or the cap is a whole number of units.
  predicate CapHolds(cfg: Config, m: Market)
    requires cfg.beta != -1.0
  {
    var cap := Cap(cfg, m, Buy);
    DecimalProcess(RawPrice(cfg, m, Buy), cfg.precision) <= cap || cap >= 0.0 ||
      DecimalProcess(cap, cfg.precision) == cap
  }

  lemma BuyWithinCap(cfg: Config, m: Market)
    requires cfg.margin > 0.0 && cfg.beta != -1.0
    ensures FinalPrice(cfg, m, Buy) <= Cap(cfg, m, Buy) <==> CapHolds(cfg, m)
  {
    BuyPriceCapped(RawPrice(cfg, m, Buy), Cap(cfg, m, Buy), cfg.margin, cfg.precision);
  }

  // A price, shifted by the usual offset and marked up by beta, does not pass the benchmark bid.
  predicate KeepsEdge(price: real, bid: real, median: real, beta: real) {
    (price + median) * (1.0 + beta) <= bid
  }

  lemma EdgeIsCap(price: real, cap: real, bid: real, median: real, beta: real)
    requires beta > -1.0 && cap == bid / (1.0 + beta) - median
    ensures KeepsEdge(price, bid, median, beta) <==> price <= cap
  {
    QuotientBound(price + median, bid, 1.0 + beta);
  }

  lemma QuotientBound(x: real, y: real, s: real)
    requires s > 0.0
    ensures x <= y / s <==> x * s <= y
  {
    Over(y, s);
    Less(y / s, x, s);
  }

  /** What the cap is for: the buy price keeps its edge over the benchmark exactly when no cut was needed, the cap is
      not negative, or the cap is a whole number of units. */
  lemma BuyKeepsEdge(cfg: Config, m: Market)
    requires cfg.margin > 0.0 && cfg.beta > -1.0
    ensures KeepsEdge(FinalPrice(cfg, m, Buy), m.benchmark.bid, m.bidAskMedian, cfg.beta) <==> CapHolds(cfg, m)
  {
    BuyWithinCap(cfg, m);
    EdgeIsCap(FinalPrice(cfg, m, Buy), Cap(cfg, m, Buy), m.benchmark.bid, m.bidAskMedian, cfg.beta);
  }

  /** Under a buy signal with a threshold of at least beta and prices that are not negative, it always holds. */
  lemma BuySignalKeepsEdge(cfg: Config, m: Market)
    requires cfg.margin > 0.0 && BuySignal(cfg, m) && BuyThreshold(m) >= cfg.beta > -1.0
    requires m.benchmark.bid >= 0.0 && m.follower.ask >= 0.0
    ensures FinalPrice(cfg, m, Buy) <= Cap(cfg, m, Buy)
    ensures KeepsEdge(FinalPrice(cfg, m, Buy), m.benchmark.bid, m.bidAskMedian, cfg.beta)
  {
    BuySignalLiftsCap(cfg, m);
    BuyWithinCap(cfg, m);
    BuyKeepsEdge(cfg, m);
  }

  /** And a sell, shifted by its offset, falls short of the marked-up benchmark ask by less than one unit. */
  lemma SellKeepsEdge(cfg: Config, m: Market)
    requires cfg.margin > 0.0 && cfg.beta != -1.0
    ensures FinalPrice(cfg, m, Sell) + m.askBidMedian > m.benchmark.ask * (1.0 + cfg.beta) - Unit(cfg.precision)
  {
    SellPriceCapped(RawPrice(cfg, m, Sell), Cap(cfg, m, Sell), cfg.margin, cfg.precision);
  }

  // Two values and their truncations by less than u, in order.
  predicate TruncatedPair(raw: real, cap: real, r: real, c: real, u: real) {
    raw - u < r <= raw && cap - u < c <= cap && (r <= cap ==> r <= c)
  }

  lemma TruncatedInOrder(raw: real, cap: real, precision: nat)
    requires raw >= 0.0 && cap >= 0.0
    ensures TruncatedPair(raw, cap, DecimalProcess(raw, precision), DecimalProcess(cap, precision), Unit(precision))
  {
    WithinOneUnit(raw, precision);
    WithinOneUnit(cap, precision);
    Idempotent(raw, precision);
    if DecimalProcess(raw, precision) <= cap {
      Monotone(DecimalProcess(raw, precision), cap, precision);
    }
  }

  lemma NearLesserAndGreater(raw: real, cap: real, r: real, c: real, u: real)
    requires TruncatedPair(raw, cap, r, c, u)
    ensures (if raw <= cap then raw else cap) - u < (if r > cap then c else r) <= if raw <= cap then raw else cap
    ensures (if raw >= cap then raw else cap) - u < (if r < cap then c else r) <= if raw >= cap then raw else cap
  {}

  /** The buy price in numbers: within one unit below the lesser of the marked-up ask and the bid's cap. */
  lemma BuyPriceNear(cfg: Config, m: Market, raw: real, cap: real)
    requires cfg.margin > 0.0 && cfg.beta > -1.0 && raw >= 0.0 && cap >= 0.0
    requires raw == m.follower.ask * (1.0 + cfg.margin) && cap == m.benchmark.bid / (1.0 + cfg.beta) - m.bidAskMedian
    ensures (if raw <= cap then raw else cap) - Unit(cfg.precision) < FinalPrice(cfg, m, Buy)
    ensures FinalPrice(cfg, m, Buy) <= if raw <= cap then raw else cap
  {
    assert raw == RawPrice(cfg, m, Buy) && cap == Cap(cfg, m, Buy);
    TruncatedInOrder(raw, cap, cfg.precision);
    NearLesserAndGreater(raw, cap, DecimalProcess(raw, cfg.precision), DecimalProcess(cap, cfg.precision),
                         Unit(cfg.precision));
  }

  /** The sell price in numbers: within one unit below the greater of the marked-down bid and the ask's cap. */
  lemma SellPriceNear(cfg: Config, m: Market, raw: real, cap: real)
    requires cfg.margin > 0.0 && cfg.beta > -1.0 && raw >= 0.0 && cap >= 0.0
    requires raw == m.follower.bid * (1.0 - cfg.margin) && cap == m.benchmark.ask * (1.0 + cfg.beta) - m.askBidMedian
    ensures (if raw >= cap then raw else cap) - Unit(cfg.precision) < FinalPrice(cfg, m, Sell)
    ensures FinalPrice(cfg, m, Sell) <= if raw >= cap then raw else cap
  {
    assert raw == RawPrice(cfg, m, Sell) && cap == Cap(cfg, m, Sell);
    TruncatedInOrder(raw, cap, cfg.precision);
    NearLesserAndGreater(raw, cap, DecimalProcess(raw, cfg.precision), DecimalProcess(cap, cfg.precision),
                         Unit(cfg.precision));
  }

  /** Without a margin there is no cut: the price is the truncated ask or bid with the margin on it. */
  lemma PriceWithoutMargin(cfg: Config, m: Market, side: Side, raw: real)
    requires cfg.margin <= 0.0 && cfg.beta != -1.0
    requires raw == if side.Buy? then m.follower.ask * (1.0 + cfg.margin) else m.follower.bid * (1.0 - cfg.margin)
    ensures FinalPrice(cfg, m, side) == DecimalProcess(raw, cfg.precision)
    ensures raw - Unit(cfg.precision) < FinalPrice(cfg, m, side) < raw + Unit(cfg.precision)
  {
    assert raw == RawPrice(cfg, m, side);
    NoCut(DecimalProcess(raw, cfg.precision), Cap(cfg, m, side), cfg.margin, cfg.precision, side);
    WithinOneUnit(raw, cfg.precision);
  }

  lemma NoCut(original: real, cap: real, margin: real, precision: nat, side: Side)
    requires margin <= 0.0
    ensures CutToCap(original, cap, margin, precision, side) == original
  {}

  // ----- sizing and the same-price pause

  datatype Sizing = Sizing(volume: real, closes: bool, reduceOnly: bool)

  function Size(cfg: Config, p: Position, side: Side): Sizing {
    var closes := p.side == if side.Buy? then Short else Long;
    if closes && (cfg.closeOnly || cfg.assetCloseOnly) && cfg.orderSize > p.amountAbs
    then Sizing(p.amountAbs, true, true)
    else Sizing(cfg.orderSize, closes, false)
  }

  /** Price and time of the last admitted order of one side. */
  datatype Latest = Latest(price: real, millis: nat)

  function SmallPause(pauseMillis: nat): nat {
    if pauseMillis * 90 / 100 < 50 then 50 else pauseMillis * 90 / 100
  }

  predicate Admitted(latest: Latest, price: real, now: nat, pauseMillis: nat, reduceOnly: bool) {
    if price == latest.price && latest.millis + pauseMillis > now
    then reduceOnly && latest.millis + SmallPause(pauseMillis) <= now
    else true
  }

  predicate StopsSide(cfg: Config, p: Position, side: Side) {
    p.amountAbs >= cfg.maxPosition && (p.side == Long <==> side.Buy?)
  }

  // ----- one iteration

  datatype Decision = Decision(side: Side, price: real, sizing: Sizing, admitted: bool, written: bool)

  function DecideAt(
    cfg: Config, gate: RC.Gate, p: Position, latest: Latest, side: Side, price: real, now: nat): Decision {
    var sizing := Size(cfg, p, side);
    var admitted := Admitted(latest, price, now, cfg.pauseMillis, sizing.reduceOnly);
    var written := && !StopsSide(cfg, p, side) && gate.CouldMakeOrder() && admitted
                   && (sizing.closes || (!cfg.assetCloseOnly && gate.CouldMakeOpenOrder()));
    Decision(side, price, sizing, admitted, written)
  }

  function Decide(
    cfg: Config, gate: RC.Gate, p: Position, buy: Latest, sell: Latest, m: Market, now: nat): Option<Decision>
    requires cfg.beta != -1.0
  {
    if (cfg.closeOnly || cfg.assetCloseOnly) && p.amount == 0.0 then None
    else if BuySignal(cfg, m) then Some(DecideAt(cfg, gate, p, buy, Buy, FinalPrice(cfg, m, Buy), now))
    else if SellSignal(cfg, m) then Some(DecideAt(cfg, gate, p, sell, Sell, FinalPrice(cfg, m, Sell), now))
    else None
  }

  /** Which side an iteration takes up: none if close-only finds nothing to close, else a buy if its test holds, else a
      sell if its own does; and at what price. */
  lemma SideExactlyWhen(
    cfg: Config, gate: RC.Gate, p: Position, buy: Latest, sell: Latest, m: Market, now: nat)
    requires cfg.beta != -1.0
    ensures var d := Decide(cfg, gate, p, buy, sell, m, now);
            var blocked := (cfg.closeOnly || cfg.assetCloseOnly) && p.amount == 0.0;
            && (d.Some? && d.value.side.Buy? <==> !blocked && BuySignal(cfg, m))
            && (d.Some? && d.value.side.Sell? <==> !blocked && !BuySignal(cfg, m) && SellSignal(cfg, m))
            && (d.Some? ==> d.value.price == FinalPrice(cfg, m, d.value.side))
  {}

  /** The loop variables of the strategy thread and one pass of its body after the freshness checks. */
  class StrategyProcessor {
    const cfg: Config
    var latestBuyPrice: real
    var latestBuyMillis: nat
    var latestSellPrice: real
    var latestSellMillis: nat

    function LatestBuy(): Latest
      reads this
    {
      Latest(latestBuyPrice, latestBuyMillis)
    }

    function LatestSell(): Latest
      reads this
    {
      Latest(latestSellPrice, latestSellMillis)
    }

    constructor (cfg: Config)
      ensures this.cfg == cfg && LatestBuy() == Latest(0.0, 0) && LatestSell() == Latest(0.0, 0)
    {
      this.cfg := cfg;
      latestBuyPrice, latestBuyMillis, latestSellPrice, latestSellMillis := 0.0, 0, 0.0, 0;
    }

    method BuyPrice(m: Market) returns (price: real)
      requires cfg.beta != -1.0
      ensures price == FinalPrice(cfg, m, Buy)
    {
      var raw := m.follower.ask * (1.0 + cfg.margin);
      price := DecimalProcess(raw, cfg.precision);
      var cap := m.benchmark.bid / (1.0 + cfg.beta) - m.bidAskMedian;
      assert raw == RawPrice(cfg, m, Buy) && cap == Cap(cfg, m, Buy);
      if cfg.margin > 0.0 && price > cap {
        price := DecimalProcess(cap, cfg.precision);
      }
    }

    method SellPrice(m: Market) returns (price: real)
      requires cfg.beta != -1.0
      ensures price == FinalPrice(cfg, m, Sell)
    {
      var raw := m.follower.bid * (1.0 - cfg.margin);
      price := DecimalProcess(raw, cfg.precision);
      var cap := m.benchmark.ask * (1.0 + cfg.beta) - m.askBidMedian;
      assert raw == RawPrice(cfg, m, Sell) && cap == Cap(cfg, m, Sell);
      if cfg.margin > 0.0 && price < cap {
        price := DecimalProcess(cap, cfg.precision);
      }
    }

    method MakeBuyOrder(gate: RC.Gate, p: Position, price: real, now: nat) returns (decision: Decision)
      modifies `latestBuyPrice, `latestBuyMillis
      ensures decision == DecideAt(cfg, gate, p, old(LatestBuy()), Buy, price, now)
      ensures LatestBuy() == if decision.admitted then Latest(price, now) else old(LatestBuy())
    {
      var stopBuy := p.amountAbs >= cfg.maxPosition && p.side == Long;
      var orderSize, positionClose, reduceOnly := cfg.orderSize, false, false;
      if p.side == Short {
        positionClose := true;
        if (cfg.closeOnly || cfg.assetCloseOnly) && orderSize > p.amountAbs {
          reduceOnly := true;
          orderSize := p.amountAbs;
        }
      }
      var samePrice := false;
      if price == latestBuyPrice && latestBuyMillis + cfg.pauseMillis > now {
        if reduceOnly {
          samePrice := latestBuyMillis + SmallPause(cfg.pauseMillis) <= now;
        }
      } else {
        samePrice := true;
      }
      if samePrice {
        latestBuyPrice := price;
        latestBuyMillis := now;
      }
      var written := false;
      if !stopBuy && gate.CouldMakeOrder() && samePrice {
        written := positionClose || (!cfg.assetCloseOnly && gate.CouldMakeOpenOrder());
      }
      decision := Decision(Buy, price, Sizing(orderSize, positionClose, reduceOnly), samePrice, written);
    }

    method MakeSellOrder(gate: RC.Gate, p: Position, price: real, now: nat) returns (decision: Decision)
      modifies `latestSellPrice, `latestSellMillis
      ensures decision == DecideAt(cfg, gate, p, old(LatestSell()), Sell, price, now)
      ensures LatestSell() == if decision.admitted then Latest(price, now) else old(LatestSell())
    {
      var stopSell := p.amountAbs >= cfg.maxPosition && p.side != Long;
      var orderSize, positionClose, reduceOnly := cfg.orderSize, false, false;
      if p.side == Long {
        positionClose := true;
        if (cfg.closeOnly || cfg.assetCloseOnly) && orderSize > p.amountAbs {
          orderSize := p.amountAbs;
          reduceOnly := true;
        }
      }
      var samePrice := false;
      if price == latestSellPrice && latestSellMillis + cfg.pauseMillis > now {
        if reduceOnly {
          samePrice := latestSellMillis + SmallPause(cfg.pauseMillis) <= now;
        }
      } else {
        samePrice := true;
      }
      if samePrice {
        latestSellPrice := price;
        latestSellMillis := now;
      }
      var written := false;
      if !stopSell && gate.CouldMakeOrder() && samePrice {
        written := positionClose || (!cfg.assetCloseOnly && gate.CouldMakeOpenOrder());
      }
      decision := Decision(Sell, price, Sizing(orderSize, positionClose, reduceOnly), samePrice, written);
    }

    // A buy signal hides a sell signal.
    method CalculateSignalMakeOrder(gate: RC.Gate, p: Position, m: Market, now: nat)
      returns (decision: Option<Decision>)
      requires cfg.beta != -1.0
      modifies this
      ensures decision == Decide(cfg, gate, p, old(LatestBuy()), old(LatestSell()), m, now)
      ensures LatestBuy() == if decision.Some? && decision.value.side.Buy? && decision.value.admitted
                             then Latest(decision.value.price, now) else old(LatestBuy())
      ensures LatestSell() == if decision.Some? && decision.value.side.Sell? && decision.value.admitted
                              then Latest(decision.value.price, now) else old(LatestSell())
    {
      decision := None;
      if (cfg.closeOnly || cfg.assetCloseOnly) && p.amount == 0.0 {
        return;
      }
      if BuySignal(cfg, m) {
        var price := BuyPrice(m);
        var made := MakeBuyOrder(gate, p, price, now);
        decision := Some(made);
      } else if SellSignal(cfg, m) {
        var price := SellPrice(m);
        var made := MakeSellOrder(gate, p, price, now);
        decision := Some(made);
      }
    }
  }

  // ----- runs: watchdog ticks, position reports and iterations in any order

  /** An admitted order, with the position it was decided on and whether it went into the order slot. */
  datatype Admission = Admission(decision: Decision, position: Position, at: nat)

  datatype Actuary = Actuary(
    cfg: Config, limits: RC.Limits, gate: RC.Gate, position: Option<Position>,
    buy: Latest, sell: Latest, now: nat, log: seq<Admission>)

  datatype Step = Watch(tick: RC.Tick) | Report(side: PositionSide, amount: real) | Iterate(market: Market, now: nat)

  predicate Enabled(s: Actuary, step: Step) {
    s.cfg.beta != -1.0 && (step.Iterate? ==> s.now <= step.now)
  }

  function Do(s: Actuary, step: Step): Actuary
    requires Enabled(s, step)
  {
    match step
    case Watch(MetaRound(meta, now)) => s.(gate := RC.MetaTick(s.gate, s.limits, meta, now))
    case Watch(BnbRound(balance, now)) => s.(gate := RC.BnbTick(s.gate, s.limits, balance, now))
    case Report(side, amount) => if s.position.Some? then s.(position := Some(Normalised(side, amount))) else s
    case Iterate(m, now) =>
      var t := s.(now := now);
      if s.position.None? then t
      else
        var d := Decide(s.cfg, s.gate, s.position.value, s.buy, s.sell, m, now);
        if d.None? || !d.value.admitted then t
        else
          var t := t.(log := s.log + [Admission(d.value, s.position.value, now)]);
          if d.value.side.Buy? then t.(buy := Latest(d.value.price, now)) else t.(sell := Latest(d.value.price, now))
  }

  predicate Init(s: Actuary) {
    && s.gate == RC.Initial(s.cfg.stopMakeOrder, s.cfg.closeOnly)
    && (s.position == None || s.position == Some(NO_POSITION))
    && s.buy == Latest(0.0, 0) && s.sell == Latest(0.0, 0) && s.log == []
  }

  predicate IsRun(states: seq<Actuary>, steps: seq<Step>) {
    && |states| == |steps| + 1
    && Init(states[0])
    && forall k :: 0 <= k < |steps| ==> Enabled(states[k], steps[k]) && states[k + 1] == Do(states[k], steps[k])
  }

  // Every position report is one-way.
  predicate OneWay(steps: seq<Step>) {
    forall k :: 0 <= k < |steps| && steps[k].Report? ==> steps[k].side == Both
  }

  // ----- close-only

  predicate GateInv(s: Actuary) {
    RC.Consistent(s.gate) && (s.cfg.closeOnly ==> RC.StaticConfig in s.gate.stopOpenReasons)
  }

  lemma StepKeepsGateInv(s: Actuary, step: Step)
    requires GateInv(s) && Enabled(s, step)
    ensures GateInv(Do(s, step)) && Do(s, step).cfg == s.cfg
  {
    if step.Watch? {
      match step.tick
      case MetaRound(meta, now) => RC.MetaTickEffect(s.gate, s.limits, meta, now);
      case BnbRound(balance, now) => RC.BnbTickEffect(s.gate, s.limits, balance, now);
    }
  }

  /** A written order opposes the side it read and is no larger than the position. */
  predicate Closing(a: Admission) {
    a.decision.written ==>
      && a.position.side == (if a.decision.side.Buy? then Short else Long)
      && a.decision.sizing.volume <= a.position.amountAbs
  }

  predicate AllClosing(log: seq<Admission>) {
    forall i :: 0 <= i < |log| ==> Closing(log[i])
  }

  predicate AllSigned(s: Actuary) {
    && (s.position.Some? ==> SideMatchesSign(s.position.value))
    && forall i :: 0 <= i < |s.log| ==> SideMatchesSign(s.log[i].position)
  }

  lemma StepKeepsClosing(s: Actuary, step: Step)
    requires GateInv(s) && Enabled(s, step)
    ensures (s.cfg.closeOnly || s.cfg.assetCloseOnly) && AllClosing(s.log) ==> AllClosing(Do(s, step).log)
    ensures AllSigned(s) && (step.Report? ==> step.side == Both) ==> AllSigned(Do(s, step))
  {
    if step.Report? {
      NormalisedAgrees(step.side, step.amount);
    }
  }

  lemma {:induction false} RunClosing(states: seq<Actuary>, steps: seq<Step>, k: nat)
    requires IsRun(states, steps) && k < |states|
    ensures GateInv(states[k]) && states[k].cfg == states[0].cfg
    ensures states[0].cfg.closeOnly || states[0].cfg.assetCloseOnly ==> AllClosing(states[k].log)
    ensures OneWay(steps) ==> AllSigned(states[k])
  {
    if k > 0 {
      RunClosing(states, steps, k - 1);
      StepKeepsGateInv(states[k - 1], steps[k - 1]);
      StepKeepsClosing(states[k - 1], steps[k - 1]);
    }
  }

  /** In every run with close-only set, globally or for the asset, each written order opposes the side of the position
      it read and is at most its size; with one-way reports that is the opposite of the position's sign. */
  lemma CloseOnlyNeverOpens(states: seq<Actuary>, steps: seq<Step>, k: nat, i: nat)
    requires IsRun(states, steps) && k < |states| && i < |states[k].log| && states[k].log[i].decision.written
    requires states[0].cfg.closeOnly || states[0].cfg.assetCloseOnly
    ensures Closing(states[k].log[i])
    ensures OneWay(steps) ==>
              var a := states[k].log[i];
              && (if a.decision.side.Buy? then a.position.amount < 0.0 else a.position.amount > 0.0)
              && a.decision.sizing.volume <= Abs(a.position.amount)
  {
    RunClosing(states, steps, k);
  }

  // ----- the same-price pause

  /** The admission before the j-th on the same side, or -1. */
  function Previous(log: seq<Admission>, side: Side, j: int): int
    requires j <= |log|
    decreases j
  {
    if j <= 0 then -1 else if log[j - 1].decision.side == side then j - 1 else Previous(log, side, j - 1)
  }

  lemma PreviousStable(log: seq<Admission>, a: Admission, side: Side, j: int)
    requires j <= |log|
    ensures -1 <= Previous(log, side, j) < |log| && Previous(log, side, j) == Previous(log + [a], side, j)
    decreases j
  {
    if j > 0 && log[j - 1].decision.side != side {
      PreviousStable(log, a, side, j - 1);
    }
  }

  // The loop variables of a side remember its last admission.
  predicate Remembers(latest: Latest, log: seq<Admission>, side: Side) {
    var i := Previous(log, side, |log|);
    latest == if 0 <= i < |log| then Latest(log[i].decision.price, log[i].at) else Latest(0.0, 0)
  }

  predicate Spaced(log: seq<Admission>, j: nat, pauseMillis: nat)
    requires j < |log|
  {
    var i := Previous(log, log[j].decision.side, j);
    0 <= i < j && log[i].decision.price == log[j].decision.price ==>
      && (log[i].at + pauseMillis <= log[j].at || log[i].at + SmallPause(pauseMillis) <= log[j].at)
      && (!log[j].decision.sizing.reduceOnly ==> log[i].at + pauseMillis <= log[j].at)
  }

  predicate PauseInv(s: Actuary) {
    && Remembers(s.buy, s.log, Buy) && Remembers(s.sell, s.log, Sell)
    && forall j :: 0 <= j < |s.log| ==> Spaced(s.log, j, s.cfg.pauseMillis)
  }

  lemma AdmissionKeepsPause(s: Actuary, a: Admission)
    requires PauseInv(s)
    requires var latest := if a.decision.side.Buy? then s.buy else s.sell;
             Admitted(latest, a.decision.price, a.at, s.cfg.pauseMillis, a.decision.sizing.reduceOnly)
    ensures var t := s.(log := s.log + [a]);
            PauseInv(if a.decision.side.Buy? then t.(buy := Latest(a.decision.price, a.at))
                     else t.(sell := Latest(a.decision.price, a.at)))
  {
    var log := s.log + [a];
    PreviousStable(s.log, a, Buy, |s.log|);
    PreviousStable(s.log, a, Sell, |s.log|);
    forall j | 0 <= j < |log| ensures Spaced(log, j, s.cfg.pauseMillis) {
      PreviousStable(s.log, a, log[j].decision.side, j);
      if j < |s.log| {
        assert Spaced(s.log, j, s.cfg.pauseMillis);
      }
    }
  }

  lemma StepKeepsPause(s: Actuary, step: Step)
    requires PauseInv(s) && Enabled(s, step)
    ensures PauseInv(Do(s, step)) && Do(s, step).cfg == s.cfg
  {
    var t := Do(s, step);
    if |t.log| > |s.log| {
      AdmissionKeepsPause(s, t.log[|s.log|]);
    } else {
      assert t.log == s.log && t.buy == s.buy && t.sell == s.sell;
    }
  }

  lemma {:induction false} RunPaused(states: seq<Actuary>, steps: seq<Step>, k: nat)
    requires IsRun(states, steps) && k < |states|
    ensures PauseInv(states[k]) && states[k].cfg == states[0].cfg
  {
    if k > 0 {
      RunPaused(states, steps, k - 1);
      StepKeepsPause(states[k - 1], steps[k - 1]);
    }
  }

  /** Per side, two consecutive admissions at one price are a pause apart, or, when the later only reduces, nine tenths
      of it or 50 ms, whichever is longer. */
  lemma SamePriceSpacing(states: seq<Actuary>, steps: seq<Step>, k: nat, j: nat)
    requires IsRun(states, steps) && k < |states| && j < |states[k].log|
    ensures var log, pause := states[k].log, states[0].cfg.pauseMillis;
            var i := Previous(log, log[j].decision.side, j);
            0 <= i < j && log[i].decision.price == log[j].decision.price ==>
              && (log[j].at - log[i].at >= pause ||
                  (log[j].at - log[i].at >= 50 && log[j].at - log[i].at >= pause * 90 / 100))
              && (!log[j].decision.sizing.reduceOnly ==> log[j].at - log[i].at >= pause)
  {
    RunPaused(states, steps, k);
    assert Spaced(states[k].log, j, states[k].cfg.pauseMillis);
  }

  /** And that is all that holds an order back: what an iteration decides is admitted if and only if its price is new
      for the side, or the pause since the side's last admission is over, or the order only reduces and the shorter one
      is. */
  lemma AdmittedExactlyWhen(states: seq<Actuary>, steps: seq<Step>, k: nat, d: Decision)
    requires IsRun(states, steps) && k < |steps| && steps[k].Iterate? && states[k].position.Some?
    requires var s := states[k];
             && Enabled(s, steps[k])
             && Decide(s.cfg, s.gate, s.position.value, s.buy, s.sell, steps[k].market, steps[k].now) == Some(d)
    ensures var log, now, pause := states[k].log, steps[k].now, states[0].cfg.pauseMillis;
            var i := Previous(log, d.side, |log|);
            var price, at := if 0 <= i < |log| then log[i].decision.price else 0.0, if 0 <= i < |log| then log[i].at
              else 0;
            var admitted := d.price != price || at + pause <= now
                            || (d.sizing.reduceOnly && at + 50 <= now && at + pause * 90 / 100 <= now);
            && d.admitted == admitted
            && states[k + 1].log == if admitted then log + [Admission(d, states[k].position.value, now)] else log
  {
    RunPaused(states, steps, k);
  }

  // ----- the gates, from the ticks to the order slot

  function TicksOf(steps: seq<Step>): seq<RC.Tick> {
    if steps == [] then []
    else TicksOf(steps[..|steps| - 1]) + if steps[|steps| - 1].Watch? then [steps[|steps| - 1].tick] else []
  }

  lemma {:induction false} GateFollowsTicks(states: seq<Actuary>, steps: seq<Step>, k: nat)
    requires IsRun(states, steps) && k < |states|
    ensures states[k].cfg == states[0].cfg && states[k].limits == states[0].limits
    ensures states[k].gate ==
            RC.Played(RC.Initial(states[0].cfg.stopMakeOrder, states[0].cfg.closeOnly), states[0].limits,
                      TicksOf(steps[..k]))
  {
    if k > 0 {
      GateFollowsTicks(states, steps, k - 1);
      assert steps[..k][..k - 1] == steps[..k - 1];
      var before := TicksOf(steps[..k - 1]);
      if steps[k - 1].Watch? {
        assert (before + [steps[k - 1].tick])[..|before|] == before;
      } else {
        assert before + [] == before;
      }
    }
  }

  /** An admitted order reaches the slot if and only if the watchdogs' ticks so far allow orders; its side is not the
      one the position has already filled to the maximum; and it closes a position, or opening was never configured
      away and the last decisive margin reading was not too high. */
  lemma WrittenExactlyWhen(states: seq<Actuary>, steps: seq<Step>, k: nat)
    requires IsRun(states, steps) && k < |steps| && |states[k + 1].log| > |states[k].log|
    ensures |states[k + 1].log| == |states[k].log| + 1 && steps[k].Iterate?
    ensures var cfg, ticks, limits, a := states[0].cfg, TicksOf(steps[..k]), states[0].limits,
            states[k + 1].log[|states[k].log|];
            a.decision.written <==>
              && !cfg.stopMakeOrder && RC.LastFresh(ticks, true) && RC.LastFresh(ticks, false)
              && !RC.ShortageSeen(ticks, limits)
              && (a.position.amountAbs < cfg.maxPosition || (a.decision.side.Buy? <==> a.position.side != Long))
              && (a.position.side == (if a.decision.side.Buy? then Short else Long) ||
                  (!cfg.closeOnly && !cfg.assetCloseOnly && !RC.MarginSeenHigh(ticks, limits)))
  {
    GateFollowsTicks(states, steps, k);
    RC.AllowedExactlyWhen(states[0].cfg.stopMakeOrder, states[0].cfg.closeOnly, states[0].limits, TicksOf(steps[..k]));
    AdmissionWritten(states[k], steps[k]);
  }

  lemma AdmissionWritten(s: Actuary, step: Step)
    requires Enabled(s, step) && |Do(s, step).log| > |s.log|
    ensures step.Iterate? && |Do(s, step).log| == |s.log| + 1
    ensures var a := Do(s, step).log[|s.log|];
            a.decision.written <==>
              && s.gate.CouldMakeOrder()
              && (a.position.amountAbs < s.cfg.maxPosition || (a.decision.side.Buy? <==> a.position.side != Long))
              && (a.position.side == (if a.decision.side.Buy? then Short else Long) ||
                  (!s.cfg.assetCloseOnly && s.gate.CouldMakeOpenOrder()))
  {}

  /** The size of every admitted order: the configured one, except that under close-only an order against a smaller
      position is cut to it and marked reduce-only. */
  lemma SizedExactly(states: seq<Actuary>, steps: seq<Step>, k: nat)
    requires IsRun(states, steps) && k < |steps| && |states[k + 1].log| > |states[k].log|
    ensures |states[k + 1].log| == |states[k].log| + 1
    ensures var cfg, a := states[k].cfg, states[k + 1].log[|states[k].log|];
            var cut := && (cfg.closeOnly || cfg.assetCloseOnly) && cfg.orderSize > a.position.amountAbs
                       && a.position.side == (if a.decision.side.Buy? then Short else Long);
            && a.decision.sizing.volume == (if cut then a.position.amountAbs else cfg.orderSize)
            && a.decision.sizing.reduceOnly == cut
            && states[k].position == Some(a.position)
  {}
}

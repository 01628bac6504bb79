/** The writer and reader calls on one slot, as the source writes them field by field. The lock is the subject of
    SlotProtocol; here each call runs undisturbed, and every slot is shown to hold the fold of the writes it accepted
    that SlotProtocol proves every snapshot to be. */
module ShmRecords {
  import opened ShmSlot

  // The slot rules say what every field holds after an accepted write; this spells it out as one list.
  lemma WrittenAs(kind: Kind, cells: Cells, w: Cells, after: Cells)
    requires Fits(kind, cells) && Fits(kind, w) && Fits(kind, after)
    requires forall i: nat :: i < Size(kind) - 1 ==> after[i] == if i in Plan(kind, w) then w[i] else cells[i]
    requires after[Size(kind) - 1] == Long(Version(kind, cells) + 1)
    ensures after == Written(kind, cells, w)
  {
    forall i: nat | i < Size(kind) - 1 ensures after[i] == Written(kind, cells, w)[i] {
      WrittenCell(kind, cells, w, i);
    }
  }

  lemma InRange(i: nat, lo: nat, hi: nat)
    requires lo <= hi
    ensures i in Range(lo, hi) <==> lo <= i < hi
  {
    if lo <= i < hi { assert Range(lo, hi)[i - lo] == i; }
  }

  datatype OrderRecord = OrderRecord(
    instId: string, orderType: string, side: string, posSide: string, timeInForce: string, clientOrderId: string,
    price: real, volume: real, reduceOnly: int, updateTime: int, versionNumber: int)
  {
    function Cells(): Cells {
      [Text(instId), Text(orderType), Text(side), Text(posSide), Text(timeInForce), Text(clientOrderId),
       Num(price), Num(volume), Long(reduceOnly), Long(updateTime), Long(versionNumber)]
    }

    function ReplacedBy(order: OrderRecord): OrderRecord {
      order.(versionNumber := versionNumber + 1)
    }

    /** Copying every field and bumping the version is what the slot rules ask of an order write. */
    lemma ReplacedIsWritten(order: OrderRecord)
      ensures ReplacedBy(order).Cells() == Written(Order, Cells(), order.Cells())
    {
      forall i: nat | i < 10 ensures i in Plan(Order, order.Cells()) { InRange(i, 0, 10); }
      WrittenAs(Order, Cells(), order.Cells(), ReplacedBy(order).Cells());
    }

    lemma AcceptsMeans(order: OrderRecord)
      ensures Accepts(Order, Cells(), order.Cells()) <==> updateTime < order.updateTime
    {}

    lemma Extends(order: OrderRecord, start: Cells, accepted: seq<Cells>)
      requires HoldsFold(Order, Cells(), start, accepted) && Accepts(Order, Cells(), order.Cells())
      ensures HoldsFold(Order, ReplacedBy(order).Cells(), start, accepted + [order.Cells()])
    {
      ReplacedIsWritten(order);
      FoldExtends(Order, Cells(), start, accepted, order.Cells());
    }

    /** The slot shows its last accepted order in every field. */
    lemma RepeatsLast(w: OrderRecord, start: Cells, accepted: seq<Cells>)
      requires HoldsFold(Order, Cells(), start, accepted) && accepted != [] && accepted[|accepted| - 1] == w.Cells()
      ensures instId == w.instId && orderType == w.orderType && side == w.side && posSide == w.posSide
      ensures timeInForce == w.timeInForce && clientOrderId == w.clientOrderId && price == w.price && volume == w.volume
      ensures reduceOnly == w.reduceOnly && updateTime == w.updateTime
    {
      forall i: nat | i < 10 ensures Cells()[i] == w.Cells()[i] {
        OrderSlotIsLastWrite(start, accepted, i);
      }
      assert Cells()[0] == w.Cells()[0] && Cells()[1] == w.Cells()[1] && Cells()[2] == w.Cells()[2];
      assert Cells()[3] == w.Cells()[3] && Cells()[4] == w.Cells()[4] && Cells()[5] == w.Cells()[5];
      assert Cells()[6] == w.Cells()[6] && Cells()[7] == w.Cells()[7] && Cells()[8] == w.Cells()[8];
      assert Cells()[9] == w.Cells()[9];
    }
  }

  class OrderShm {
    var instId: string
    var orderType: string
    var side: string
    var posSide: string
    var timeInForce: string
    var clientOrderId: string
    var price: real
    var volume: real
    var reduceOnly: int
    var updateTime: int
    var versionNumber: int
    ghost var start: Cells
    ghost var accepted: seq<Cells>

    function Value(): OrderRecord
      reads this
    {
      OrderRecord(instId, orderType, side, posSide, timeInForce, clientOrderId, price, volume, reduceOnly, updateTime,
                  versionNumber)
    }

    ghost predicate Valid()
      reads this
    {
      HoldsFold(Order, Value().Cells(), start, accepted)
    }

    constructor (instId: string)
      ensures Valid() && accepted == [] && start == Value().Cells() && Version(Order, start) == 0 &&
              Time(Order, start) == 0
    {
      this.instId := instId;
      orderType, side, posSide, timeInForce, clientOrderId := "", "", "", "", "";
      price, volume, reduceOnly, updateTime, versionNumber := 0.0, 0.0, 0, 0, 0;
      accepted := [];
      new;
      start := Value().Cells();
    }

    method OverwriteTexts(order: OrderRecord)
      modifies `instId, `orderType, `side, `posSide, `timeInForce, `clientOrderId
      ensures instId == order.instId && orderType == order.orderType && side == order.side && posSide == order.posSide
      ensures timeInForce == order.timeInForce && clientOrderId == order.clientOrderId
    {
      instId := order.instId;
      orderType := order.orderType;
      side := order.side;
      posSide := order.posSide;
      timeInForce := order.timeInForce;
      clientOrderId := order.clientOrderId;
    }

    method Overwrite(order: OrderRecord)
      modifies this
      ensures Value() == old(Value()).ReplacedBy(order) && start == old(start) && accepted == old(accepted)
    {
      OverwriteTexts(order);
      price := order.price;
      volume := order.volume;
      reduceOnly := order.reduceOnly;
      updateTime := order.updateTime;
      versionNumber := versionNumber + 1;
    }

    // The result tells "an earlier order was replaced", not "accepted": the first accepted order reports 0.
    method WriterUpdate(order: OrderRecord) returns (result: int)
      requires Valid()
      modifies this
      ensures Valid() && start == old(start)
      ensures var accepts := old(updateTime) < order.updateTime;
              && accepted == (if accepts then old(accepted) + [order.Cells()] else old(accepted))
              && result == if accepts && old(updateTime) > 0 then 1 else 0
    {
      result := 0;
      var hist := updateTime;
      Value().AcceptsMeans(order);
      if hist < order.updateTime {
        Value().Extends(order, start, accepted);
        Overwrite(order);
        accepted := accepted + [order.Cells()];
        if hist > 0 {
          result := 1;
        }
      }
    }

    method ReaderGet() returns (copy: OrderRecord)
      requires Valid()
      ensures copy.Cells() == Stored(Order, start, accepted) && copy.versionNumber == Version(Order, start) + |accepted|
      ensures forall w: OrderRecord :: accepted != [] && accepted[|accepted| - 1] == w.Cells() ==>
                && copy.instId == w.instId && copy.orderType == w.orderType && copy.side == w.side
                && copy.posSide == w.posSide && copy.timeInForce == w.timeInForce &&
                   copy.clientOrderId == w.clientOrderId
                && copy.price == w.price && copy.volume == w.volume && copy.reduceOnly == w.reduceOnly
                && copy.updateTime == w.updateTime
    {
      copy := OrderRecord(instId, orderType, side, posSide, timeInForce, clientOrderId, price, volume, reduceOnly,
                          updateTime, versionNumber);
      forall w: OrderRecord | accepted != [] && accepted[|accepted| - 1] == w.Cells()
        ensures copy.instId == w.instId && copy.orderType == w.orderType && copy.side == w.side
        ensures copy.posSide == w.posSide && copy.timeInForce == w.timeInForce && copy.clientOrderId == w.clientOrderId
        ensures copy.price == w.price && copy.volume == w.volume && copy.reduceOnly == w.reduceOnly
        ensures copy.updateTime == w.updateTime
      {
        copy.RepeatsLast(w, start, accepted);
      }
    }
  }

  datatype EarlyRunRecord = EarlyRunRecord(
    asset: string, avgMedian: real, bidAskMedian: real, askBidMedian: real, timeMills: int, versionNumber: int)
  {
    function Cells(): Cells {
      [Text(asset), Num(avgMedian), Num(bidAskMedian), Num(askBidMedian), Long(timeMills), Long(versionNumber)]
    }

    function ReplacedBy(threshold: EarlyRunRecord): EarlyRunRecord {
      threshold.(asset := asset, versionNumber := versionNumber + 1)
    }

    lemma ReplacedIsWritten(threshold: EarlyRunRecord)
      ensures ReplacedBy(threshold).Cells() == Written(EarlyRun, Cells(), threshold.Cells())
    {
      forall i: nat | i < 5 ensures i in Plan(EarlyRun, threshold.Cells()) <==> i > 0 { InRange(i, 1, 5); }
      WrittenAs(EarlyRun, Cells(), threshold.Cells(), ReplacedBy(threshold).Cells());
    }

    lemma AcceptsMeans(threshold: EarlyRunRecord)
      ensures Accepts(EarlyRun, Cells(), threshold.Cells()) <==> timeMills <= threshold.timeMills
    {}

    lemma Extends(threshold: EarlyRunRecord, start: Cells, accepted: seq<Cells>)
      requires HoldsFold(EarlyRun, Cells(), start, accepted) && Accepts(EarlyRun, Cells(), threshold.Cells())
      ensures HoldsFold(EarlyRun, ReplacedBy(threshold).Cells(), start, accepted + [threshold.Cells()])
    {
      ReplacedIsWritten(threshold);
      FoldExtends(EarlyRun, Cells(), start, accepted, threshold.Cells());
    }

    /** The slot shows its last accepted threshold in every field, under the name it started with. */
    lemma RepeatsLast(w: EarlyRunRecord, start: Cells, accepted: seq<Cells>)
      requires HoldsFold(EarlyRun, Cells(), start, accepted) && accepted != [] && accepted[|accepted| - 1] == w.Cells()
      ensures avgMedian == w.avgMedian && bidAskMedian == w.bidAskMedian && askBidMedian == w.askBidMedian
      ensures timeMills == w.timeMills && Text(asset) == start[0]
    {
      forall i: nat | 0 < i < 5 ensures Cells()[i] == w.Cells()[i] {
        ThresholdSlotIsLastWrite(EarlyRun, start, accepted, i);
      }
      ThresholdSlotIsLastWrite(EarlyRun, start, accepted, 0);
      assert Cells()[1] == w.Cells()[1] && Cells()[2] == w.Cells()[2] && Cells()[3] == w.Cells()[3];
      assert Cells()[4] == w.Cells()[4];
    }
  }

  class EarlyRunThresholdShm {
    var asset: string
    var avgMedian: real
    var bidAskMedian: real
    var askBidMedian: real
    var timeMills: int
    var versionNumber: int
    ghost var start: Cells
    ghost var accepted: seq<Cells>

    function Value(): EarlyRunRecord
      reads this
    {
      EarlyRunRecord(asset, avgMedian, bidAskMedian, askBidMedian, timeMills, versionNumber)
    }

    ghost predicate Valid()
      reads this
    {
      HoldsFold(EarlyRun, Value().Cells(), start, accepted)
    }

    constructor (asset: string)
      ensures Valid() && accepted == [] && start == Value().Cells() && Version(EarlyRun, start) == 0 &&
              Time(EarlyRun, start) == 0
    {
      this.asset := asset;
      avgMedian, bidAskMedian, askBidMedian, timeMills, versionNumber := 0.0, 0.0, 0.0, 0, 0;
      accepted := [];
      new;
      start := Value().Cells();
    }

    method Overwrite(threshold: EarlyRunRecord)
      modifies this
      ensures Value() == old(Value()).ReplacedBy(threshold) && start == old(start) && accepted == old(accepted)
    {
      avgMedian := threshold.avgMedian;
      bidAskMedian := threshold.bidAskMedian;
      askBidMedian := threshold.askBidMedian;
      timeMills := threshold.timeMills;
      versionNumber := versionNumber + 1;
    }

    method WriterUpdate(threshold: EarlyRunRecord) returns (result: int)
      requires Valid()
      modifies this
      ensures Valid() && start == old(start)
      ensures var accepts := old(timeMills) <= threshold.timeMills;
              && accepted == (if accepts then old(accepted) + [threshold.Cells()] else old(accepted))
              && result == if accepts then 1 else 0
    {
      result := 0;
      Value().AcceptsMeans(threshold);
      if timeMills <= threshold.timeMills {
        Value().Extends(threshold, start, accepted);
        Overwrite(threshold);
        accepted := accepted + [threshold.Cells()];
        result := 1;
      }
    }

    method ReaderGet() returns (copy: EarlyRunRecord)
      requires Valid()
      ensures copy.Cells() == Stored(EarlyRun, start, accepted) &&
              copy.versionNumber == Version(EarlyRun, start) + |accepted|
      ensures forall w: EarlyRunRecord :: accepted != [] && accepted[|accepted| - 1] == w.Cells() ==>
                && copy.avgMedian == w.avgMedian && copy.bidAskMedian == w.bidAskMedian
                && copy.askBidMedian == w.askBidMedian && copy.timeMills == w.timeMills && Text(copy.asset) == start[0]
    {
      copy := EarlyRunRecord(asset, avgMedian, bidAskMedian, askBidMedian, timeMills, versionNumber);
      forall w: EarlyRunRecord | accepted != [] && accepted[|accepted| - 1] == w.Cells()
        ensures copy.avgMedian == w.avgMedian && copy.bidAskMedian == w.bidAskMedian
        ensures copy.askBidMedian == w.askBidMedian && copy.timeMills == w.timeMills && Text(copy.asset) == start[0]
      {
        copy.RepeatsLast(w, start, accepted);
      }
    }
  }

  datatype BetaSide = BetaSide(sma: real, volatility: real, multiplier: real, threshold: real)

  datatype BetaRecord = BetaRecord(
    asset: string, avg: BetaSide, bid: BetaSide, ask: BetaSide, timeMills: int, versionNumber: int)
  {
    function Cells(): Cells {
      [Text(asset),
       Num(avg.sma), Num(avg.volatility), Num(avg.multiplier), Num(avg.threshold),
       Num(bid.sma), Num(bid.volatility), Num(bid.multiplier), Num(bid.threshold),
       Num(ask.sma), Num(ask.volatility), Num(ask.multiplier), Num(ask.threshold),
       Long(timeMills), Long(versionNumber)]
    }

    function ReplacedBy(threshold: BetaRecord): BetaRecord {
      threshold.(asset := asset, versionNumber := versionNumber + 1)
    }

    lemma ReplacedIsWritten(threshold: BetaRecord)
      ensures ReplacedBy(threshold).Cells() == Written(Beta, Cells(), threshold.Cells())
    {
      forall i: nat | i < 14 ensures i in Plan(Beta, threshold.Cells()) <==> i > 0 { InRange(i, 1, 14); }
      WrittenAs(Beta, Cells(), threshold.Cells(), ReplacedBy(threshold).Cells());
    }

    lemma AcceptsMeans(threshold: BetaRecord)
      ensures Accepts(Beta, Cells(), threshold.Cells()) <==> timeMills <= threshold.timeMills
    {}

    lemma Extends(threshold: BetaRecord, start: Cells, accepted: seq<Cells>)
      requires HoldsFold(Beta, Cells(), start, accepted) && Accepts(Beta, Cells(), threshold.Cells())
      ensures HoldsFold(Beta, ReplacedBy(threshold).Cells(), start, accepted + [threshold.Cells()])
    {
      ReplacedIsWritten(threshold);
      FoldExtends(Beta, Cells(), start, accepted, threshold.Cells());
    }

    /** The slot shows its last accepted thresholds for all three prices, under the name it started with. */
    lemma RepeatsLast(w: BetaRecord, start: Cells, accepted: seq<Cells>)
      requires HoldsFold(Beta, Cells(), start, accepted) && accepted != [] && accepted[|accepted| - 1] == w.Cells()
      ensures avg == w.avg && bid == w.bid && ask == w.ask && timeMills == w.timeMills && Text(asset) == start[0]
    {
      forall i: nat | 0 < i < 14 ensures Cells()[i] == w.Cells()[i] {
        ThresholdSlotIsLastWrite(Beta, start, accepted, i);
      }
      ThresholdSlotIsLastWrite(Beta, start, accepted, 0);
      assert Cells()[1] == w.Cells()[1] && Cells()[2] == w.Cells()[2] && Cells()[3] == w.Cells()[3];
      assert Cells()[4] == w.Cells()[4] && Cells()[5] == w.Cells()[5] && Cells()[6] == w.Cells()[6];
      assert Cells()[7] == w.Cells()[7] && Cells()[8] == w.Cells()[8] && Cells()[9] == w.Cells()[9];
      assert Cells()[10] == w.Cells()[10] && Cells()[11] == w.Cells()[11] && Cells()[12] == w.Cells()[12];
      assert Cells()[13] == w.Cells()[13];
    }
  }

  class BetaThresholdShm {
    var asset: string
    var avg: BetaSide
    var bid: BetaSide
    var ask: BetaSide
    var timeMills: int
    var versionNumber: int
    ghost var start: Cells
    ghost var accepted: seq<Cells>

    function Value(): BetaRecord
      reads this
    {
      BetaRecord(asset, avg, bid, ask, timeMills, versionNumber)
    }

    ghost predicate Valid()
      reads this
    {
      HoldsFold(Beta, Value().Cells(), start, accepted)
    }

    constructor (asset: string)
      ensures Valid() && accepted == [] && start == Value().Cells() && Version(Beta, start) == 0 &&
              Time(Beta, start) == 0
    {
      this.asset := asset;
      avg, bid, ask := BetaSide(0.0, 0.0, 0.0, 0.0), BetaSide(0.0, 0.0, 0.0, 0.0), BetaSide(0.0, 0.0, 0.0, 0.0);
      timeMills, versionNumber := 0, 0;
      accepted := [];
      new;
      start := Value().Cells();
    }

    method Overwrite(threshold: BetaRecord)
      modifies this
      ensures Value() == old(Value()).ReplacedBy(threshold) && start == old(start) && accepted == old(accepted)
    {
      avg := threshold.avg;
      bid := threshold.bid;
      ask := threshold.ask;
      timeMills := threshold.timeMills;
      versionNumber := versionNumber + 1;
    }

    method WriterUpdate(threshold: BetaRecord) returns (result: int)
      requires Valid()
      modifies this
      ensures Valid() && start == old(start)
      ensures var accepts := old(timeMills) <= threshold.timeMills;
              && accepted == (if accepts then old(accepted) + [threshold.Cells()] else old(accepted))
              && result == if accepts then 1 else 0
    {
      result := 0;
      Value().AcceptsMeans(threshold);
      if timeMills <= threshold.timeMills {
        Value().Extends(threshold, start, accepted);
        Overwrite(threshold);
        accepted := accepted + [threshold.Cells()];
        result := 1;
      }
    }

    method ReaderGet() returns (copy: BetaRecord)
      requires Valid()
      ensures copy.Cells() == Stored(Beta, start, accepted) && copy.versionNumber == Version(Beta, start) + |accepted|
      ensures forall w: BetaRecord :: accepted != [] && accepted[|accepted| - 1] == w.Cells() ==>
                && copy.avg == w.avg && copy.bid == w.bid && copy.ask == w.ask
                && copy.timeMills == w.timeMills && Text(copy.asset) == start[0]
    {
      copy := BetaRecord(asset, avg, bid, ask, timeMills, versionNumber);
      forall w: BetaRecord | accepted != [] && accepted[|accepted| - 1] == w.Cells()
        ensures copy.avg == w.avg && copy.bid == w.bid && copy.ask == w.ask
        ensures copy.timeMills == w.timeMills && Text(copy.asset) == start[0]
      {
        copy.RepeatsLast(w, start, accepted);
      }
    }
  }

  datatype TickerRecord = TickerRecord(
    instId: string, bidPrice: real, bidSize: real, askPrice: real, askSize: real, updateId: int, updateTime: int,
    versionNumber: int)
  {
    function Cells(): Cells {
      [Text(instId), Num(bidPrice), Num(bidSize), Num(askPrice), Num(askSize), Long(updateId), Long(updateTime),
       Long(versionNumber)]
    }

    function ReplacedBy(ticker: TickerRecord): TickerRecord {
      var bid := ticker.bidPrice > 0.0 && ticker.bidSize > 0.0;
      var ask := ticker.askPrice > 0.0 && ticker.askSize > 0.0;
      TickerRecord(instId, if bid then ticker.bidPrice else bidPrice, if bid then ticker.bidSize else bidSize,
                   if ask then ticker.askPrice else askPrice, if ask then ticker.askSize else askSize,
                   ticker.updateId, ticker.updateTime, versionNumber + 1)
    }

    lemma ReplacedIsWritten(ticker: TickerRecord)
      ensures ReplacedBy(ticker).Cells() == Written(Ticker, Cells(), ticker.Cells())
    {
      TickerPlan(ticker.Cells());
      WrittenAs(Ticker, Cells(), ticker.Cells(), ReplacedBy(ticker).Cells());
    }

    lemma AcceptsMeans(ticker: TickerRecord)
      ensures Accepts(Ticker, Cells(), ticker.Cells()) <==> updateId < ticker.updateId || updateTime < ticker.updateTime
    {}

    lemma Extends(ticker: TickerRecord, start: Cells, accepted: seq<Cells>)
      requires HoldsFold(Ticker, Cells(), start, accepted) && Accepts(Ticker, Cells(), ticker.Cells())
      ensures HoldsFold(Ticker, ReplacedBy(ticker).Cells(), start, accepted + [ticker.Cells()])
    {
      ReplacedIsWritten(ticker);
      FoldExtends(Ticker, Cells(), start, accepted, ticker.Cells());
    }

    /** The slot shows id and time of its last accepted ticker, and its bid and ask pairs where positive. */
    lemma RepeatsLast(w: TickerRecord, start: Cells, accepted: seq<Cells>)
      requires HoldsFold(Ticker, Cells(), start, accepted) && accepted != [] && accepted[|accepted| - 1] == w.Cells()
      ensures updateId == w.updateId && updateTime == w.updateTime && Text(instId) == start[0]
      ensures w.bidPrice > 0.0 && w.bidSize > 0.0 ==> bidPrice == w.bidPrice && bidSize == w.bidSize
      ensures w.askPrice > 0.0 && w.askSize > 0.0 ==> askPrice == w.askPrice && askSize == w.askSize
    {
      TickerKeepsIdAndTime(start, accepted);
      forall i: nat | 1 <= i <= 4 && LastPositivePair(accepted, if i <= 2 then 1 else 3) == |accepted| - 1
        ensures Cells()[i] == w.Cells()[i]
      {
        TickerKeepsLastPositive(start, accepted, if i <= 2 then 1 else 3, i);
      }
      assert Cells()[5] == w.Cells()[5] && Cells()[6] == w.Cells()[6] && Cells()[0] == start[0];
      assert w.bidPrice > 0.0 && w.bidSize > 0.0 ==> Cells()[1] == w.Cells()[1] && Cells()[2] == w.Cells()[2];
      assert w.askPrice > 0.0 && w.askSize > 0.0 ==> Cells()[3] == w.Cells()[3] && Cells()[4] == w.Cells()[4];
    }
  }

  class TickerInfoShm {
    var instId: string
    var bidPrice: real
    var bidSize: real
    var askPrice: real
    var askSize: real
    var updateId: int
    var updateTime: int
    var versionNumber: int
    ghost var start: Cells
    ghost var accepted: seq<Cells>

    function Value(): TickerRecord
      reads this
    {
      TickerRecord(instId, bidPrice, bidSize, askPrice, askSize, updateId, updateTime, versionNumber)
    }

    ghost predicate Valid()
      reads this
    {
      HoldsFold(Ticker, Value().Cells(), start, accepted)
    }

    constructor (instId: string)
      ensures Valid() && accepted == [] && start == Value().Cells() && Version(Ticker, start) == 0 &&
              Time(Ticker, start) == 0
    {
      this.instId := instId;
      bidPrice, bidSize, askPrice, askSize, updateId, updateTime, versionNumber := 0.0, 0.0, 0.0, 0.0, 0, 0, 0;
      accepted := [];
      new;
      start := Value().Cells();
    }

    method Overwrite(ticker: TickerRecord)
      modifies this
      ensures Value() == old(Value()).ReplacedBy(ticker) && start == old(start) && accepted == old(accepted)
    {
      if ticker.bidPrice > 0.0 && ticker.bidSize > 0.0 {
        bidPrice := ticker.bidPrice;
        bidSize := ticker.bidSize;
      }
      if ticker.askPrice > 0.0 && ticker.askSize > 0.0 {
        askPrice := ticker.askPrice;
        askSize := ticker.askSize;
      }
      updateId := ticker.updateId;
      updateTime := ticker.updateTime;
      versionNumber := versionNumber + 1;
    }

    method WriterUpdate(ticker: TickerRecord) returns (result: int)
      requires Valid()
      modifies this
      ensures Valid() && start == old(start)
      ensures var accepts := old(updateId) < ticker.updateId || old(updateTime) < ticker.updateTime;
              && accepted == (if accepts then old(accepted) + [ticker.Cells()] else old(accepted))
              && result == if accepts && old(updateId) > 0 && old(updateTime) > 0 then 1 else 0
    {
      result := 0;
      var histId, histTime := updateId, updateTime;
      Value().AcceptsMeans(ticker);
      if histId < ticker.updateId || histTime < ticker.updateTime {
        Value().Extends(ticker, start, accepted);
        Overwrite(ticker);
        accepted := accepted + [ticker.Cells()];
        if histId > 0 && histTime > 0 {
          result := 1;
        }
      }
    }

    method ReaderGet() returns (copy: TickerRecord)
      requires Valid()
      ensures copy.Cells() == Stored(Ticker, start, accepted) &&
              copy.versionNumber == Version(Ticker, start) + |accepted|
      ensures forall w: TickerRecord :: accepted != [] && accepted[|accepted| - 1] == w.Cells() ==>
                && copy.updateId == w.updateId && copy.updateTime == w.updateTime && Text(copy.instId) == start[0]
                && (w.bidPrice > 0.0 && w.bidSize > 0.0 ==> copy.bidPrice == w.bidPrice && copy.bidSize == w.bidSize)
                && (w.askPrice > 0.0 && w.askSize > 0.0 ==> copy.askPrice == w.askPrice && copy.askSize == w.askSize)
    {
      copy := TickerRecord(instId, bidPrice, bidSize, askPrice, askSize, updateId, updateTime, versionNumber);
      forall w: TickerRecord | accepted != [] && accepted[|accepted| - 1] == w.Cells()
        ensures copy.updateId == w.updateId && copy.updateTime == w.updateTime && Text(copy.instId) == start[0]
        ensures (w.bidPrice > 0.0 && w.bidSize > 0.0 ==> copy.bidPrice == w.bidPrice && copy.bidSize == w.bidSize)
        ensures (w.askPrice > 0.0 && w.askSize > 0.0 ==> copy.askPrice == w.askPrice && copy.askSize == w.askSize)
      {
        copy.RepeatsLast(w, start, accepted);
      }
    }
  }

  lemma TickerPlan(w: Cells)
    ensures 0 !in Plan(Ticker, w) && 5 in Plan(Ticker, w) && 6 in Plan(Ticker, w)
    ensures forall i: nat :: (i == 1 || i == 2) ==> (i in Plan(Ticker, w) <==> PositiveAt(w, 1) && PositiveAt(w, 2))
    ensures forall i: nat :: (i == 3 || i == 4) ==> (i in Plan(Ticker, w) <==> PositiveAt(w, 3) && PositiveAt(w, 4))
  {
    PlanHasPair(w, 1, 1);
    PlanHasPair(w, 1, 2);
    PlanHasPair(w, 3, 3);
    PlanHasPair(w, 3, 4);
    var n := |Plan(Ticker, w)|;
    assert Plan(Ticker, w)[n - 2] == 5 && Plan(Ticker, w)[n - 1] == 6;
  }
}

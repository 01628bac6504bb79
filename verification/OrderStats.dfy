/** Per-order statistics: the order map (src/evaluator/order_container.cpp) and the polling loop that records the price
    and profit at fixed horizons after each order (src/evaluator/order_stat_manager.cpp). */
module OrderStats {
  import opened Decimal
  import opened Options

  const HORIZONS: seq<nat> := [1, 5, 10, 20, 30, 40, 50, 60, 120, 180, 900, 1800, 3600]

  datatype Info = Info(
    isBuy: bool, averagePrice: real, filledSize: real, commissionRate: real, timestamp: nat,
    prices: seq<real>, pnls: seq<real>)

  datatype Lite = Lite(isBuy: bool, averagePrice: real, filledSize: real, commissionRate: real, timestamp: nat)

  datatype Quote = Quote(ask: real, bid: real)

  const ZEROS: seq<real> := [0.0, 0.0, 0.0, 0.0, 0.0, 0.0, 0.0, 0.0, 0.0, 0.0, 0.0, 0.0, 0.0]

  function FromLite(lite: Lite): Info {
    Info(lite.isBuy, lite.averagePrice, lite.filledSize, lite.commissionRate, lite.timestamp, ZEROS, ZEROS)
  }

  function WithLite(orders: map<string, Info>, id: string, lite: Lite): map<string, Info> {
    orders[id := if id in orders then orders[id].(filledSize := lite.filledSize, averagePrice := lite.averagePrice)
           else FromLite(lite)]
  }

  predicate TooOld(info: Info, now: nat, seconds: nat) {
    now > info.timestamp + seconds
  }

  function WithFull(orders: map<string, Info>, id: string, info: Info, now: nat): map<string, Info> {
    if TooOld(info, now, 3600) then orders else orders[id := info]
  }

  function CurrentPrice(info: Info, quote: Quote): real {
    if info.isBuy then quote.ask else quote.bid
  }

  function Pnl(info: Info, price: real): real
    requires info.averagePrice != 0.0
  {
    var gain := (price - info.averagePrice) / info.averagePrice;
    DecimalProcess((if info.isBuy then gain else -gain) - info.commissionRate, 5)
  }

  // With an average price of zero the source divides by zero; whatever that leaves is an input here.
  function Profit(info: Info, price: real, undefined: real): real {
    if info.averagePrice == 0.0 then undefined else Pnl(info, price)
  }

  predicate Due(info: Info, elapsed: nat, i: nat)
    requires i < |HORIZONS| && |info.prices| == |HORIZONS|
  {
    elapsed >= HORIZONS[i] && info.prices[i] == 0.0
  }

  /** Every horizon that has passed and is not yet recorded gets the price and profit at hand. */
  function Filled(info: Info, elapsed: nat, price: real, pnl: real): (r: Info)
    requires |info.prices| == |info.pnls| == |HORIZONS|
    ensures |r.prices| == |r.pnls| == |HORIZONS|
  {
    info.(prices := seq(|HORIZONS|, i requires 0 <= i < |HORIZONS| =>
                          if Due(info, elapsed, i) then price else info.prices[i]),
          pnls := seq(|HORIZONS|, i requires 0 <= i < |HORIZONS| =>
                        if Due(info, elapsed, i) then pnl else info.pnls[i]))
  }

  predicate AnyDue(info: Info, elapsed: nat)
    requires |info.prices| == |HORIZONS|
  {
    exists i: nat :: i < |HORIZONS| && Due(info, elapsed, i)
  }

  method FillHorizons(info: Info, elapsed: nat, price: real, pnl: real) returns (filled: Info, changed: bool)
    requires |info.prices| == |info.pnls| == |HORIZONS|
    ensures filled == Filled(info, elapsed, price, pnl)
    ensures changed == AnyDue(info, elapsed)
  {
    var prices, pnls := info.prices, info.pnls;
    changed := false;
    for i := 0 to |HORIZONS|
      invariant |prices| == |pnls| == |HORIZONS|
      invariant forall j :: 0 <= j < |HORIZONS| ==>
                prices[j] == if j < i && Due(info, elapsed, j) then price else info.prices[j]
      invariant forall j :: 0 <= j < |HORIZONS| ==>
                pnls[j] == if j < i && Due(info, elapsed, j) then pnl else info.pnls[j]
      invariant changed == exists j: nat :: j < i && Due(info, elapsed, j)
    {
      if elapsed >= HORIZONS[i] && prices[i] == 0.0 {
        assert Due(info, elapsed, i);
        prices := prices[i := price];
        pnls := pnls[i := pnl];
        changed := true;
      }
    }
    filled := info.(prices := prices, pnls := pnls);
    assert filled.prices == Filled(info, elapsed, price, pnl).prices;
    assert filled.pnls == Filled(info, elapsed, price, pnl).pnls;
  }

  class StatOrderFullInfoComposite {
    var orders: map<string, Info>

    constructor ()
      ensures orders == map[]
    {
      orders := map[];
    }

    method UpdateWithLite(id: string, lite: Lite)
      modifies this
      ensures orders == WithLite(old(orders), id, lite)
      ensures forall other :: other != id ==> (other in orders <==> other in old(orders))
      ensures forall other :: other in old(orders) && other != id ==> orders[other] == old(orders)[other]
      ensures id in orders && orders[id].filledSize == lite.filledSize && orders[id].averagePrice == lite.averagePrice
      ensures var before := if id in old(orders) then old(orders)[id] else
                Info(lite.isBuy, lite.averagePrice, lite.filledSize, lite.commissionRate, lite.timestamp, ZEROS, ZEROS);
              && orders[id].isBuy == before.isBuy && orders[id].commissionRate == before.commissionRate
              && orders[id].timestamp == before.timestamp
              && orders[id].prices == before.prices && orders[id].pnls == before.pnls
    {
      if id in orders {
        orders := orders[id := orders[id].(filledSize := lite.filledSize, averagePrice := lite.averagePrice)];
      } else {
        orders := orders[id := FromLite(lite)];
      }
    }

    method UpdateWithFullInfo(id: string, info: Info, now: nat) returns (updated: bool)
      modifies this
      ensures updated == !TooOld(info, now, 3600)
      ensures orders == WithFull(old(orders), id, info, now)
    {
      if now > info.timestamp + 3600 {
        return false;
      }
      orders := orders[id := info];
      return true;
    }

    method RemoveExpiredStatOrder(now: nat) returns (before: nat, after: nat)
      modifies this
      ensures orders == map id | id in old(orders) && !TooOld(old(orders)[id], now, 3610) :: old(orders)[id]
      ensures before == |old(orders)| && after == |orders|
    {
      before := |orders|;
      var expired := set id | id in orders && now > orders[id].timestamp + 3600 + 10;
      orders := orders - expired;
      after := |orders|;
    }
  }

  // ----- the polling thread and the lite updates, each lock section one step

  /** Resting, working through the copy taken at the start, or about to erase the ids found too old. */
  datatype Phase = Resting | Polling(now: nat, pending: map<string, Info>) | Erasing(ids: set<string>)

  datatype State = State(orders: map<string, Info>, phase: Phase)

  datatype Step =
    | LiteArrives(id: string, lite: Lite)
    | CopyAll(now: nat)
    | PollOne(id: string, quote: Option<Quote>, now: nat, undefined: real)
    | FindExpired(now: nat)
    | Erase

  predicate Sized(info: Info) {
    |info.prices| == |info.pnls| == |HORIZONS|
  }

  predicate Enabled(s: State, step: Step) {
    match step
    case LiteArrives(_, _) => true
    case CopyAll(_) => s.phase.Resting?
    case PollOne(id, _, _, _) => s.phase.Polling? && id in s.phase.pending && Sized(s.phase.pending[id])
    case FindExpired(_) => s.phase.Polling? && s.phase.pending == map[]
    case Erase => s.phase.Erasing?
  }

  // Whether a copied order gets something recorded, and with what.
  predicate Records(info: Info, quote: Option<Quote>, pollNow: nat)
    requires Sized(info)
  {
    pollNow > info.timestamp && quote.Some? && AnyDue(info, pollNow - info.timestamp)
  }

  function Recorded(info: Info, quote: Quote, pollNow: nat, undefined: real): Info
    requires Sized(info) && pollNow > info.timestamp
  {
    var price := CurrentPrice(info, quote);
    Filled(info, pollNow - info.timestamp, price, Profit(info, price, undefined))
  }

  function Do(s: State, step: Step): State
    requires Enabled(s, step)
  {
    match step
    case LiteArrives(id, lite) => s.(orders := WithLite(s.orders, id, lite))
    case CopyAll(now) => s.(phase := Polling(now, s.orders))
    case PollOne(id, quote, now, undefined) =>
      var info := s.phase.pending[id];
      var rest := s.(phase := s.phase.(pending := s.phase.pending - {id}));
      if Records(info, quote, s.phase.now)
      then rest.(orders := WithFull(s.orders, id, Recorded(info, quote.value, s.phase.now, undefined), now))
      else rest
    case FindExpired(now) => s.(phase := Erasing(set id | id in s.orders && TooOld(s.orders[id], now, 3610)))
    case Erase => State(s.orders - s.phase.ids, Resting)
  }

  // ----- invariant

  ghost predicate FilledUpTo(info: Info, n: nat)
    requires Sized(info)
  {
    n <= |HORIZONS| && forall i: nat :: i < |HORIZONS| ==> (info.prices[i] != 0.0 <==> i < n)
  }

  /** The horizons recorded so far are a prefix of the list. */
  ghost predicate Prefix(info: Info) {
    Sized(info) && exists n: nat :: FilledUpTo(info, n)
  }

  // The copy being polled still agrees with the map on everything the polling thread owns.
  predicate SameRecords(a: Info, b: Info) {
    a.prices == b.prices && a.pnls == b.pnls && a.timestamp == b.timestamp
  }

  ghost predicate Inv(s: State) {
    && (forall id :: id in s.orders ==> Prefix(s.orders[id]))
    && (s.phase.Polling? ==> forall id :: id in s.phase.pending ==>
          id in s.orders && SameRecords(s.phase.pending[id], s.orders[id]))
  }

  lemma HorizonsIncrease(i: nat, j: nat)
    requires i <= j < |HORIZONS|
    ensures HORIZONS[i] <= HORIZONS[j]
  {}

  lemma {:induction false} DueUpTo(elapsed: nat, n: nat) returns (d: nat)
    requires n <= |HORIZONS|
    ensures d <= n && forall i: nat :: i < n ==> (elapsed >= HORIZONS[i] <==> i < d)
  {
    if n == 0 {
      d := 0;
    } else if elapsed >= HORIZONS[n - 1] {
      d := n;
      forall i: nat | i < n ensures elapsed >= HORIZONS[i] { HorizonsIncrease(i, n - 1); }
    } else {
      d := DueUpTo(elapsed, n - 1);
    }
  }

  /** Recording extends the prefix and touches nothing that was recorded. */
  lemma FilledKeepsPrefix(info: Info, elapsed: nat, price: real, pnl: real)
    requires Prefix(info)
    ensures Prefix(Filled(info, elapsed, price, pnl))
    ensures forall i: nat :: i < |HORIZONS| && info.prices[i] != 0.0 ==>
              Filled(info, elapsed, price, pnl).prices[i] == info.prices[i] &&
                Filled(info, elapsed, price, pnl).pnls[i] == info.pnls[i]
  {
    var n: nat :| FilledUpTo(info, n);
    var d := DueUpTo(elapsed, |HORIZONS|);
    var filled := Filled(info, elapsed, price, pnl);
    if price == 0.0 {
      assert FilledUpTo(filled, n);
    } else {
      assert FilledUpTo(filled, if n < d then d else n);
    }
  }

  lemma FreshPrefix(lite: Lite)
    ensures Prefix(FromLite(lite))
  {
    assert FilledUpTo(FromLite(lite), 0);
  }

  lemma LiteKeepsPrefix(info: Info, filledSize: real, averagePrice: real)
    requires Prefix(info)
    ensures Prefix(info.(filledSize := filledSize, averagePrice := averagePrice))
  {
    var n: nat :| FilledUpTo(info, n);
    assert FilledUpTo(info.(filledSize := filledSize, averagePrice := averagePrice), n);
  }

  lemma SamePrefix(a: Info, b: Info)
    requires Prefix(a) && SameRecords(a, b)
    ensures Prefix(b)
  {
    var n: nat :| FilledUpTo(a, n);
    assert FilledUpTo(b, n);
  }

  // What was recorded stays as it is.
  predicate Keeps(a: Info, b: Info)
    requires Sized(a) && Sized(b)
  {
    forall i: nat :: i < |HORIZONS| && a.prices[i] != 0.0 ==> b.prices[i] == a.prices[i] && b.pnls[i] == a.pnls[i]
  }

  lemma StepKeepsInv(s: State, step: Step)
    requires Inv(s) && Enabled(s, step)
    ensures Inv(Do(s, step))
    ensures forall id :: id in s.orders && id in Do(s, step).orders ==> Keeps(s.orders[id], Do(s, step).orders[id])
  {
    match step
    case LiteArrives(id, lite) =>
      FreshPrefix(lite);
      if id in s.orders {
        LiteKeepsPrefix(s.orders[id], lite.filledSize, lite.averagePrice);
      }
    case PollOne(id, quote, now, undefined) =>
      var info := s.phase.pending[id];
      if Records(info, quote, s.phase.now) {
        var price := CurrentPrice(info, quote.value);
        SamePrefix(s.orders[id], info);
        FilledKeepsPrefix(info, s.phase.now - info.timestamp, price, Profit(info, price, undefined));
      }
    case _ =>
  }

  ghost predicate IsRun(states: seq<State>, steps: seq<Step>) {
    && |states| == |steps| + 1
    && states[0].phase == Resting && (forall id :: id in states[0].orders ==> Prefix(states[0].orders[id]))
    && forall k :: 0 <= k < |steps| ==> Enabled(states[k], steps[k]) && states[k + 1] == Do(states[k], steps[k])
  }

  lemma {:induction false} RunInv(states: seq<State>, steps: seq<Step>, k: nat)
    requires IsRun(states, steps) && k < |states|
    ensures Inv(states[k])
  {
    if k > 0 {
      RunInv(states, steps, k - 1);
      StepKeepsInv(states[k - 1], steps[k - 1]);
    }
  }

  /** In every run the recorded horizons of each order form a prefix of the horizon list. */
  lemma RecordedArePrefix(states: seq<State>, steps: seq<Step>, k: nat, id: string)
    requires IsRun(states, steps) && k < |states| && id in states[k].orders
    ensures Prefix(states[k].orders[id])
  {
    RunInv(states, steps, k);
  }

  /** A recorded price and its profit never change while the entry lives, whatever lite updates arrive. */
  lemma {:induction false} RecordsAreWriteOnce(states: seq<State>, steps: seq<Step>, j: nat, k: nat, id: string, i: nat)
    requires IsRun(states, steps) && j <= k < |states| && i < |HORIZONS|
    requires forall n :: j <= n <= k ==> id in states[n].orders
    requires Sized(states[j].orders[id]) && states[j].orders[id].prices[i] != 0.0
    ensures Sized(states[k].orders[id])
    ensures states[k].orders[id].prices[i] == states[j].orders[id].prices[i]
    ensures states[k].orders[id].pnls[i] == states[j].orders[id].pnls[i]
  {
    RunInv(states, steps, k);
    if j < k {
      RecordsAreWriteOnce(states, steps, j, k - 1, id, i);
      RunInv(states, steps, k - 1);
      StepKeepsInv(states[k - 1], steps[k - 1]);
      assert Keeps(states[k - 1].orders[id], states[k].orders[id]);
    }
  }

  // This poll found the horizon passed and empty, and recorded the price and profit of its quote.
  predicate RecordedBy(s: State, step: Step, i: nat, price: real, pnl: real)
    requires i < |HORIZONS|
  {
    && step.PollOne? && step.quote.Some? && s.phase.Polling? && step.id in s.phase.pending
    && var info := s.phase.pending[step.id];
       && s.phase.now >= info.timestamp + HORIZONS[i] && Sized(info) && info.prices[i] == 0.0
       && price == (if info.isBuy then step.quote.value.ask else step.quote.value.bid)
       && (info.averagePrice != 0.0 ==> pnl == Pnl(info, price))
  }

  // The record of a horizon stood unchanged from state n on.
  predicate StoodSince(states: seq<State>, n: nat, k: nat, id: string, i: nat)
    requires n <= k < |states| && i < |HORIZONS| && id in states[k].orders && Sized(states[k].orders[id])
  {
    forall m :: n <= m <= k ==>
      && id in states[m].orders && Sized(states[m].orders[id])
      && states[m].orders[id].prices[i] == states[k].orders[id].prices[i]
      && states[m].orders[id].pnls[i] == states[k].orders[id].pnls[i]
  }

  /** Every price and profit on record was put there by a poll that found its horizon passed and empty, and has stood in
      the same entry since: none is recorded early, and none comes from anything but that poll's quote. */
  lemma {:induction false} RecordedByPoll(states: seq<State>, steps: seq<Step>, k: nat, id: string, i: nat)
    returns (n: nat)
    requires IsRun(states, steps) && states[0].orders == map[] && k < |states| && i < |HORIZONS|
    requires id in states[k].orders && Sized(states[k].orders[id]) && states[k].orders[id].prices[i] != 0.0
    ensures n < k && steps[n].PollOne? && steps[n].id == id
    ensures RecordedBy(states[n], steps[n], i, states[k].orders[id].prices[i], states[k].orders[id].pnls[i])
    ensures StoodSince(states, n + 1, k, id, i)
  {
    LastRecord(states, steps, k, id, i);
    if RecordsFor(states[k - 1], steps[k - 1], id, i, states[k].orders[id]) {
      n := k - 1;
    } else {
      n := RecordedByPoll(states, steps, k - 1, id, i);
    }
  }

  lemma LastRecord(states: seq<State>, steps: seq<Step>, k: nat, id: string, i: nat)
    requires IsRun(states, steps) && states[0].orders == map[] && k < |states| && i < |HORIZONS|
    requires id in states[k].orders && Sized(states[k].orders[id]) && states[k].orders[id].prices[i] != 0.0
    ensures k > 0
    ensures var s, after := states[k - 1], states[k].orders[id];
            || RecordsFor(s, steps[k - 1], id, i, after)
            || (id in s.orders && Sized(s.orders[id]) && after.prices[i] == s.orders[id].prices[i] &&
                after.pnls[i] == s.orders[id].pnls[i])
  {
    RunInv(states, steps, k - 1);
  }

  predicate RecordsFor(s: State, step: Step, id: string, i: nat, after: Info)
    requires i < |HORIZONS| && Sized(after)
  {
    step.PollOne? && step.id == id && RecordedBy(s, step, i, after.prices[i], after.pnls[i])
  }

  /** And none is missed: a poll of an order that is not too old, with a quote, leaves on record every horizon that has
      passed, the empty ones with the price of its quote, and no other. */
  lemma PollRecordsPassed(states: seq<State>, steps: seq<Step>, k: nat, i: nat)
    requires IsRun(states, steps) && k < |steps| && steps[k].PollOne? && steps[k].quote.Some? && i < |HORIZONS|
    requires states[k].phase.Polling? && steps[k].id in states[k].phase.pending
    requires var info := states[k].phase.pending[steps[k].id];
             states[k].phase.now > info.timestamp && steps[k].now <= info.timestamp + 3600
    ensures var id, quote, s := steps[k].id, steps[k].quote.value, states[k];
            var info := s.phase.pending[id];
            && id in s.orders && id in states[k + 1].orders && Sized(s.orders[id]) && Sized(states[k + 1].orders[id])
            && states[k + 1].orders[id].prices[i] ==
               if s.phase.now >= info.timestamp + HORIZONS[i] && s.orders[id].prices[i] == 0.0
               then (if info.isBuy then quote.ask else quote.bid) else s.orders[id].prices[i]
  {
    RunInv(states, steps, k);
    PollWrites(states[k], steps[k], i);
  }

  lemma PollWrites(s: State, step: Step, i: nat)
    requires Inv(s) && Enabled(s, step) && step.PollOne? && step.quote.Some? && i < |HORIZONS|
    requires s.phase.now > s.phase.pending[step.id].timestamp && step.now <= s.phase.pending[step.id].timestamp + 3600
    ensures var info := s.phase.pending[step.id];
            && step.id in s.orders && step.id in Do(s, step).orders
            && Sized(s.orders[step.id]) && Sized(Do(s, step).orders[step.id])
            && Do(s, step).orders[step.id].prices[i] ==
               if s.phase.now >= info.timestamp + HORIZONS[i] && s.orders[step.id].prices[i] == 0.0
               then CurrentPrice(info, step.quote.value) else s.orders[step.id].prices[i]
  {
    var info := s.phase.pending[step.id];
    if !AnyDue(info, s.phase.now - info.timestamp) {
      assert !Due(info, s.phase.now - info.timestamp, i);
    }
  }

  /** The profit recorded is the relative move in the order's favour less commission, cut to five digits. */
  lemma PnlWithinOneUnit(info: Info, price: real)
    requires info.averagePrice != 0.0
    ensures var move := (price - info.averagePrice) / info.averagePrice;
            var exact := (if info.isBuy then move else -move) - info.commissionRate;
            exact - Unit(5) < Pnl(info, price) < exact + Unit(5)
  {
    var move := (price - info.averagePrice) / info.averagePrice;
    WithinOneUnit((if info.isBuy then move else -move) - info.commissionRate, 5);
  }

  // ----- what is erased

  /** Between finding the old orders and erasing them only lite updates come in, and no time stamp changes. */
  lemma {:induction false} ErasingTraced(states: seq<State>, steps: seq<Step>, k: nat) returns (j: nat)
    requires IsRun(states, steps) && k < |states| && states[k].phase.Erasing?
    ensures j < k && steps[j].FindExpired? && forall n :: j < n < k ==> steps[n].LiteArrives?
    ensures forall id :: id in states[k].phase.ids <==>
                         id in states[j].orders && steps[j].now > states[j].orders[id].timestamp + 3610
    ensures forall id :: id in states[j].orders ==>
                         id in states[k].orders && states[k].orders[id].timestamp == states[j].orders[id].timestamp
  {
    if steps[k - 1].FindExpired? {
      j := k - 1;
    } else {
      j := ErasingTraced(states, steps, k - 1);
    }
  }

  /** An order disappears if and only if it is erased, 3610 s old when last looked through; the others stay as they
      are. */
  lemma ErasedExactlyWhen(states: seq<State>, steps: seq<Step>, k: nat) returns (j: nat)
    requires IsRun(states, steps) && k < |steps|
    ensures !steps[k].Erase? ==> forall id :: id in states[k].orders ==> id in states[k + 1].orders
    ensures steps[k].Erase? ==>
              && j < k && steps[j].FindExpired? && (forall n :: j < n < k ==> steps[n].LiteArrives?)
              && (forall id :: id in states[k].orders ==>
                    (id !in states[k + 1].orders <==>
                       id in states[j].orders && steps[j].now > states[k].orders[id].timestamp + 3610))
              && forall id :: id in states[k + 1].orders ==>
                   id in states[k].orders && states[k + 1].orders[id] == states[k].orders[id]
  {
    j := 0;
    if steps[k].Erase? {
      j := ErasingTraced(states, steps, k);
    } else {
      RunInv(states, steps, k);
    }
  }

  // ----- lite updates that arrive during a poll

  /** The last lite update of an order in a stretch of steps, if any. */
  function LastLite(steps: seq<Step>, from: nat, to: nat, id: string): Option<Lite>
    requires from <= to <= |steps|
  {
    if from == to then None
    else
      match steps[to - 1]
      case LiteArrives(other, lite) => if other == id then Some(lite) else LastLite(steps, from, to - 1, id)
      case _ => LastLite(steps, from, to - 1, id)
  }

  // Fill and price of an order are those of the update, or of the order itself if there was none.
  predicate Reflects(info: Info, lite: Option<Lite>, before: Info) {
    && info.filledSize == (if lite.Some? then lite.value.filledSize else before.filledSize)
    && info.averagePrice == (if lite.Some? then lite.value.averagePrice else before.averagePrice)
  }

  /** An order still to be polled was copied whole, and its fill and price have since followed the lite updates. */
  lemma {:induction false} PendingTraced(states: seq<State>, steps: seq<Step>, k: nat, id: string) returns (j: nat)
    requires IsRun(states, steps) && k < |states|
    requires states[k].phase.Polling? && id in states[k].phase.pending
    ensures j < k && steps[j].CopyAll? && (forall n :: j < n < k ==> !steps[n].CopyAll?)
    ensures id in states[j].orders && states[k].phase.pending[id] == states[j].orders[id] && id in states[k].orders
    ensures Reflects(states[k].orders[id], LastLite(steps, j + 1, k, id), states[j].orders[id])
  {
    if steps[k - 1].CopyAll? {
      j := k - 1;
    } else {
      j := PendingTraced(states, steps, k - 1, id);
    }
  }

  predicate WritesBack(info: Info, quote: Option<Quote>, pollNow: nat, now: nat)
    requires Sized(info)
  {
    Records(info, quote, pollNow) && !TooOld(info, now, 3600)
  }

  /** In every run a poll undoes the fill or price an order has if and only if it writes the order back and the last
      lite update since the copy brought a fill or price that differs from the copied one. */
  lemma PollUndoesLiteExactlyWhen(states: seq<State>, steps: seq<Step>, k: nat) returns (j: nat)
    requires IsRun(states, steps) && k < |steps| && steps[k].PollOne?
    ensures j < k && steps[j].CopyAll? && (forall n :: j < n < k ==> !steps[n].CopyAll?)
    ensures var id := steps[k].id;
            && id in states[j].orders && id in states[k].orders && id in states[k + 1].orders &&
               Sized(states[j].orders[id])
            && var copied, lite := states[j].orders[id], LastLite(steps, j + 1, k, id);
               && states[k].phase.Polling?
               && (!Reflects(states[k + 1].orders[id], None, states[k].orders[id]) <==>
                     && WritesBack(copied, steps[k].quote, states[k].phase.now, steps[k].now)
                     && lite.Some?
                     && (lite.value.filledSize != copied.filledSize || lite.value.averagePrice != copied.averagePrice))
  {
    j := PendingTraced(states, steps, k, steps[k].id);
  }

  /** It happens: an order for 1 at 100 is copied, reported filled to 2 at 110, and polled back to 1 at 100. */
  lemma PollUndoesLite() returns (states: seq<State>, steps: seq<Step>)
    ensures IsRun(states, steps) && |steps| == 4 && steps[1].CopyAll? && steps[3].PollOne?
    ensures steps[2] == LiteArrives("o", Lite(true, 110.0, 2.0, 0.0, 0))
    ensures "o" in states[3].orders && states[3].orders["o"].filledSize == 2.0 &&
            states[3].orders["o"].averagePrice == 110.0
    ensures "o" in states[4].orders && states[4].orders["o"].filledSize == 1.0 &&
            states[4].orders["o"].averagePrice == 100.0
  {
    var first, second := Lite(true, 100.0, 1.0, 0.0, 0), Lite(true, 110.0, 2.0, 0.0, 0);
    var info := FromLite(first);
    steps := [LiteArrives("o", first), CopyAll(2), LiteArrives("o", second),
              PollOne("o", Some(Quote(105.0, 105.0)), 2, 0.0)];
    var s1 := State(map["o" := info], Resting);
    var s2 := State(map["o" := info], Polling(2, map["o" := info]));
    var s3 := State(map["o" := info.(filledSize := 2.0, averagePrice := 110.0)], Polling(2, map["o" := info]));
    assert s1 == Do(State(map[], Resting), steps[0]) && s2 == Do(s1, steps[1]) && s3 == Do(s2, steps[2]);
    var s4 := LastPoll(s3, steps[3], info);
    states := [State(map[], Resting), s1, s2, s3, s4];
  }

  lemma LastPoll(s: State, step: Step, info: Info) returns (t: State)
    requires s.phase == Polling(2, map["o" := info]) && "o" in s.orders && info.timestamp == 0
    requires info.prices == ZEROS && info.pnls == ZEROS && step.PollOne? && step.id == "o" && step.quote.Some? &&
             step.now == 2
    ensures Enabled(s, step) && t == Do(s, step) && "o" in t.orders && Reflects(t.orders["o"], None, info)
  {
    assert Due(info, 2, 0) && AnyDue(info, 2);
    t := Do(s, step);
  }
}

/** Stop reasons (src/actuary/dynamic_config.cpp) and the two watchdogs that raise and withdraw them
    (src/actuary/risk_control.cpp). */
module RiskControl {
  import opened Options

  datatype Reason = StaticConfig | AccountMeta | MarginLimited | Bnb | BnbShortage

  datatype Gate = Gate(stopReasons: set<Reason>, stopOrder: bool, stopOpenReasons: set<Reason>, stopOpenOrder: bool) {

    function Stop(r: Reason): Gate {
      this.(stopReasons := stopReasons + {r}, stopOrder := true)
    }

    function Resume(r: Reason): Gate {
      this.(stopReasons := stopReasons - {r}, stopOrder := stopOrder && stopReasons - {r} != {})
    }

    predicate StoppedFor(r: Reason) {
      stopOrder && r in stopReasons
    }

    function StopOpen(r: Reason): Gate {
      this.(stopOpenReasons := stopOpenReasons + {r}, stopOpenOrder := true)
    }

    function ResumeOpen(r: Reason): Gate {
      this.(stopOpenReasons := stopOpenReasons - {r}, stopOpenOrder := stopOpenOrder && stopOpenReasons - {r} != {})
    }

    predicate OpenStoppedFor(r: Reason) {
      stopOpenOrder && r in stopOpenReasons
    }

    predicate CouldMakeOrder() {
      !stopOrder
    }

    predicate CouldMakeOpenOrder() {
      !stopOpenOrder
    }
  }

  function Initial(stopMakeOrder: bool, closeOnly: bool): Gate {
    Gate(if stopMakeOrder then {StaticConfig} else {}, stopMakeOrder,
         if stopMakeOrder || closeOnly then {StaticConfig} else {}, stopMakeOrder || closeOnly)
  }

  class DynamicConfig {
    var stopReasons: set<Reason>
    var stopOrder: bool
    var stopOpenReasons: set<Reason>
    var stopOpenOrder: bool

    function Value(): Gate
      reads this
    {
      Gate(stopReasons, stopOrder, stopOpenReasons, stopOpenOrder)
    }

    constructor (stopMakeOrder: bool, closeOnly: bool)
      ensures Value() == Initial(stopMakeOrder, closeOnly)
    {
      stopReasons, stopOpenReasons := {}, {};
      if stopMakeOrder {
        stopReasons := {StaticConfig};
        stopOrder := true;
      } else {
        stopOrder := false;
      }
      if stopMakeOrder || closeOnly {
        stopOpenReasons := {StaticConfig};
        stopOpenOrder := true;
      } else {
        stopOpenOrder := false;
      }
    }

    method StopMakeOrder(r: Reason)
      modifies this
      ensures Value() == old(Value()).Stop(r)
    {
      stopReasons := stopReasons + {r};
      stopOrder := true;
    }

    method ResumeMakeOrder(r: Reason) returns (resumed: bool)
      modifies this
      ensures Value() == old(Value()).Resume(r)
      ensures resumed == !stopOrder
    {
      stopReasons := stopReasons - {r};
      if |stopReasons| == 0 {
        stopOrder := false;
      }
      resumed := !stopOrder;
    }

    method IsStopMakeOrderAsReason(r: Reason) returns (stopped: bool)
      ensures stopped == Value().StoppedFor(r)
    {
      if !stopOrder {
        return false;
      }
      stopped := |stopReasons| > 0 && r in stopReasons;
    }

    method StopMakeOpenOrder(r: Reason)
      modifies this
      ensures Value() == old(Value()).StopOpen(r)
    {
      stopOpenReasons := stopOpenReasons + {r};
      stopOpenOrder := true;
    }

    method ResumeMakeOpenOrder(r: Reason) returns (resumed: bool)
      modifies this
      ensures Value() == old(Value()).ResumeOpen(r)
      ensures resumed == !stopOpenOrder
    {
      stopOpenReasons := stopOpenReasons - {r};
      if |stopOpenReasons| == 0 {
        stopOpenOrder := false;
      }
      resumed := !stopOpenOrder;
    }

    method IsStopMakeOpenOrderAsReason(r: Reason) returns (stopped: bool)
      ensures stopped == Value().OpenStoppedFor(r)
    {
      if !stopOpenOrder {
        return false;
      }
      stopped := |stopOpenReasons| > 0 && r in stopOpenReasons;
    }
  }

  datatype Meta = Meta(totalInitialMargin: real, totalCrossWalletBalance: real, updated: nat)
  datatype Balance = Balance(crossWalletBalance: real, updated: nat)

  /** margin_ratio_thresholds and bnb_balance_thresholds. */
  datatype Limits = Limits(marginLow: real, marginHigh: real, bnbLow: real, bnbHigh: real)

  predicate Stale(updated: nat, now: nat) {
    updated + 300 * 1000 < now
  }

  function MarginUseRatio(meta: Meta): real {
    if meta.totalCrossWalletBalance <= 0.0 then 1.0 else meta.totalInitialMargin / meta.totalCrossWalletBalance
  }

  /** One round of watch_account_meta. */
  function MetaTick(g: Gate, limits: Limits, meta: Meta, now: nat): Gate {
    if Stale(meta.updated, now) then
      if g.StoppedFor(AccountMeta) then g else g.Stop(AccountMeta)
    else
      var g := if g.StoppedFor(AccountMeta) then g.Resume(AccountMeta) else g;
      var ratio := MarginUseRatio(meta);
      if ratio > limits.marginHigh then
        if g.OpenStoppedFor(MarginLimited) then g else g.StopOpen(MarginLimited)
      else if ratio < limits.marginLow && g.OpenStoppedFor(MarginLimited) then g.ResumeOpen(MarginLimited)
      else g
  }

  /** One round of watch_bnb_balance. */
  function BnbTick(g: Gate, limits: Limits, balance: Option<Balance>, now: nat): Gate {
    if balance.None? || Stale(balance.value.updated, now) then
      if g.StoppedFor(Bnb) then g else g.Stop(Bnb)
    else
      var g := if g.StoppedFor(Bnb) then g.Resume(Bnb) else g;
      var amount := balance.value.crossWalletBalance;
      if amount < limits.bnbLow then
        if g.StoppedFor(BnbShortage) then g else g.Stop(BnbShortage)
      else if amount < limits.bnbHigh then g
      else if amount > limits.bnbHigh && g.StoppedFor(BnbShortage) then g.Resume(BnbShortage)
      else g
  }

  method WatchAccountMeta(config: DynamicConfig, limits: Limits, meta: Meta, now: nat)
    modifies config
    ensures config.Value() == MetaTick(old(config.Value()), limits, meta, now)
  {
    var stopped := config.IsStopMakeOrderAsReason(AccountMeta);
    if meta.updated + 300 * 1000 < now {
      if !stopped {
        config.StopMakeOrder(AccountMeta);
      }
      return;
    }
    var resumed;
    if stopped {
      resumed := config.ResumeMakeOrder(AccountMeta);
    }
    var ratio := 1.0;
    if meta.totalCrossWalletBalance > 0.0 {
      ratio := meta.totalInitialMargin / meta.totalCrossWalletBalance;
    }
    var limited := config.IsStopMakeOpenOrderAsReason(MarginLimited);
    if ratio > limits.marginHigh {
      if !limited {
        config.StopMakeOpenOrder(MarginLimited);
      }
      return;
    }
    if ratio < limits.marginLow && limited {
      resumed := config.ResumeMakeOpenOrder(MarginLimited);
    }
  }

  method WatchBnbBalance(config: DynamicConfig, limits: Limits, balance: Option<Balance>, now: nat)
    modifies config
    ensures config.Value() == BnbTick(old(config.Value()), limits, balance, now)
  {
    var stopped := config.IsStopMakeOrderAsReason(Bnb);
    if balance.None? || balance.value.updated + 300 * 1000 < now {
      if !stopped {
        config.StopMakeOrder(Bnb);
      }
      return;
    }
    var resumed;
    if stopped {
      resumed := config.ResumeMakeOrder(Bnb);
    }
    var amount := balance.value.crossWalletBalance;
    var short := config.IsStopMakeOrderAsReason(BnbShortage);
    if amount < limits.bnbLow {
      if !short {
        config.StopMakeOrder(BnbShortage);
      }
      return;
    } else if amount < limits.bnbHigh {
      return;
    }
    if amount > limits.bnbHigh && short {
      resumed := config.ResumeMakeOrder(BnbShortage);
    }
  }

  // ----- any interleaving of ticks, and what the history of ticks alone says

  datatype Tick = MetaRound(meta: Meta, now: nat) | BnbRound(balance: Option<Balance>, now: nat)

  function Played(g: Gate, limits: Limits, ticks: seq<Tick>): Gate {
    if ticks == [] then g
    else
      var before := Played(g, limits, ticks[..|ticks| - 1]);
      match ticks[|ticks| - 1]
      case MetaRound(meta, now) => MetaTick(before, limits, meta, now)
      case BnbRound(balance, now) => BnbTick(before, limits, balance, now)
  }

  // The data a round works on is there and at most 300 seconds old.
  predicate Fresh(tick: Tick) {
    match tick
    case MetaRound(meta, now) => now <= meta.updated + 300000
    case BnbRound(balance, now) => balance.Some? && now <= balance.value.updated + 300000
  }

  // Initial margin over wallet balance against a limit, without dividing; an empty wallet counts as fully used.
  predicate UsedAbove(meta: Meta, limit: real) {
    if meta.totalCrossWalletBalance <= 0.0 then limit < 1.0
    else meta.totalInitialMargin > limit * meta.totalCrossWalletBalance
  }

  predicate UsedBelow(meta: Meta, limit: real) {
    if meta.totalCrossWalletBalance <= 0.0 then limit > 1.0
    else meta.totalInitialMargin < limit * meta.totalCrossWalletBalance
  }

  lemma RatioAgainst(meta: Meta, limit: real)
    ensures MarginUseRatio(meta) > limit <==> UsedAbove(meta, limit)
    ensures MarginUseRatio(meta) < limit <==> UsedBelow(meta, limit)
  {
    if meta.totalCrossWalletBalance > 0.0 {
      QuotientAgainst(meta.totalInitialMargin, meta.totalCrossWalletBalance, limit);
    }
  }

  lemma QuotientAgainst(x: real, d: real, limit: real)
    requires d > 0.0
    ensures x / d > limit <==> x > limit * d
    ensures x / d < limit <==> x < limit * d
  {
    var q := x / d;
    assert q * d == x;
    assert (q - limit) * d == x - limit * d;
    SignAgainst(q - limit, d);
  }

  lemma SignAgainst(a: real, d: real)
    requires d > 0.0
    ensures a > 0.0 <==> a * d > 0.0
    ensures a < 0.0 <==> a * d < 0.0
  {}

  // The last tick of the given watchdog, if there was one, saw fresh data.
  predicate LastFresh(ticks: seq<Tick>, metaDog: bool) {
    ticks == [] ||
    var last := ticks[|ticks| - 1];
    if last.MetaRound? == metaDog then Fresh(last) else LastFresh(ticks[..|ticks| - 1], metaDog)
  }

  // The last fresh balance clearly below the lower or above the upper limit was below the lower.
  predicate ShortageSeen(ticks: seq<Tick>, limits: Limits) {
    ticks != [] &&
    var last := ticks[|ticks| - 1];
    if last.BnbRound? && Fresh(last) && last.balance.value.crossWalletBalance < limits.bnbLow then true
    else if last.BnbRound? && Fresh(last) && last.balance.value.crossWalletBalance > limits.bnbHigh then false
    else ShortageSeen(ticks[..|ticks| - 1], limits)
  }

  // The last fresh margin ratio clearly above the upper or below the lower limit was above the upper.
  predicate MarginSeenHigh(ticks: seq<Tick>, limits: Limits) {
    ticks != [] &&
    var last := ticks[|ticks| - 1];
    if last.MetaRound? && Fresh(last) && UsedAbove(last.meta, limits.marginHigh) then true
    else if last.MetaRound? && Fresh(last) && UsedBelow(last.meta, limits.marginLow) then false
    else MarginSeenHigh(ticks[..|ticks| - 1], limits)
  }

  /** Each flag says that its reason set is not empty. */
  predicate Consistent(g: Gate) {
    g.stopOrder == (g.stopReasons != {}) && g.stopOpenOrder == (g.stopOpenReasons != {})
  }

  lemma MetaTickEffect(g: Gate, limits: Limits, meta: Meta, now: nat)
    requires Consistent(g)
    ensures var h := MetaTick(g, limits, meta, now);
            && Consistent(h)
            && (forall r :: r in h.stopReasons <==>
                if r == AccountMeta then now > meta.updated + 300000 else r in g.stopReasons)
            && (forall r :: r != MarginLimited ==> (r in h.stopOpenReasons <==> r in g.stopOpenReasons))
            && (MarginLimited in h.stopOpenReasons <==>
                  if now <= meta.updated + 300000 && UsedAbove(meta, limits.marginHigh) then true
                  else if now <= meta.updated + 300000 && UsedBelow(meta, limits.marginLow) then false
                  else MarginLimited in g.stopOpenReasons)
  {
    RatioAgainst(meta, limits.marginHigh);
    RatioAgainst(meta, limits.marginLow);
  }

  lemma BnbTickEffect(g: Gate, limits: Limits, balance: Option<Balance>, now: nat)
    requires Consistent(g)
    ensures var h := BnbTick(g, limits, balance, now);
            var stale := balance.None? || now > balance.value.updated + 300000;
            && Consistent(h) && h.stopOpenReasons == g.stopOpenReasons
            && (forall r :: r != Bnb && r != BnbShortage ==> (r in h.stopReasons <==> r in g.stopReasons))
            && (Bnb in h.stopReasons <==> stale)
            && (BnbShortage in h.stopReasons <==>
                  if !stale && balance.value.crossWalletBalance < limits.bnbLow then true
                  else if !stale && balance.value.crossWalletBalance > limits.bnbHigh then false
                  else BnbShortage in g.stopReasons)
  {}

  // What the configuration and the ticks call for.
  predicate Called(r: Reason, stopMakeOrder: bool, limits: Limits, ticks: seq<Tick>) {
    match r
    case StaticConfig => stopMakeOrder
    case AccountMeta => !LastFresh(ticks, true)
    case Bnb => !LastFresh(ticks, false)
    case BnbShortage => ShortageSeen(ticks, limits)
    case MarginLimited => false
  }

  predicate OpenCalled(r: Reason, stopOpening: bool, limits: Limits, ticks: seq<Tick>) {
    match r
    case StaticConfig => stopOpening
    case MarginLimited => MarginSeenHigh(ticks, limits)
    case _ => false
  }

  /** After any ticks in any order each reason is held exactly when the history calls for it; the static one never
      goes. */
  lemma {:induction false} ReasonsFollowHistory(stopMakeOrder: bool, closeOnly: bool, limits: Limits, ticks: seq<Tick>)
    ensures var g := Played(Initial(stopMakeOrder, closeOnly), limits, ticks);
            && Consistent(g)
            && (forall r :: r in g.stopReasons <==> Called(r, stopMakeOrder, limits, ticks))
            && (forall r :: r in g.stopOpenReasons <==> OpenCalled(r, stopMakeOrder || closeOnly, limits, ticks))
  {
    if ticks != [] {
      var front := ticks[..|ticks| - 1];
      ReasonsFollowHistory(stopMakeOrder, closeOnly, limits, front);
      var before := Played(Initial(stopMakeOrder, closeOnly), limits, front);
      match ticks[|ticks| - 1]
      case MetaRound(meta, now) => MetaTickEffect(before, limits, meta, now);
      case BnbRound(balance, now) => BnbTickEffect(before, limits, balance, now);
    }
  }

  lemma NoneCalled(reasons: set<Reason>)
    ensures reasons == {} <==> && StaticConfig !in reasons && AccountMeta !in reasons && MarginLimited !in reasons
                               && Bnb !in reasons && BnbShortage !in reasons
  {
    if reasons != {} {
      var r :| r in reasons;
      assert r.StaticConfig? || r.AccountMeta? || r.MarginLimited? || r.Bnb? || r.BnbShortage?;
    }
  }

  /** When order making, and opening orders, are allowed, read off the configuration and the ticks. */
  lemma AllowedExactlyWhen(stopMakeOrder: bool, closeOnly: bool, limits: Limits, ticks: seq<Tick>)
    ensures var g := Played(Initial(stopMakeOrder, closeOnly), limits, ticks);
            && (g.CouldMakeOrder() <==>
                  !stopMakeOrder && LastFresh(ticks, true) && LastFresh(ticks, false) && !ShortageSeen(ticks, limits))
            && (g.CouldMakeOpenOrder() <==> !stopMakeOrder && !closeOnly && !MarginSeenHigh(ticks, limits))
  {
    ReasonsFollowHistory(stopMakeOrder, closeOnly, limits, ticks);
    var g := Played(Initial(stopMakeOrder, closeOnly), limits, ticks);
    NoneCalled(g.stopReasons);
    NoneCalled(g.stopOpenReasons);
  }
}

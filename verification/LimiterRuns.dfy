/** Every interleaving of order getters, limiter creators and the refresh sweep on one boss.
    Getters hold the boss's lock shared from entry to exit; the sweep and an insertion hold it exclusively. */
module LimiterRuns {
  import opened TokenWindow
  import opened OrderLimiter

  datatype Getter = Idle | Entered(ip: string, n: nat) | Holding(ip: string, n: nat) | Refused(n: nat)

  // A creator that passed its check (under the shared lock) has built a limiter but not inserted it.
  datatype Creator = Free | Ready(ip: string, limiter: Limiter)

  // The refreshing thread reads the clock before it gets the lock.
  datatype Sweep = Resting | Waiting(at: nat) | Sweeping(at: nat, todo: set<string>)

  datatype Span = Second | Minute
  datatype Scope = Account | Ip(ip: string)
  datatype View = View(scope: Scope, span: Span)

  /** History: orders granted by both stages, windows refilled, and limiters replaced by new ones. */
  datatype Entry =
    | Order(at: nat, ip: string, n: nat)
    | Refill(at: nat, stamp: nat, view: View)
    | Renewal(at: nat, ip: string)

  datatype Boss = Boss(
    now: nat, capacity: int, account: Limiter, ips: map<string, Limiter>,
    getters: seq<Getter>, creators: seq<Creator>, sweep: Sweep, log: seq<Entry>)

  datatype Step =
    | Tick(millis: nat)
    | Enter(g: nat, ip: string, n: nat)
    | AccountStage(g: nat)
    | IpStage(g: nat)
    | Return(g: nat)
    | Check(c: nat, ip: string, secondCount: int, secondMillis: nat, minuteCount: int, minuteMillis: nat)
    | Insert(c: nat)
    | ReadClock
    | SweepAccount
    | SweepIp(ip: string)
    | SweepEnd

  predicate AllIdle(getters: seq<Getter>) {
    forall g :: 0 <= g < |getters| ==> getters[g].Idle?
  }

  predicate Enabled(s: Boss, step: Step) {
    match step
    case Tick(_) => true
    case Enter(g, _, _) => g < |s.getters| && s.getters[g].Idle? && !s.sweep.Sweeping?
    case AccountStage(g) => g < |s.getters| && s.getters[g].Entered?
    case IpStage(g) => g < |s.getters| && s.getters[g].Holding?
    case Return(g) => g < |s.getters| && s.getters[g].Refused?
    case Check(c, _, _, _, _, _) => c < |s.creators| && s.creators[c].Free? && !s.sweep.Sweeping?
    case Insert(c) => c < |s.creators| && s.creators[c].Ready? && !s.sweep.Sweeping? && AllIdle(s.getters)
    case ReadClock => s.sweep.Resting?
    case SweepAccount => s.sweep.Waiting? && AllIdle(s.getters)
    case SweepIp(ip) => s.sweep.Sweeping? && ip in s.sweep.todo && ip in s.ips
    case SweepEnd => s.sweep.Sweeping? && s.sweep.todo == {}
  }

  function RefillOf(w: Window, scope: Scope, span: Span, at: nat, stamp: nat): seq<Entry> {
    if w.CycleEnded(stamp) then [Refill(at, stamp, View(scope, span))] else []
  }

  function Refills(scope: Scope, limiter: Limiter, at: nat, stamp: nat): seq<Entry> {
    RefillOf(limiter.second, scope, Second, at, stamp) + RefillOf(limiter.minute, scope, Minute, at, stamp)
  }

  function Do(s: Boss, step: Step): Boss
    requires Enabled(s, step)
  {
    match step
    case Tick(millis) => s.(now := s.now + millis)
    case Enter(g, ip, n) => s.(getters := s.getters[g := Entered(ip, n)])
    case AccountStage(g) =>
      var n := s.getters[g].n;
      if s.account.Has(n)
      then s.(account := s.account.Take(n), getters := s.getters[g := Holding(s.getters[g].ip, n)])
      else s.(getters := s.getters[g := Idle])
    case IpStage(g) =>
      var ip, n := s.getters[g].ip, s.getters[g].n;
      if ip in s.ips && s.ips[ip].Has(n)
      then s.(ips := s.ips[ip := s.ips[ip].Take(n)], getters := s.getters[g := Idle],
              log := s.log + [Order(s.now, ip, n)])
      else s.(getters := s.getters[g := Refused(n)])
    case Return(g) => s.(account := s.account.GiveBack(s.getters[g].n), getters := s.getters[g := Idle])
    case Check(c, ip, sc, sm, mc, mm) =>
      if ip in s.ips || |s.ips| >= s.capacity then s
      else s.(creators := s.creators[c := Ready(ip, Fresh(sc, sm, mc, mm, s.now))])
    case Insert(c) =>
      var ip := s.creators[c].ip;
      s.(ips := s.ips[ip := s.creators[c].limiter], creators := s.creators[c := Free],
         log := if ip in s.ips then s.log + [Renewal(s.now, ip)] else s.log)
    case ReadClock => s.(sweep := Waiting(s.now))
    case SweepAccount =>
      s.(account := s.account.ResetIfCycleEnd(s.sweep.at), sweep := Sweeping(s.sweep.at, s.ips.Keys),
         log := s.log + Refills(Account, s.account, s.now, s.sweep.at))
    case SweepIp(ip) =>
      s.(ips := s.ips[ip := s.ips[ip].ResetIfCycleEnd(s.sweep.at)], sweep := s.sweep.(todo := s.sweep.todo - {ip}),
         log := s.log + Refills(Ip(ip), s.ips[ip], s.now, s.sweep.at))
    case SweepEnd => s.(sweep := Resting)
  }

  predicate Init(s: Boss) {
    && AllIdle(s.getters)
    && (forall c :: 0 <= c < |s.creators| ==> s.creators[c].Free?)
    && s.sweep == Resting && s.ips == map[] && s.log == []
    && s.account == Fresh(s.account.second.init, s.account.second.duration, s.account.minute.init,
                          s.account.minute.duration, s.now)
  }

  predicate IsRun(states: seq<Boss>, steps: seq<Step>) {
    && |states| == |steps| + 1
    && Init(states[0])
    && forall k :: 0 <= k < |steps| ==> Enabled(states[k], steps[k]) && states[k + 1] == Do(states[k], steps[k])
  }

  // ----- the history seen by one window

  function Seen(e: Entry, v: View): seq<Usage> {
    match e
    case Order(at, ip, n) => if v.scope.Account? || v.scope.ip == ip then [Granted(at, n)] else []
    case Refill(at, stamp, view) => if view == v then [Reset(at, stamp)] else []
    case Renewal(at, ip) => if v.scope == Ip(ip) then [Renewed(at)] else []
  }

  function Project(log: seq<Entry>, v: View): seq<Usage> {
    if log == [] then [] else Project(log[..|log| - 1], v) + Seen(log[|log| - 1], v)
  }

  /** Tokens granted to a scope in a half-open time interval, read straight off the history. */
  function Tokens(log: seq<Entry>, scope: Scope, from: nat, to: nat): nat {
    if log == [] then 0
    else
      var e := log[|log| - 1];
      Tokens(log[..|log| - 1], scope, from, to) +
      if e.Order? && (scope.Account? || scope.ip == e.ip) && from <= e.at < to then e.n else 0
  }

  function At(limiter: Limiter, span: Span): Window {
    if span.Second? then limiter.second else limiter.minute
  }

  lemma {:induction false} ProjectAppend(log: seq<Entry>, e: Entry, v: View)
    ensures Project(log + [e], v) == Project(log, v) + Seen(e, v)
  {
    assert (log + [e])[..|log|] == log;
  }

  lemma {:induction false} GrantedInSeen(trace: seq<Usage>, e: Entry, v: View, from: nat, to: nat)
    ensures GrantedIn(trace + Seen(e, v), from, to) == GrantedIn(trace, from, to) +
            if e.Order? && (v.scope.Account? || v.scope.ip == e.ip) && from <= e.at < to then e.n else 0
  {
    var seen := Seen(e, v);
    if seen == [] {
      assert trace + seen == trace;
    }
  }

  lemma {:induction false} TokensProjected(log: seq<Entry>, v: View, from: nat, to: nat)
    ensures Tokens(log, v.scope, from, to) == GrantedIn(Project(log, v), from, to)
  {
    if log != [] {
      var front := log[..|log| - 1];
      TokensProjected(front, v, from, to);
      GrantedInSeen(Project(front, v), log[|log| - 1], v, from, to);
    }
  }

  // ----- tokens taken from the account by getters that have not finished

  function Held(g: Getter): nat {
    if g.Holding? || g.Refused? then g.n else 0
  }

  function InFlight(getters: seq<Getter>): nat {
    if getters == [] then 0 else Held(getters[0]) + InFlight(getters[1..])
  }

  lemma InFlightUpdate(getters: seq<Getter>, g: nat, to: Getter)
    requires g < |getters|
    ensures Held(getters[g]) <= InFlight(getters)
    ensures InFlight(getters[g := to]) == InFlight(getters) - Held(getters[g]) + Held(to)
  {
    if g == 0 {
      assert getters[0 := to][1..] == getters[1..];
    } else {
      InFlightUpdate(getters[1..], g - 1, to);
      assert getters[g := to][1..] == getters[1..][g - 1 := to];
    }
  }

  lemma NothingInFlight(getters: seq<Getter>)
    requires AllIdle(getters)
    ensures InFlight(getters) == 0
  {
    if getters != [] {
      NothingInFlight(getters[1..]);
    }
  }

  // ----- the invariant

  predicate Agrees(limiter: Limiter, log: seq<Entry>, scope: Scope, pending: nat, now: nat) {
    forall span :: Accounts(At(limiter, span), Project(log, View(scope, span)), pending, now)
  }

  predicate IpsAgree(s: Boss) {
    forall ip :: ip in s.ips ==> Agrees(s.ips[ip], s.log, Ip(ip), 0, s.now)
  }

  ghost predicate UnknownIpsUnused(s: Boss) {
    forall v: View :: v.scope.Ip? && v.scope.ip !in s.ips ==> Project(s.log, v) == []
  }

  // A limiter that is built but not inserted has given out nothing.
  predicate Unused(creator: Creator, now: nat) {
    creator.Ready? ==> Agrees(creator.limiter, [], Ip(creator.ip), 0, now)
  }

  /** The account part holds in every run; the per-IP part in fair ones, where a limiter is only ever replaced by one
      with the same settings. */
  ghost predicate Inv(s: Boss, fair: bool) {
    && (!s.sweep.Resting? ==> s.sweep.at <= s.now)
    && (s.sweep.Sweeping? ==> AllIdle(s.getters))
    && Agrees(s.account, s.log, Account, InFlight(s.getters), s.now)
    && (forall c :: 0 <= c < |s.creators| ==> Unused(s.creators[c], s.now))
    && (fair ==> IpsAgree(s) && UnknownIpsUnused(s))
  }

  // Two limiters configured alike.
  predicate SameSettings(a: Limiter, b: Limiter) {
    forall span :: At(a, span).init == At(b, span).init && At(a, span).duration == At(b, span).duration
  }

  predicate Replaces(s: Boss, step: Step) {
    step.Insert? && step.c < |s.creators| && s.creators[step.c].Ready? && s.creators[step.c].ip in s.ips
  }

  predicate Fair(s: Boss, step: Step) {
    Replaces(s, step) ==> SameSettings(s.creators[step.c].limiter, s.ips[s.creators[step.c].ip])
  }

  lemma AgreesLater(limiter: Limiter, log: seq<Entry>, scope: Scope, pending: nat, now: nat, later: nat)
    requires Agrees(limiter, log, scope, pending, now) && now <= later
    ensures Agrees(limiter, log, scope, pending, later)
  {
    forall span ensures Accounts(At(limiter, span), Project(log, View(scope, span)), pending, later) {
      assert Accounts(At(limiter, span), Project(log, View(scope, span)), pending, now);
    }
  }

  lemma InvLater(s: Boss, t: Boss, fair: bool)
    requires Inv(s, fair)
    requires t == s.(now := t.now, sweep := t.sweep) && s.now <= t.now
    requires !t.sweep.Resting? ==> t.sweep.at <= t.now
    requires t.sweep.Sweeping? ==> AllIdle(t.getters)
    ensures Inv(t, fair)
  {
    AgreesLater(s.account, s.log, Account, InFlight(s.getters), s.now, t.now);
    if fair {
      forall ip | ip in t.ips ensures Agrees(t.ips[ip], t.log, Ip(ip), 0, t.now) {
        AgreesLater(s.ips[ip], s.log, Ip(ip), 0, s.now, t.now);
      }
    }
    forall c | 0 <= c < |t.creators| ensures Unused(t.creators[c], t.now) {
      assert Unused(s.creators[c], s.now);
      if s.creators[c].Ready? {
        AgreesLater(s.creators[c].limiter, [], Ip(s.creators[c].ip), 0, s.now, t.now);
      }
    }
  }

  lemma EnterKeepsInv(s: Boss, step: Step, fair: bool)
    requires Inv(s, fair) && Enabled(s, step) && step.Enter?
    ensures Inv(Do(s, step), fair)
  {
    InFlightUpdate(s.getters, step.g, Entered(step.ip, step.n));
  }

  lemma AccountStageKeepsInv(s: Boss, step: Step, fair: bool)
    requires Inv(s, fair) && Enabled(s, step) && step.AccountStage?
    ensures Inv(Do(s, step), fair)
  {
    var t, n := Do(s, step), s.getters[step.g].n;
    InFlightUpdate(s.getters, step.g, t.getters[step.g]);
    if s.account.Has(n) {
      forall span
        ensures Accounts(At(t.account, span), Project(t.log, View(Account, span)), InFlight(t.getters), t.now)
      {
        AccountsTake(At(s.account, span), Project(s.log, View(Account, span)), InFlight(s.getters), s.now, n);
      }
    }
  }

  lemma OrderKeepsAgreement(limiter: Limiter, log: seq<Entry>, scope: Scope, pending: nat, now: nat, ip: string, n: nat)
    requires Agrees(limiter, log, scope, pending, now)
    requires if scope == Account || scope == Ip(ip) then n <= pending else true
    ensures Agrees(limiter, log + [Order(now, ip, n)], scope,
                   if scope == Account || scope == Ip(ip) then pending - n else pending, now)
  {
    forall span
      ensures Accounts(At(limiter, span), Project(log + [Order(now, ip, n)], View(scope, span)),
                       if scope == Account || scope == Ip(ip) then pending - n else pending, now)
    {
      var v := View(scope, span);
      assert Accounts(At(limiter, span), Project(log, v), pending, now);
      ProjectAppend(log, Order(now, ip, n), v);
      if scope == Account || scope == Ip(ip) {
        AccountsGrant(At(limiter, span), Project(log, v), pending, now, n);
      } else {
        assert Project(log, v) + [] == Project(log, v);
      }
    }
  }

  // The IP side of a granted order: its own limiter accounts for it, the others do not see it.
  lemma OrderKeepsIps(s: Boss, t: Boss, ip: string, n: nat)
    requires IpsAgree(s) && UnknownIpsUnused(s)
    requires ip in s.ips && s.ips[ip].Has(n)
    requires t.now == s.now && t.ips == s.ips[ip := s.ips[ip].Take(n)] &&
             t.log == s.log + [Order(s.now, ip, n)]
    ensures IpsAgree(t) && UnknownIpsUnused(t)
  {
    forall other | other in t.ips ensures Agrees(t.ips[other], t.log, Ip(other), 0, t.now) {
      assert Agrees(s.ips[other], s.log, Ip(other), 0, s.now);
      if other == ip {
        forall span ensures Accounts(At(t.ips[ip], span), Project(s.log, View(Ip(ip), span)), n, s.now) {
          AccountsTake(At(s.ips[ip], span), Project(s.log, View(Ip(ip), span)), 0, s.now, n);
        }
        OrderKeepsAgreement(t.ips[ip], s.log, Ip(ip), n, s.now, ip, n);
      } else {
        OrderKeepsAgreement(s.ips[other], s.log, Ip(other), 0, s.now, ip, n);
      }
    }
    forall v: View | v.scope.Ip? && v.scope.ip !in t.ips ensures Project(t.log, v) == [] {
      ProjectAppend(s.log, Order(s.now, ip, n), v);
    }
  }

  // The account side: a grant turns tokens in flight into granted ones.
  lemma OrderKeepsAccount(s: Boss, g: nat, ip: string, n: nat)
    requires g < |s.getters| && s.getters[g] == Holding(ip, n)
    requires Agrees(s.account, s.log, Account, InFlight(s.getters), s.now)
    ensures Agrees(s.account, s.log + [Order(s.now, ip, n)], Account, InFlight(s.getters[g := Idle]), s.now)
  {
    InFlightUpdate(s.getters, g, Idle);
    OrderKeepsAgreement(s.account, s.log, Account, InFlight(s.getters), s.now, ip, n);
  }

  lemma OrderGrantedKeepsInv(s: Boss, g: nat, ip: string, n: nat, fair: bool)
    requires Inv(s, fair) && g < |s.getters| && s.getters[g] == Holding(ip, n) && ip in s.ips && s.ips[ip].Has(n)
    ensures Inv(s.(ips := s.ips[ip := s.ips[ip].Take(n)], getters := s.getters[g := Idle],
                   log := s.log + [Order(s.now, ip, n)]), fair)
  {
    var t := s.(ips := s.ips[ip := s.ips[ip].Take(n)], getters := s.getters[g := Idle],
                log := s.log + [Order(s.now, ip, n)]);
    assert !s.sweep.Sweeping?;
    OrderKeepsAccount(s, g, ip, n);
    assert Agrees(t.account, t.log, Account, InFlight(t.getters), t.now);
    if fair {
      OrderKeepsIps(s, t, ip, n);
    }
  }

  lemma IpStageKeepsInv(s: Boss, step: Step, fair: bool)
    requires Inv(s, fair) && Enabled(s, step) && step.IpStage?
    ensures Inv(Do(s, step), fair)
  {
    var ip, n := s.getters[step.g].ip, s.getters[step.g].n;
    if ip in s.ips && s.ips[ip].Has(n) {
      OrderGrantedKeepsInv(s, step.g, ip, n, fair);
    } else {
      InFlightUpdate(s.getters, step.g, Refused(n));
    }
  }

  lemma ReturnKeepsInv(s: Boss, step: Step, fair: bool)
    requires Inv(s, fair) && Enabled(s, step) && step.Return?
    ensures forall span :: At(s.account, span).remain + s.getters[step.g].n <= At(s.account, span).init
    ensures Inv(Do(s, step), fair)
  {
    var t, n := Do(s, step), s.getters[step.g].n;
    InFlightUpdate(s.getters, step.g, Idle);
    forall span
      ensures At(s.account, span).remain + n <= At(s.account, span).init
      ensures Accounts(At(t.account, span), Project(t.log, View(Account, span)), InFlight(t.getters), t.now)
    {
      AccountsGiveBack(At(s.account, span), Project(s.log, View(Account, span)), InFlight(s.getters), s.now, n);
    }
  }

  lemma CheckKeepsInv(s: Boss, step: Step, fair: bool)
    requires Inv(s, fair) && Enabled(s, step) && step.Check?
    ensures Inv(Do(s, step), fair)
  {}

  // A renewal shows in the history of its own IP only.
  lemma RenewalKeepsAgreement(limiter: Limiter, log: seq<Entry>, scope: Scope, pending: nat, now: nat, ip: string)
    requires Agrees(limiter, log, scope, pending, now) && scope != Ip(ip)
    ensures Agrees(limiter, log + [Renewal(now, ip)], scope, pending, now)
  {
    forall span
      ensures Accounts(At(limiter, span), Project(log + [Renewal(now, ip)], View(scope, span)), pending, now)
    {
      var v := View(scope, span);
      assert Accounts(At(limiter, span), Project(log, v), pending, now);
      ProjectAppend(log, Renewal(now, ip), v);
      assert Project(log, v) + [] == Project(log, v);
    }
  }

  lemma RenewedAgrees(limiter: Limiter, log: seq<Entry>, full: Limiter, now: nat, ip: string)
    requires Agrees(limiter, log, Ip(ip), 0, now) && Agrees(full, [], Ip(ip), 0, now) && SameSettings(full, limiter)
    ensures Agrees(full, log + [Renewal(now, ip)], Ip(ip), 0, now)
  {
    forall span ensures Accounts(At(full, span), Project(log + [Renewal(now, ip)], View(Ip(ip), span)), 0, now) {
      var v := View(Ip(ip), span);
      assert Accounts(At(limiter, span), Project(log, v), 0, now) && Accounts(At(full, span), Project([], v), 0, now);
      ProjectAppend(log, Renewal(now, ip), v);
      AccountsRenew(At(limiter, span), Project(log, v), At(full, span), now);
    }
  }

  lemma FirstAgrees(limiter: Limiter, log: seq<Entry>, now: nat, ip: string)
    requires Agrees(limiter, [], Ip(ip), 0, now) && forall v: View :: v.scope == Ip(ip) ==> Project(log, v) == []
    ensures Agrees(limiter, log, Ip(ip), 0, now)
  {
    forall span ensures Accounts(At(limiter, span), Project(log, View(Ip(ip), span)), 0, now) {
      assert Accounts(At(limiter, span), Project([], View(Ip(ip), span)), 0, now);
    }
  }

  // The IP side of an insertion: the new limiter has its history to answer for, the others do not see it.
  lemma InsertKeepsIps(s: Boss, t: Boss, ip: string, limiter: Limiter)
    requires IpsAgree(s) && UnknownIpsUnused(s) && Agrees(limiter, [], Ip(ip), 0, s.now)
    requires ip in s.ips ==> SameSettings(limiter, s.ips[ip])
    requires t.now == s.now && t.ips == s.ips[ip := limiter]
    requires t.log == if ip in s.ips then s.log + [Renewal(s.now, ip)] else s.log
    ensures IpsAgree(t) && UnknownIpsUnused(t)
  {
    forall other | other in t.ips ensures Agrees(t.ips[other], t.log, Ip(other), 0, t.now) {
      if other == ip {
        if ip in s.ips {
          RenewedAgrees(s.ips[ip], s.log, limiter, s.now, ip);
        } else {
          FirstAgrees(limiter, s.log, s.now, ip);
        }
      } else {
        assert Agrees(s.ips[other], s.log, Ip(other), 0, s.now);
        if ip in s.ips { RenewalKeepsAgreement(s.ips[other], s.log, Ip(other), 0, s.now, ip); }
      }
    }
    forall v: View | v.scope.Ip? && v.scope.ip !in t.ips ensures Project(t.log, v) == [] {
      ProjectAppend(s.log, Renewal(s.now, ip), v);
    }
  }

  lemma InsertKeepsInv(s: Boss, step: Step, fair: bool)
    requires Inv(s, fair) && Enabled(s, step) && step.Insert? && (fair ==> Fair(s, step))
    ensures Inv(Do(s, step), fair)
  {
    var t, ip, limiter := Do(s, step), s.creators[step.c].ip, s.creators[step.c].limiter;
    assert Unused(s.creators[step.c], s.now);
    if ip in s.ips {
      RenewalKeepsAgreement(s.account, s.log, Account, InFlight(s.getters), s.now, ip);
    }
    if fair {
      InsertKeepsIps(s, t, ip, limiter);
    }
  }

  /** A sweep of one limiter refills exactly the windows of its own scope. */
  lemma RefillKeepsAgreement(limiter: Limiter, log: seq<Entry>, owner: Scope, at: nat, stamp: nat)
    requires Agrees(limiter, log, owner, 0, at) && stamp <= at
    ensures Agrees(limiter.ResetIfCycleEnd(stamp), log + Refills(owner, limiter, at, stamp), owner, 0, at)
  {
    forall span
      ensures Accounts(At(limiter.ResetIfCycleEnd(stamp), span),
                       Project(log + Refills(owner, limiter, at, stamp), View(owner, span)), 0, at)
    {
      var v := View(owner, span);
      ProjectRefills(log, owner, limiter, at, stamp, v);
      AccountsReset(At(limiter, span), Project(log, v), at, stamp);
    }
  }

  lemma {:induction false} ProjectRefills(
    log: seq<Entry>, owner: Scope, limiter: Limiter, at: nat, stamp: nat, v: View)
    ensures Project(log + Refills(owner, limiter, at, stamp), v) ==
            if v.scope == owner && At(limiter, v.span).CycleEnded(stamp) then Project(log, v) + [Reset(at, stamp)]
            else Project(log, v)
  {
    var second := RefillOf(limiter.second, owner, Second, at, stamp);
    var minute := RefillOf(limiter.minute, owner, Minute, at, stamp);
    ProjectRefill(log, limiter.second, owner, Second, at, stamp, v);
    ProjectRefill(log + second, limiter.minute, owner, Minute, at, stamp, v);
    ProjectInTurn(log, second, minute, v, Reset(at, stamp),
                  v == View(owner, Second) && limiter.second.CycleEnded(stamp),
                  v == View(owner, Minute) && limiter.minute.CycleEnded(stamp));
  }

  // Of two refills in a row a window sees at most one.
  lemma {:induction false} ProjectInTurn(
    log: seq<Entry>, a: seq<Entry>, b: seq<Entry>, v: View, u: Usage, first: bool, second: bool)
    requires !(first && second)
    requires Project(log + a, v) == if first then Project(log, v) + [u] else Project(log, v)
    requires Project((log + a) + b, v) == if second then Project(log + a, v) + [u] else Project(log + a, v)
    ensures Project(log + (a + b), v) == if first || second then Project(log, v) + [u] else Project(log, v)
  {
    SeqsJoin(log, a, b);
  }

  lemma SeqsJoin(a: seq<Entry>, b: seq<Entry>, c: seq<Entry>)
    ensures a + (b + c) == (a + b) + c
  {}

  lemma {:induction false} ProjectRefill(
    log: seq<Entry>, w: Window, owner: Scope, span: Span, at: nat, stamp: nat, v: View)
    ensures Project(log + RefillOf(w, owner, span, at, stamp), v) ==
            if v == View(owner, span) && w.CycleEnded(stamp) then Project(log, v) + [Reset(at, stamp)]
            else Project(log, v)
  {
    if w.CycleEnded(stamp) {
      ProjectAppend(log, Refill(at, stamp, View(owner, span)), v);
    } else {
      assert log + [] == log;
    }
    assert Project(log, v) + [] == Project(log, v);
  }

  lemma RefillKeepsOthers(
    limiter: Limiter, log: seq<Entry>, owner: Scope, other: Scope, otherLimiter: Limiter, pending: nat,
    at: nat, stamp: nat)
    requires Agrees(otherLimiter, log, other, pending, at) && other != owner
    ensures Agrees(otherLimiter, log + Refills(owner, limiter, at, stamp), other, pending, at)
  {
    forall span
      ensures Accounts(At(otherLimiter, span),
                       Project(log + Refills(owner, limiter, at, stamp), View(other, span)), pending, at)
    {
      ProjectRefills(log, owner, limiter, at, stamp, View(other, span));
      assert Accounts(At(otherLimiter, span), Project(log, View(other, span)), pending, at);
    }
  }

  lemma SweepAccountKeepsInv(s: Boss, step: Step, fair: bool)
    requires Inv(s, fair) && Enabled(s, step) && step.SweepAccount?
    ensures Inv(Do(s, step), fair)
  {
    var t := Do(s, step);
    NothingInFlight(s.getters);
    RefillKeepsAgreement(s.account, s.log, Account, s.now, s.sweep.at);
    if fair {
      forall ip | ip in t.ips ensures Agrees(t.ips[ip], t.log, Ip(ip), 0, t.now) {
        RefillKeepsOthers(s.account, s.log, Account, Ip(ip), s.ips[ip], 0, s.now, s.sweep.at);
      }
      forall v: View | v.scope.Ip? && v.scope.ip !in t.ips ensures Project(t.log, v) == [] {
        ProjectRefills(s.log, Account, s.account, s.now, s.sweep.at, v);
      }
    }
  }

  lemma SweepKeepsIps(s: Boss, t: Boss, ip: string, stamp: nat)
    requires IpsAgree(s) && UnknownIpsUnused(s) && ip in s.ips && stamp <= s.now
    requires t.now == s.now && t.ips == s.ips[ip := s.ips[ip].ResetIfCycleEnd(stamp)]
    requires t.log == s.log + Refills(Ip(ip), s.ips[ip], s.now, stamp)
    ensures IpsAgree(t) && UnknownIpsUnused(t)
  {
    forall other | other in t.ips ensures Agrees(t.ips[other], t.log, Ip(other), 0, t.now) {
      assert Agrees(s.ips[other], s.log, Ip(other), 0, s.now);
      if other == ip {
        RefillKeepsAgreement(s.ips[ip], s.log, Ip(ip), s.now, stamp);
      } else {
        RefillKeepsOthers(s.ips[ip], s.log, Ip(ip), Ip(other), s.ips[other], 0, s.now, stamp);
      }
    }
    forall v: View | v.scope.Ip? && v.scope.ip !in t.ips ensures Project(t.log, v) == [] {
      ProjectRefills(s.log, Ip(ip), s.ips[ip], s.now, stamp, v);
    }
  }

  lemma SweepIpKeepsInv(s: Boss, step: Step, fair: bool)
    requires Inv(s, fair) && Enabled(s, step) && step.SweepIp?
    ensures Inv(Do(s, step), fair)
  {
    var t, ip, stamp := Do(s, step), step.ip, s.sweep.at;
    RefillKeepsOthers(s.ips[ip], s.log, Ip(ip), Account, s.account, InFlight(s.getters), s.now, stamp);
    if fair {
      SweepKeepsIps(s, t, ip, stamp);
    }
  }

  lemma StepKeepsInv(s: Boss, step: Step, fair: bool)
    requires Inv(s, fair) && Enabled(s, step) && (fair ==> Fair(s, step))
    ensures Inv(Do(s, step), fair)
  {
    match step
    case Tick(_) => InvLater(s, Do(s, step), fair);
    case Enter(_, _, _) => EnterKeepsInv(s, step, fair);
    case AccountStage(_) => AccountStageKeepsInv(s, step, fair);
    case IpStage(_) => IpStageKeepsInv(s, step, fair);
    case Return(_) => ReturnKeepsInv(s, step, fair);
    case Check(_, _, _, _, _, _) => CheckKeepsInv(s, step, fair);
    case Insert(_) => InsertKeepsInv(s, step, fair);
    case ReadClock => InvLater(s, Do(s, step), fair);
    case SweepAccount => SweepAccountKeepsInv(s, step, fair);
    case SweepIp(_) => SweepIpKeepsInv(s, step, fair);
    case SweepEnd => InvLater(s, Do(s, step), fair);
  }

  lemma StepKeepsSettings(s: Boss, step: Step)
    requires Enabled(s, step)
    ensures SameSettings(s.account, Do(s, step).account)
    ensures |Do(s, step).creators| == |s.creators| && Do(s, step).capacity == s.capacity
  {}

  lemma {:induction false} RunSettings(states: seq<Boss>, steps: seq<Step>, k: nat)
    requires IsRun(states, steps) && k < |states|
    ensures SameSettings(states[0].account, states[k].account) && |states[k].creators| == |states[0].creators|
    ensures states[k].capacity == states[0].capacity
  {
    if k > 0 {
      RunSettings(states, steps, k - 1);
      StepKeepsSettings(states[k - 1], steps[k - 1]);
    }
  }

  /** Every limiter replaced before state k was replaced by one with the same settings. */
  predicate FairRun(states: seq<Boss>, steps: seq<Step>, k: nat) {
    forall n :: 0 <= n < k && n < |steps| && n < |states| ==> Fair(states[n], steps[n])
  }

  lemma InitInv(s: Boss)
    requires Init(s)
    ensures Inv(s, true) && Inv(s, false)
  {
    NothingInFlight(s.getters);
  }

  lemma {:induction false} RunInv(states: seq<Boss>, steps: seq<Step>, k: nat, fair: bool)
    requires IsRun(states, steps) && k < |states|
    requires fair ==> FairRun(states, steps, k)
    ensures Inv(states[k], fair)
  {
    if k == 0 {
      InitInv(states[0]);
    } else {
      RunInv(states, steps, k - 1, fair);
      StepKeepsInv(states[k - 1], steps[k - 1], fair);
    }
  }

  // ----- what every run satisfies

  /** Each account window has given out exactly the orders granted since its last refill plus those in flight. */
  lemma AccountConservation(states: seq<Boss>, steps: seq<Step>, k: nat, span: Span)
    requires IsRun(states, steps) && k < |states|
    ensures var s := states[k];
            && At(s.account, span).init - At(s.account, span).remain ==
               Used(Project(s.log, View(Account, span))) + InFlight(s.getters)
            && Used(Project(s.log, View(Account, span))) + InFlight(s.getters) <= At(states[0].account, span).Quota()
  {
    RunSettings(states, steps, k);
    RunInv(states, steps, k, false);
    assert Accounts(At(states[k].account, span), Project(states[k].log, View(Account, span)),
                    InFlight(states[k].getters), states[k].now);
  }

  /** The account stage lets a request through if and only if, in both windows, it fits with the orders granted since
      the last refill and those in flight. */
  lemma AccountGrantsExactlyWhen(states: seq<Boss>, steps: seq<Step>, k: nat)
    requires IsRun(states, steps) && k < |steps| && steps[k].AccountStage?
    ensures steps[k].g < |states[k].getters| == |states[k + 1].getters| && states[k].getters[steps[k].g].Entered?
    ensures var s, n := states[k], states[k].getters[steps[k].g].n;
            states[k + 1].getters[steps[k].g].Holding? <==>
            forall span :: Used(Project(s.log, View(Account, span))) + InFlight(s.getters) + n <=
                           At(states[0].account, span).init
  {
    RunSettings(states, steps, k);
    RunInv(states, steps, k, false);
    var s, n := states[k], states[k].getters[steps[k].g].n;
    forall span ensures At(s.account, span).remain >= n <==>
                        Used(Project(s.log, View(Account, span))) + InFlight(s.getters) + n <=
                        At(states[0].account, span).init {
      assert Accounts(At(s.account, span), Project(s.log, View(Account, span)), InFlight(s.getters), s.now);
    }
    BothWindows(s.account, n);
  }

  lemma BothWindows(limiter: Limiter, n: int)
    ensures limiter.Has(n) <==> forall span :: At(limiter, span).remain >= n
  {
    assert limiter.Has(n) <==> At(limiter, Second).remain >= n && At(limiter, Minute).remain >= n;
  }

  /** The IP stage grants an order if and only if its IP has a limiter and the order fits with those granted to the IP
      since that limiter's last refill, in both windows. */
  lemma IpGrantsExactlyWhen(states: seq<Boss>, steps: seq<Step>, k: nat)
    requires IsRun(states, steps) && k < |steps| && steps[k].IpStage? && FairRun(states, steps, k)
    ensures steps[k].g < |states[k].getters| && states[k].getters[steps[k].g].Holding?
    ensures var s, ip, n := states[k], states[k].getters[steps[k].g].ip, states[k].getters[steps[k].g].n;
            var granted := ip in s.ips && forall span ::
                             Used(Project(s.log, View(Ip(ip), span))) + n <= At(s.ips[ip], span).init;
            states[k + 1].log == if granted then s.log + [Order(s.now, ip, n)] else s.log
  {
    RunInv(states, steps, k, true);
    var s, ip, n := states[k], states[k].getters[steps[k].g].ip, states[k].getters[steps[k].g].n;
    if ip in s.ips {
      forall span ensures At(s.ips[ip], span).remain >= n <==>
                          Used(Project(s.log, View(Ip(ip), span))) + n <= At(s.ips[ip], span).init {
        assert Accounts(At(s.ips[ip], span), Project(s.log, View(Ip(ip), span)), 0, s.now);
      }
      BothWindows(s.ips[ip], n);
    }
  }

  /** A getter refused by its IP stage always gets its tokens back in both windows: neither drop branch is reachable. */
  lemma RefundAccepted(states: seq<Boss>, steps: seq<Step>, k: nat, g: nat)
    requires IsRun(states, steps) && k < |states|
    requires g < |states[k].getters| && states[k].getters[g].Refused?
    ensures var s, n := states[k], states[k].getters[g].n;
            forall span ::
              && At(s.account, span).remain + n <= At(s.account, span).init
              && At(Do(s, Return(g)).account, span) == At(s.account, span).(remain := At(s.account, span).remain + n)
  {
    RunInv(states, steps, k, false);
    ReturnKeepsInv(states[k], Return(g), false);
  }

  // ----- how late refills take effect

  // Stamps never go back, and each refill takes effect at most lag after its stamp.
  predicate LogTimely(log: seq<Entry>, lag: nat, bound: nat) {
    && (forall i :: 0 <= i < |log| && log[i].Refill? ==>
          log[i].stamp <= bound && log[i].stamp <= log[i].at <= log[i].stamp + lag)
    && (forall i, j :: 0 <= i < j < |log| && log[i].Refill? && log[j].Refill? ==> log[i].stamp <= log[j].stamp)
  }

  function LastStamp(s: Boss): nat {
    if s.sweep.Resting? then s.now else s.sweep.at
  }

  /** The refreshing thread gets through with this lock section at most lag after it read the clock. */
  predicate Prompt(s: Boss, step: Step, lag: nat) {
    (step.SweepAccount? || step.SweepIp?) && !s.sweep.Resting? ==> s.now <= s.sweep.at + lag
  }

  predicate PromptRun(states: seq<Boss>, steps: seq<Step>, k: nat, lag: nat) {
    forall n :: 0 <= n < k && n < |steps| && n < |states| ==> Prompt(states[n], steps[n], lag)
  }

  lemma MoreTimely(log: seq<Entry>, more: seq<Entry>, lag: nat, bound: nat, stamp: nat)
    requires LogTimely(log, lag, bound) && bound <= stamp
    requires forall i :: 0 <= i < |more| && more[i].Refill? ==>
               more[i].stamp == stamp && more[i].stamp <= more[i].at <= more[i].stamp + lag
    ensures LogTimely(log + more, lag, stamp)
  {
    var all := log + more;
    forall i | 0 <= i < |all| && all[i].Refill?
      ensures all[i].stamp <= stamp && all[i].stamp <= all[i].at <= all[i].stamp + lag
    {
      if i >= |log| { assert all[i] == more[i - |log|]; }
    }
    forall i, j | 0 <= i < j < |all| && all[i].Refill? && all[j].Refill? ensures all[i].stamp <= all[j].stamp {
      if j >= |log| { assert all[j] == more[j - |log|]; }
      if i >= |log| { assert all[i] == more[i - |log|]; }
    }
  }

  lemma StepKeepsTimely(s: Boss, step: Step, lag: nat)
    requires Enabled(s, step) && Prompt(s, step, lag) && LogTimely(s.log, lag, LastStamp(s))
    requires !s.sweep.Resting? ==> s.sweep.at <= s.now
    ensures LogTimely(Do(s, step).log, lag, LastStamp(Do(s, step)))
  {
    var t := Do(s, step);
    match step
    case SweepAccount => MoreTimely(s.log, Refills(Account, s.account, s.now, s.sweep.at), lag, s.sweep.at, s.sweep.at);
    case SweepIp(ip) => MoreTimely(s.log, Refills(Ip(ip), s.ips[ip], s.now, s.sweep.at), lag, s.sweep.at, s.sweep.at);
    case IpStage(g) =>
      if t.log != s.log {
        MoreTimely(s.log, [Order(s.now, s.getters[g].ip, s.getters[g].n)], lag, LastStamp(s), LastStamp(s));
      }
    case Insert(c) =>
      if t.log != s.log { MoreTimely(s.log, [Renewal(s.now, s.creators[c].ip)], lag, LastStamp(s), LastStamp(s)); }
    case _ => MoreTimely(s.log, [], lag, LastStamp(s), LastStamp(t)); assert s.log + [] == s.log;
  }

  lemma {:induction false} RunTimely(states: seq<Boss>, steps: seq<Step>, k: nat, lag: nat)
    requires IsRun(states, steps) && k < |states| && PromptRun(states, steps, k, lag)
    ensures LogTimely(states[k].log, lag, LastStamp(states[k]))
  {
    if k > 0 {
      RunTimely(states, steps, k - 1, lag);
      RunInv(states, steps, k - 1, false);
      StepKeepsTimely(states[k - 1], steps[k - 1], lag);
    }
  }

  lemma {:induction false} ProjectTimely(log: seq<Entry>, v: View, lag: nat, bound: nat)
    requires LogTimely(log, lag, bound)
    ensures Timely(Project(log, v), lag) && StampedBy(Project(log, v), bound)
  {
    if log != [] {
      var front, last := log[..|log| - 1], log[|log| - 1];
      var latest := if last.Refill? then last.stamp else bound;
      assert LogTimely(front, lag, latest);
      ProjectTimely(front, v, lag, latest);
      SeenTimely(Project(front, v), last, v, lag, bound);
    }
  }

  lemma SeenTimely(trace: seq<Usage>, e: Entry, v: View, lag: nat, bound: nat)
    requires Timely(trace, lag) && StampedBy(trace, if e.Refill? then e.stamp else bound)
    requires e.Refill? ==> e.stamp <= bound && e.stamp <= e.at <= e.stamp + lag
    ensures Timely(trace + Seen(e, v), lag) && StampedBy(trace + Seen(e, v), bound)
  {
    var seen := Seen(e, v);
    if seen == [] {
      assert trace + seen == trace;
      StampedByWeaken(trace, if e.Refill? then e.stamp else bound, bound);
    } else {
      assert (trace + seen)[..|trace|] == trace;
    }
  }

  // ----- rates

  lemma {:induction false} AccountNeverRenewed(log: seq<Entry>, span: Span, from: nat, to: nat)
    ensures RenewalsIn(Project(log, View(Account, span)), from, to) == 0
  {
    if log != [] {
      AccountNeverRenewed(log[..|log| - 1], span, from, to);
      var before := Project(log[..|log| - 1], View(Account, span));
      RenewalsConcat(before, Seen(log[|log| - 1], View(Account, span)), from, to);
    }
  }

  lemma RateFromAgreement(
    limiter: Limiter, log: seq<Entry>, scope: Scope, pending: nat, now: nat, span: Span, lag: nat, bound: nat,
    from: nat, length: nat)
    requires Agrees(limiter, log, scope, pending, now) && LogTimely(log, lag, bound)
    requires At(limiter, span).duration > 0
    ensures var w, renewals := At(limiter, span), RenewalsIn(Project(log, View(scope, span)), from, from + length);
            Tokens(log, scope, from, from + length) <=
            (CeilDiv(length + lag, w.duration) + 1 + 2 * renewals) * w.Quota()
  {
    var w, trace := At(limiter, span), Project(log, View(scope, span));
    assert Accounts(w, trace, pending, now);
    TokensProjected(log, View(scope, span), from, from + length);
    ProjectTimely(log, View(scope, span), lag, bound);
    RateBound(trace, w.Quota(), w.duration, lag, from, length);
  }

  /** In any run whose sweeps take effect at most lag after the clock reading they work with, the orders granted in any
      half-open interval stay within the account's rate over its length and the lag, in both windows. */
  lemma AccountRate(states: seq<Boss>, steps: seq<Step>, k: nat, span: Span, lag: nat, from: nat, length: nat)
    requires IsRun(states, steps) && k < |states| && PromptRun(states, steps, k, lag)
    requires At(states[0].account, span).duration > 0
    ensures var w := At(states[0].account, span);
            Tokens(states[k].log, Account, from, from + length) <= (CeilDiv(length + lag, w.duration) + 1) * w.Quota()
  {
    RunSettings(states, steps, k);
    RunInv(states, steps, k, false);
    RunTimely(states, steps, k, lag);
    AccountNeverRenewed(states[k].log, span, from, from + length);
    RateFromAgreement(states[k].account, states[k].log, Account, InFlight(states[k].getters), states[k].now, span,
                      lag, LastStamp(states[k]), from, length);
  }
}

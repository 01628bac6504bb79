/** Threads that create IP limiters concurrently: how many limiters there can be, when one replaces another, and what
    that does to an IP's rate (src/trader/order_limiter.cpp, src/trader/service_manager.cpp). */
module LimiterCreators {
  import opened TokenWindow
  import opened OrderLimiter
  import opened LimiterRuns
  import opened Paths

  // ----- how many limiters there can be

  function Waiting(creators: seq<Creator>): nat {
    if creators == [] then 0 else (if creators[0].Ready? then 1 else 0) + Waiting(creators[1..])
  }

  lemma WaitingUpdate(creators: seq<Creator>, c: nat, to: Creator)
    requires c < |creators|
    ensures Waiting(creators) <= |creators|
    ensures Waiting(creators[c := to]) ==
            Waiting(creators) - (if creators[c].Ready? then 1 else 0) + (if to.Ready? then 1 else 0)
  {
    assert Waiting(creators) <= |creators| by { WaitingBound(creators); }
    if c == 0 {
      assert creators[0 := to][1..] == creators[1..];
    } else {
      WaitingUpdate(creators[1..], c - 1, to);
      assert creators[c := to][1..] == creators[1..][c - 1 := to];
    }
  }

  lemma WaitingBound(creators: seq<Creator>)
    ensures Waiting(creators) <= |creators|
  {}

  lemma NoneWaiting(creators: seq<Creator>)
    requires forall c :: 0 <= c < |creators| ==> creators[c].Free?
    ensures Waiting(creators) == 0
  {}

  predicate WithinCapacity(s: Boss) {
    |s.ips| + Waiting(s.creators) == 0 || |s.ips| + Waiting(s.creators) <= s.capacity + |s.creators| - 1
  }

  lemma InsertSize(ips: map<string, Limiter>, ip: string, limiter: Limiter)
    ensures |ips[ip := limiter]| == if ip in ips then |ips| else |ips| + 1
  {
    assert ips[ip := limiter].Keys == ips.Keys + {ip};
  }

  lemma StepKeepsCapacity(s: Boss, step: Step)
    requires WithinCapacity(s) && Enabled(s, step)
    ensures WithinCapacity(Do(s, step))
  {
    var t := Do(s, step);
    if step.Check? {
      WaitingUpdate(s.creators, step.c, t.creators[step.c]);
      WaitingBound(t.creators);
    } else if step.Insert? {
      WaitingUpdate(s.creators, step.c, Free);
      InsertSize(s.ips, s.creators[step.c].ip, s.creators[step.c].limiter);
    } else if step.IpStage? && t.ips != s.ips {
      InsertSize(s.ips, s.getters[step.g].ip, t.ips[s.getters[step.g].ip]);
    } else if step.SweepIp? {
      InsertSize(s.ips, step.ip, t.ips[step.ip]);
    }
  }

  /** T concurrent creators overshoot the capacity by at most T - 1; a single one never does. */
  lemma {:induction false} IpCapacity(states: seq<Boss>, steps: seq<Step>, k: nat)
    requires IsRun(states, steps) && k < |states|
    ensures WithinCapacity(states[k])
    ensures |states[k].ips| == 0 || |states[k].ips| <= states[0].capacity + |states[0].creators| - 1
  {
    if k == 0 {
      NoneWaiting(states[0].creators);
    } else {
      IpCapacity(states, steps, k - 1);
      RunSettings(states, steps, k);
      StepKeepsCapacity(states[k - 1], steps[k - 1]);
    }
  }

  // ----- when an insertion replaces a limiter

  predicate Targets(creator: Creator, ip: string) {
    creator.Ready? && creator.ip == ip
  }

  // Step n inserts a limiter for the IP.
  predicate Inserts(states: seq<Boss>, steps: seq<Step>, n: nat, ip: string)
    requires n < |steps| && n < |states|
  {
    steps[n].Insert? && steps[n].c < |states[n].creators| && Targets(states[n].creators[steps[n].c], ip)
  }

  lemma StepOnIps(s: Boss, step: Step, ip: string)
    requires Enabled(s, step)
    ensures ip in Do(s, step).ips <==> ip in s.ips || (step.Insert? && Targets(s.creators[step.c], ip))
  {}

  // Limiters are never removed, so an IP has one if it had one or got one since.
  lemma {:induction false} KnownSince(states: seq<Boss>, steps: seq<Step>, j: nat, k: nat, ip: string)
    requires IsRun(states, steps) && j <= k < |states|
    ensures ip in states[k].ips <==> ip in states[j].ips || exists n :: j <= n < k && Inserts(states, steps, n, ip)
  {
    if j < k {
      KnownSince(states, steps, j, k - 1, ip);
      StepOnIps(states[k - 1], steps[k - 1], ip);
      assert ip in states[k].ips <==> ip in states[k - 1].ips || Inserts(states, steps, k - 1, ip);
    }
  }

  lemma StepOnCreator(s: Boss, step: Step, c: nat)
    requires Enabled(s, step) && c < |s.creators| && Do(s, step).creators[c].Ready?
    ensures Do(s, step).creators[c] == s.creators[c] ||
            (step.Check? && step.c == c && step.ip == Do(s, step).creators[c].ip && step.ip !in s.ips)
    ensures !(step.Insert? && step.c == c)
  {}

  /** A creator about to insert checked for its IP earlier, found none, and has kept what it built since. */
  lemma {:induction false} BuiltAt(states: seq<Boss>, steps: seq<Step>, k: nat, c: nat) returns (j: nat)
    requires IsRun(states, steps) && k < |states| && c < |states[k].creators| && states[k].creators[c].Ready?
    ensures j < k && steps[j].Check? && steps[j].c == c && steps[j].ip == states[k].creators[c].ip
    ensures steps[j].ip !in states[j].ips
    ensures forall n :: j < n <= k ==> c < |states[n].creators| && states[n].creators[c] == states[k].creators[c]
    ensures forall n :: j < n < k ==> !(steps[n].Insert? && steps[n].c == c)
  {
    RunSettings(states, steps, k);
    RunSettings(states, steps, k - 1);
    StepOnCreator(states[k - 1], steps[k - 1], c);
    if states[k].creators[c] == states[k - 1].creators[c] {
      j := BuiltAt(states, steps, k - 1, c);
    } else {
      j := k - 1;
    }
  }

  /** An insertion replaces a limiter if and only if another creator inserted one for the IP since this one's check. */
  lemma ReplacesExactlyWhen(states: seq<Boss>, steps: seq<Step>, k: nat) returns (j: nat)
    requires IsRun(states, steps) && k < |steps| && steps[k].Insert?
    ensures j < k && steps[j].Check? && steps[j].c == steps[k].c && steps[j].ip == states[k].creators[steps[k].c].ip
    ensures steps[j].ip in states[k].ips <==>
            exists n :: j < n < k && Inserts(states, steps, n, steps[j].ip) && steps[n].c != steps[k].c
    ensures forall n :: j < n < k ==>
              steps[k].c < |states[n].creators| && Targets(states[n].creators[steps[k].c], steps[j].ip)
  {
    j := BuiltAt(states, steps, k, steps[k].c);
    KnownSince(states, steps, j, k, steps[j].ip);
  }

  /** No two creators are building a limiter for the same IP. */
  predicate DistinctTargets(s: Boss) {
    forall c, d :: 0 <= c < d < |s.creators| && s.creators[c].Ready? && s.creators[d].Ready? ==>
      s.creators[c].ip != s.creators[d].ip
  }

  /** Creators that never build for one IP at once never replace a limiter, however many they are. */
  lemma DistinctNeverReplaces(states: seq<Boss>, steps: seq<Step>, k: nat)
    requires IsRun(states, steps) && k < |steps|
    requires forall n :: 0 <= n <= k ==> DistinctTargets(states[n])
    ensures !Replaces(states[k], steps[k])
  {
    if steps[k].Insert? {
      var j := ReplacesExactlyWhen(states, steps, k);
      forall n | j < n < k && Inserts(states, steps, n, steps[j].ip) ensures steps[n].c == steps[k].c {
        OneTargets(states[n], steps[n].c, steps[k].c, steps[j].ip);
      }
    }
  }

  lemma OneTargets(s: Boss, c: nat, d: nat, ip: string)
    requires DistinctTargets(s) && c < |s.creators| && d < |s.creators|
    requires Targets(s.creators[c], ip) && Targets(s.creators[d], ip)
    ensures c == d
  {}

  // ----- how often an IP's limiter can be replaced

  function Renewals(log: seq<Entry>, ip: string): nat {
    if log == [] then 0
    else Renewals(log[..|log| - 1], ip) + if log[|log| - 1].Renewal? && log[|log| - 1].ip == ip then 1 else 0
  }

  lemma {:induction false} RenewalsAppend(log: seq<Entry>, more: seq<Entry>, ip: string)
    ensures Renewals(log + more, ip) == Renewals(log, ip) + Renewals(more, ip)
  {
    if more == [] {
      assert log + more == log;
    } else {
      RenewalsAppend(log, more[..|more| - 1], ip);
      assert (log + more)[..|log + more| - 1] == log + more[..|more| - 1];
    }
  }

  function WaitingFor(creators: seq<Creator>, ip: string): nat {
    if creators == [] then 0 else (if Targets(creators[0], ip) then 1 else 0) + WaitingFor(creators[1..], ip)
  }

  lemma {:induction false} WaitingForUpdate(creators: seq<Creator>, c: nat, to: Creator, ip: string)
    requires c < |creators|
    ensures WaitingFor(creators[c := to], ip) ==
            WaitingFor(creators, ip) - (if Targets(creators[c], ip) then 1 else 0) + (if Targets(to, ip) then 1 else 0)
  {
    if c == 0 {
      assert creators[0 := to][1..] == creators[1..];
    } else {
      WaitingForUpdate(creators[1..], c - 1, to, ip);
      assert creators[c := to][1..] == creators[1..][c - 1 := to];
    }
  }

  lemma WaitingForBound(creators: seq<Creator>, ip: string)
    ensures WaitingFor(creators, ip) <= |creators|
  {}

  // Once an IP has a limiter, only the creators that checked before that can still replace it, each once.
  predicate FewRenewals(s: Boss, ip: string) {
    if ip in s.ips then Renewals(s.log, ip) + WaitingFor(s.creators, ip) <= |s.creators| - 1
    else Renewals(s.log, ip) == 0
  }

  lemma {:induction false} StepOnRenewals(s: Boss, step: Step, ip: string)
    requires Enabled(s, step)
    ensures Renewals(Do(s, step).log, ip) ==
            Renewals(s.log, ip) + if Replaces(s, step) && s.creators[step.c].ip == ip then 1 else 0
  {
    var t := Do(s, step);
    match step
    case SweepAccount => MoreRefills(s.log, Refills(Account, s.account, s.now, s.sweep.at), ip);
    case SweepIp(other) => MoreRefills(s.log, Refills(Ip(other), s.ips[other], s.now, s.sweep.at), ip);
    case IpStage(g) => if t.log != s.log { OneMore(s.log, Order(s.now, s.getters[g].ip, s.getters[g].n), ip); }
    case Insert(c) => OneMore(s.log, Renewal(s.now, s.creators[c].ip), ip);
    case _ =>
  }

  lemma {:induction false} OneMore(log: seq<Entry>, e: Entry, ip: string)
    ensures Renewals(log + [e], ip) == Renewals(log, ip) + if e.Renewal? && e.ip == ip then 1 else 0
  {
    assert (log + [e])[..|log|] == log;
  }

  lemma MoreRefills(log: seq<Entry>, refills: seq<Entry>, ip: string)
    requires forall i :: 0 <= i < |refills| ==> refills[i].Refill?
    ensures Renewals(log + refills, ip) == Renewals(log, ip)
  {
    RenewalsAppend(log, refills, ip);
    RefillsAreNoRenewals(refills, ip);
  }

  lemma {:induction false} RefillsAreNoRenewals(log: seq<Entry>, ip: string)
    requires forall i :: 0 <= i < |log| ==> log[i].Refill?
    ensures Renewals(log, ip) == 0
  {
    if log != [] { RefillsAreNoRenewals(log[..|log| - 1], ip); }
  }

  lemma StepOnWaitingFor(s: Boss, step: Step, ip: string)
    requires Enabled(s, step)
    ensures |Do(s, step).creators| == |s.creators|
    ensures ip in s.ips ==>
            WaitingFor(Do(s, step).creators, ip) ==
            WaitingFor(s.creators, ip) - if step.Insert? && s.creators[step.c].ip == ip then 1 else 0
    ensures step.Insert? && s.creators[step.c].ip == ip ==>
            WaitingFor(Do(s, step).creators, ip) <= |s.creators| - 1
  {
    WaitingForBound(s.creators, ip);
    if step.Check? {
      WaitingForUpdate(s.creators, step.c, Do(s, step).creators[step.c], ip);
    } else if step.Insert? {
      WaitingForUpdate(s.creators, step.c, Free, ip);
    }
  }

  lemma StepKeepsFewRenewals(s: Boss, step: Step, ip: string)
    requires FewRenewals(s, ip) && Enabled(s, step)
    ensures FewRenewals(Do(s, step), ip)
  {
    StepOnIps(s, step, ip);
    StepOnRenewals(s, step, ip);
    StepOnWaitingFor(s, step, ip);
  }

  /** After the first insertion no check for that IP passes, so T creators give an IP at most T limiters in a whole
      run. */
  lemma {:induction false} LimitersPerIp(states: seq<Boss>, steps: seq<Step>, k: nat, ip: string)
    requires IsRun(states, steps) && k < |states|
    ensures FewRenewals(states[k], ip)
    ensures ip in states[k].ips ==> 1 + Renewals(states[k].log, ip) <= |states[0].creators|
  {
    RunSettings(states, steps, k);
    if k > 0 {
      LimitersPerIp(states, steps, k - 1, ip);
      StepKeepsFewRenewals(states[k - 1], steps[k - 1], ip);
    }
  }

  // ----- the rate of one IP

  lemma RenewalsSeen(trace: seq<Usage>, e: Entry, ip: string, span: Span, from: nat, to: nat)
    ensures RenewalsIn(trace + Seen(e, View(Ip(ip), span)), from, to) <=
            RenewalsIn(trace, from, to) + if e.Renewal? && e.ip == ip then 1 else 0
  {
    var seen := Seen(e, View(Ip(ip), span));
    if seen == [] {
      assert trace + seen == trace;
    } else {
      assert (trace + seen)[..|trace|] == trace;
    }
  }

  lemma {:induction false} RenewalsProjected(log: seq<Entry>, ip: string, span: Span, from: nat, to: nat)
    ensures RenewalsIn(Project(log, View(Ip(ip), span)), from, to) <= Renewals(log, ip)
  {
    if log != [] {
      var front := log[..|log| - 1];
      RenewalsProjected(front, ip, span, from, to);
      RenewalsSeen(Project(front, View(Ip(ip), span)), log[|log| - 1], ip, span, from, to);
    }
  }

  /** In every run in which limiters are only replaced by ones with the same settings, an IP stays within the rate of
      its limiter plus two quotas per replacement, and an IP without a limiter gets nothing. */
  lemma IpRate(
    states: seq<Boss>, steps: seq<Step>, k: nat, ip: string, span: Span, lag: nat, from: nat, length: nat)
    requires IsRun(states, steps) && k < |states| && FairRun(states, steps, k) && PromptRun(states, steps, k, lag)
    ensures ip !in states[k].ips ==> Tokens(states[k].log, Ip(ip), from, from + length) == 0
    ensures ip in states[k].ips && At(states[k].ips[ip], span).duration > 0 ==>
              var w := At(states[k].ips[ip], span);
              Tokens(states[k].log, Ip(ip), from, from + length) <=
              (CeilDiv(length + lag, w.duration) + 1 + 2 * Renewals(states[k].log, ip)) * w.Quota()
  {
    RunInv(states, steps, k, true);
    RunTimely(states, steps, k, lag);
    if ip !in states[k].ips {
      TokensProjected(states[k].log, View(Ip(ip), span), from, from + length);
    } else if At(states[k].ips[ip], span).duration > 0 {
      RateOf(states[k].ips[ip], states[k].log, ip, states[k].now, span, lag, LastStamp(states[k]), from, length);
    }
  }

  lemma RateOf(
    limiter: Limiter, log: seq<Entry>, ip: string, now: nat, span: Span, lag: nat, bound: nat, from: nat, length: nat)
    requires Agrees(limiter, log, Ip(ip), 0, now) && LogTimely(log, lag, bound) && At(limiter, span).duration > 0
    ensures var w := At(limiter, span);
            Tokens(log, Ip(ip), from, from + length) <=
            (CeilDiv(length + lag, w.duration) + 1 + 2 * Renewals(log, ip)) * w.Quota()
  {
    var w, seen := At(limiter, span), RenewalsIn(Project(log, View(Ip(ip), span)), from, from + length);
    RateFromAgreement(limiter, log, Ip(ip), 0, now, span, lag, bound, from, length);
    RenewalsProjected(log, ip, span, from, from + length);
    var cycles := CeilDiv(length + lag, w.duration);
    MulMonotone(cycles + 1 + 2 * seen, cycles + 1 + 2 * Renewals(log, ip), w.Quota());
  }

  /** All checks of the run ask for the same settings, as the source's callers do: counts from the configuration. */
  predicate OneSetting(steps: seq<Step>) {
    forall i, j :: 0 <= i < |steps| && 0 <= j < |steps| && steps[i].Check? && steps[j].Check? ==>
      && steps[i].secondCount == steps[j].secondCount && steps[i].secondMillis == steps[j].secondMillis
      && steps[i].minuteCount == steps[j].minuteCount && steps[i].minuteMillis == steps[j].minuteMillis
  }

  predicate Configured(limiter: Limiter, check: Step)
    requires check.Check?
  {
    && limiter.second.init == check.secondCount && limiter.second.duration == check.secondMillis
    && limiter.minute.init == check.minuteCount && limiter.minute.duration == check.minuteMillis
  }

  // Every limiter, inserted or not, has the settings of the checks.
  predicate AllConfigured(s: Boss, check: Step)
    requires check.Check?
  {
    && (forall ip :: ip in s.ips ==> Configured(s.ips[ip], check))
    && (forall c :: 0 <= c < |s.creators| && s.creators[c].Ready? ==> Configured(s.creators[c].limiter, check))
  }

  lemma StepKeepsConfigured(s: Boss, step: Step, check: Step)
    requires Enabled(s, step) && check.Check? && AllConfigured(s, check)
    requires step.Check? ==>
             Configured(Fresh(step.secondCount, step.secondMillis, step.minuteCount, step.minuteMillis, 0), check)
    ensures AllConfigured(Do(s, step), check)
  {}

  lemma {:induction false} RunConfigured(states: seq<Boss>, steps: seq<Step>, k: nat, i: nat)
    requires IsRun(states, steps) && k < |states| && i < |steps| && steps[i].Check? && OneSetting(steps)
    ensures AllConfigured(states[k], steps[i])
  {
    if k > 0 {
      RunConfigured(states, steps, k - 1, i);
      StepKeepsConfigured(states[k - 1], steps[k - 1], steps[i]);
    }
  }

  lemma OneSettingIsFair(states: seq<Boss>, steps: seq<Step>, k: nat)
    requires IsRun(states, steps) && k < |states| && OneSetting(steps)
    ensures FairRun(states, steps, k)
  {
    forall n | 0 <= n < k && n < |steps| ensures Fair(states[n], steps[n]) {
      if Replaces(states[n], steps[n]) {
        var j := BuiltAt(states, steps, n, steps[n].c);
        RunConfigured(states, steps, n, j);
      }
    }
  }

  /** With T threads creating limiters under one configuration, any interval grants an IP at most
      (ceil((length + lag) / duration) + 2 T - 1) quotas. */
  lemma IpRateWithCreators(
    states: seq<Boss>, steps: seq<Step>, k: nat, ip: string, span: Span, lag: nat, from: nat, length: nat)
    requires IsRun(states, steps) && k < |states| && OneSetting(steps) && PromptRun(states, steps, k, lag)
    requires ip in states[k].ips && At(states[k].ips[ip], span).duration > 0
    ensures |states[0].creators| >= 1
    ensures var w := At(states[k].ips[ip], span);
            Tokens(states[k].log, Ip(ip), from, from + length) <=
            (CeilDiv(length + lag, w.duration) + 2 * |states[0].creators| - 1) * w.Quota()
  {
    OneSettingIsFair(states, steps, k);
    IpRate(states, steps, k, ip, span, lag, from, length);
    LimitersPerIp(states, steps, k, ip);
    var w := At(states[k].ips[ip], span);
    var cycles := CeilDiv(length + lag, w.duration);
    MulMonotone(cycles + 1 + 2 * Renewals(states[k].log, ip), cycles + 2 * |states[0].creators| - 1, w.Quota());
  }

  lemma {:induction false} DistinctNeverRenews(states: seq<Boss>, steps: seq<Step>, k: nat, ip: string)
    requires IsRun(states, steps) && k < |states| && forall n :: 0 <= n <= k ==> DistinctTargets(states[n])
    ensures Renewals(states[k].log, ip) == 0 && FairRun(states, steps, k)
  {
    if k > 0 {
      DistinctNeverRenews(states, steps, k - 1, ip);
      DistinctNeverReplaces(states, steps, k - 1);
      StepOnRenewals(states[k - 1], steps[k - 1], ip);
    }
  }

  /** With creators that never build for one IP at once, any number of them under any settings, every IP stays within
      the plain rate of its own limiter. */
  lemma IpRateDistinct(
    states: seq<Boss>, steps: seq<Step>, k: nat, ip: string, span: Span, lag: nat, from: nat, length: nat)
    requires IsRun(states, steps) && k < |states| && PromptRun(states, steps, k, lag)
    requires forall n :: 0 <= n <= k ==> DistinctTargets(states[n])
    requires ip in states[k].ips && At(states[k].ips[ip], span).duration > 0
    ensures var w := At(states[k].ips[ip], span);
            Tokens(states[k].log, Ip(ip), from, from + length) <= (CeilDiv(length + lag, w.duration) + 1) * w.Quota()
  {
    DistinctNeverRenews(states, steps, k, ip);
    IpRate(states, steps, k, ip, span, lag, from, length);
  }

  // ----- a race

  predicate Next(s: Boss, step: Step, t: Boss) {
    Enabled(s, step) && t == Do(s, step)
  }

  lemma PathIsRun(states: seq<Boss>, steps: seq<Step>)
    requires IsPath(Next, states, steps) && Init(states[0])
    ensures IsRun(states, steps)
  {
    forall k | 0 <= k < |steps|
      ensures Enabled(states[k], steps[k]) && states[k + 1] == Do(states[k], steps[k])
    {
      assert Next(states[k], steps[k], states[k + 1]);
    }
  }

  /** Two creators racing on one IP: the later insertion throws away a limiter whose token was already spent,
      so a token reappears although no sweep ever ran. */
  lemma ConcurrentCreatorsReplace(now: nat) returns (states: seq<Boss>, steps: seq<Step>)
    ensures IsRun(states, steps) && |states[0].creators| == 2 && OneSetting(steps) && |steps| == 7
    ensures forall k :: 0 <= k < |steps| ==> !steps[k].SweepIp? && !steps[k].SweepAccount?
    ensures steps[6] == Insert(1) && "a" in states[6].ips && "a" in states[7].ips
    ensures states[6].ips["a"].second.remain == 0 && states[7].ips["a"].second.remain == 1
  {
    var race, raceSteps := CreatorsRace(now);
    var spend, spendSteps := TokenSpent(now);
    var back, backSteps := TokenComesBack(now);
    PathsJoin(Next, race, raceSteps, spend, spendSteps);
    states, steps := race + spend[1..], raceSteps + spendSteps;
    PathsJoin(Next, states, steps, back, backSteps);
    states, steps := states + back[1..], steps + backSteps;
    PathIsRun(states, steps);
  }

  function RaceStart(now: nat): Boss {
    Boss(now, 9, Fresh(5, 10000, 5, 60000, now), map[], [Idle], [Free, Free], Resting, [])
  }

  // Both creators have built a limiter for the same IP and the first one has inserted it.
  function RaceMiddle(now: nat): Boss {
    var limiter := Fresh(1, 10000, 1, 60000, now);
    RaceStart(now).(creators := [Free, Ready("a", limiter)], ips := map["a" := limiter])
  }

  // The only token of that limiter has been spent.
  function RaceSpent(now: nat): Boss {
    var s := RaceMiddle(now);
    s.(account := s.account.Take(1), ips := map["a" := Fresh(1, 10000, 1, 60000, now).Take(1)],
       log := [Order(now, "a", 1)])
  }

  lemma CreatorsRace(now: nat) returns (path: seq<Boss>, steps: seq<Step>)
    ensures var build := Check(0, "a", 1, 10000, 1, 60000);
            IsPath(Next, path, steps) && steps == [build, build.(c := 1), Insert(0)]
    ensures path[0] == RaceStart(now) && path[3] == RaceMiddle(now) && Init(path[0])
  {
    var ready, build := Ready("a", Fresh(1, 10000, 1, 60000, now)), Check(0, "a", 1, 10000, 1, 60000);
    var s1, s2 := RaceStart(now).(creators := [ready, Free]), RaceStart(now).(creators := [ready, ready]);
    steps := [build, build.(c := 1), Insert(0)];
    assert s1 == Do(RaceStart(now), steps[0]) && s2 == Do(s1, steps[1]) && RaceMiddle(now) == Do(s2, steps[2]);
    path := [RaceStart(now), s1, s2, RaceMiddle(now)];
  }

  lemma TokenSpent(now: nat) returns (path: seq<Boss>, steps: seq<Step>)
    ensures IsPath(Next, path, steps) && steps == [Enter(0, "a", 1), AccountStage(0), IpStage(0)]
    ensures path[0] == RaceMiddle(now) && path[3] == RaceSpent(now)
  {
    var s3 := RaceMiddle(now);
    var s4 := s3.(getters := [Entered("a", 1)]);
    var s5 := s3.(getters := [Holding("a", 1)], account := s3.account.Take(1));
    steps := [Enter(0, "a", 1), AccountStage(0), IpStage(0)];
    assert s4 == Do(s3, steps[0]) && s5 == Do(s4, steps[1]) && RaceSpent(now) == Do(s5, steps[2]);
    path := [s3, s4, s5, RaceSpent(now)];
  }

  lemma TokenComesBack(now: nat) returns (path: seq<Boss>, steps: seq<Step>)
    ensures IsPath(Next, path, steps) && steps == [Insert(1)] && path[0] == RaceSpent(now)
    ensures "a" in path[0].ips && "a" in path[1].ips
    ensures path[0].ips["a"].second.remain == 0 && path[1].ips["a"].second.remain == 1
  {
    steps := [Insert(1)];
    path := [RaceSpent(now), Do(RaceSpent(now), Insert(1))];
  }
}

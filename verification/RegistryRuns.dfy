/** The registry under every interleaving of updates, two-step lookups and the one collecting thread, each lock
    section one step (src/trader/service_container.cpp, src/trader/service_manager.cpp). */
module RegistryRuns {
  import opened Paths

  // 5400 seconds.
  const EXPIRED_MILLIS: nat := 5400 * 1000

  function IpPair(localIp: string, remoteIp: string): (pair: string)
    ensures pair != ""
  {
    localIp + "_" + remoteIp
  }

  /** Different addresses give different pairs as long as local addresses have no underscore; with one they need not. */
  lemma PairsDiffer(localIp: string, remoteIp: string, localIp': string, remoteIp': string)
    requires '_' !in localIp && '_' !in localIp'
    ensures IpPair(localIp, remoteIp) == IpPair(localIp', remoteIp') <==> localIp == localIp' && remoteIp == remoteIp'
  {
    if IpPair(localIp, remoteIp) == IpPair(localIp', remoteIp') {
      var pair, n, n' := IpPair(localIp, remoteIp), |localIp|, |localIp'|;
      assert pair[n] == '_' && pair[n'] == '_';
      assert forall i :: 0 <= i < n ==> pair[i] == localIp[i];
      assert forall i :: 0 <= i < n' ==> pair[i] == localIp'[i];
      assert n == n';
      assert pair[..n] == localIp && pair[..n'] == localIp';
      assert pair[n + 1..] == remoteIp && pair[n' + 1..] == remoteIp';
    }
  }

  lemma PairsCollide()
    ensures IpPair("a_b", "c") == IpPair("a", "b_c")
  {
    assert IpPair("a_b", "c") == "a_b_c" && IpPair("a", "b_c") == "a_b_c";
  }

  /** A wrapper that was started: when it was registered, when last refreshed, and whether it was stopped. */
  datatype Service = Service(registered: nat, refreshed: nat, stopped: bool)

  datatype Lookup = NoLookup | HaveKey(pair: string)

  /** Where the collecting thread is and the local lists it works from. */
  datatype Pass =
    | Sleeping
    | HavePairs(pairs: set<string>)
    | RemovingUnused(todo: set<string>)
    | RemovingExpired(todo: set<string>)

  datatype Registry = Registry(
    now: nat, symbols: map<string, string>, pairs: map<string, nat>, services: seq<Service>,
    lookups: seq<Lookup>, found: seq<nat>, pass: Pass)

  datatype Step =
    | Tick(millis: nat)
    | Update(symbol: string, localIp: string, remoteIp: string)
    | LookUpKey(l: nat, symbol: string)
    | LookUpValue(l: nat)
    | SnapshotPairs
    | SnapshotMapping
    | RemoveUnused(pair: string)
    | ScanExpired
    | RemoveExpired(pair: string)
    | PassEnd

  predicate Enabled(s: Registry, step: Step) {
    match step
    case Tick(_) => true
    case Update(_, _, _) => true
    case LookUpKey(l, symbol) => l < |s.lookups| && s.lookups[l].NoLookup? && symbol in s.symbols
    case LookUpValue(l) => l < |s.lookups| && s.lookups[l].HaveKey?
    case SnapshotPairs => s.pass.Sleeping?
    case SnapshotMapping => s.pass.HavePairs?
    case RemoveUnused(pair) => s.pass.RemovingUnused? && pair in s.pass.todo
    case ScanExpired => s.pass.RemovingUnused? && s.pass.todo == {}
    case RemoveExpired(pair) => s.pass.RemovingExpired? && pair in s.pass.todo
    case PassEnd => s.pass.RemovingExpired? && s.pass.todo == {}
  }

  predicate WellIndexed(s: Registry) {
    forall pair :: pair in s.pairs ==> s.pairs[pair] < |s.services|
  }

  function StopAndRemove(s: Registry, pair: string): Registry
    requires WellIndexed(s)
  {
    if pair !in s.pairs then s
    else
      var id := s.pairs[pair];
      s.(services := s.services[id := s.services[id].(stopped := true)], pairs := s.pairs - {pair})
  }

  predicate LongUnrefreshed(s: Registry, pair: string)
    requires WellIndexed(s) && pair in s.pairs
  {
    s.services[s.pairs[pair]].refreshed + EXPIRED_MILLIS <= s.now
  }

  function Do(s: Registry, step: Step): Registry
    requires WellIndexed(s) && Enabled(s, step)
  {
    match step
    case Tick(millis) => s.(now := s.now + millis)
    case Update(symbol, localIp, remoteIp) =>
      var pair := IpPair(localIp, remoteIp);
      var s := s.(symbols := s.symbols[symbol := pair]);
      if pair in s.pairs
      then s.(services := s.services[s.pairs[pair] := s.services[s.pairs[pair]].(refreshed := s.now)])
      else s.(services := s.services + [Service(s.now, s.now, false)], pairs := s.pairs[pair := |s.services|])
    case LookUpKey(l, symbol) => s.(lookups := s.lookups[l := HaveKey(s.symbols[symbol])])
    case LookUpValue(l) =>
      var pair := s.lookups[l].pair;
      s.(lookups := s.lookups[l := NoLookup], found := if pair in s.pairs then s.found + [s.pairs[pair]] else s.found)
    case SnapshotPairs => s.(pass := HavePairs(s.pairs.Keys))
    case SnapshotMapping => s.(pass := RemovingUnused(s.pass.pairs - s.symbols.Values))
    case RemoveUnused(pair) => StopAndRemove(s, pair).(pass := RemovingUnused(s.pass.todo - {pair}))
    case ScanExpired => s.(pass := RemovingExpired(set pair | pair in s.pairs && LongUnrefreshed(s, pair)))
    case RemoveExpired(pair) => StopAndRemove(s, pair).(pass := RemovingExpired(s.pass.todo - {pair}))
    case PassEnd => s.(pass := Sleeping)
  }

  predicate Init(s: Registry) {
    && s.symbols == map[] && s.pairs == map[] && s.services == [] && s.found == [] && s.pass == Sleeping
    && forall l :: 0 <= l < |s.lookups| ==> s.lookups[l].NoLookup?
  }

  predicate IsRun(states: seq<Registry>, steps: seq<Step>) {
    && |states| == |steps| + 1
    && Init(states[0])
    && (forall k :: 0 <= k < |states| ==> WellIndexed(states[k]))
    && forall k {:trigger steps[k]} :: 0 <= k < |steps| ==>
         Enabled(states[k], steps[k]) && states[k + 1] == Do(states[k], steps[k])
  }

  // ----- invariant

  predicate Registered(s: Registry, id: nat) {
    exists pair :: pair in s.pairs && s.pairs[pair] == id
  }

  ghost predicate RegisteredIffRunning(s: Registry) {
    && WellIndexed(s)
    && (forall p, q :: p in s.pairs && q in s.pairs && p != q ==> s.pairs[p] != s.pairs[q])
    && (forall id: nat :: id < |s.services| ==> (!s.services[id].stopped <==> Registered(s, id)))
  }

  predicate TimesOrdered(s: Registry) {
    forall id: nat :: id < |s.services| ==> s.services[id].registered <= s.services[id].refreshed <= s.now
  }

  ghost predicate Inv(s: Registry) {
    RegisteredIffRunning(s) && TimesOrdered(s)
  }

  lemma RemovalKeepsRunning(s: Registry, pair: string)
    requires RegisteredIffRunning(s)
    ensures RegisteredIffRunning(StopAndRemove(s, pair))
  {
    var t := StopAndRemove(s, pair);
    forall id: nat | id < |t.services| ensures !t.services[id].stopped <==> Registered(t, id) {
      if Registered(s, id) {
        var p :| p in s.pairs && s.pairs[p] == id;
        if p != pair { assert t.pairs[p] == id; }
      }
      if Registered(t, id) {
        var p :| p in t.pairs && t.pairs[p] == id;
        assert s.pairs[p] == id;
      }
    }
  }

  lemma UpdateKeepsRunning(s: Registry, step: Step)
    requires RegisteredIffRunning(s) && step.Update?
    ensures RegisteredIffRunning(Do(s, step))
  {
    var t, pair := Do(s, step), IpPair(step.localIp, step.remoteIp);
    forall id: nat | id < |t.services| ensures !t.services[id].stopped <==> Registered(t, id) {
      if id == |s.services| {
        assert pair in t.pairs && t.pairs[pair] == id;
      } else {
        if Registered(s, id) {
          var p :| p in s.pairs && s.pairs[p] == id;
          assert t.pairs[p] == id;
        }
        if Registered(t, id) {
          var p :| p in t.pairs && t.pairs[p] == id;
          assert s.pairs[p] == id;
        }
      }
    }
  }

  lemma StepKeepsRunning(s: Registry, step: Step)
    requires RegisteredIffRunning(s) && Enabled(s, step)
    ensures RegisteredIffRunning(Do(s, step))
  {
    var t := Do(s, step);
    if step.Update? {
      UpdateKeepsRunning(s, step);
    } else if step.RemoveUnused? || step.RemoveExpired? {
      RemovalKeepsRunning(s, step.pair);
      assert t.pairs == StopAndRemove(s, step.pair).pairs && t.services == StopAndRemove(s, step.pair).services;
      assert forall id: nat :: Registered(t, id) == Registered(StopAndRemove(s, step.pair), id);
    } else {
      assert forall id: nat :: Registered(t, id) == Registered(s, id);
    }
  }

  // How a step moves the services: none disappears, the clock does not go back, and only what follows changes.
  lemma StepOnServices(s: Registry, step: Step)
    requires WellIndexed(s) && TimesOrdered(s) && Enabled(s, step)
    ensures TimesOrdered(Do(s, step)) && s.now <= Do(s, step).now && |s.services| <= |Do(s, step).services|
    ensures forall id: nat :: id < |s.services| ==>
              && Do(s, step).services[id].registered == s.services[id].registered
              && (s.services[id].stopped ==> Do(s, step).services[id].stopped)
    ensures forall id: nat :: |s.services| <= id < |Do(s, step).services| ==>
            Do(s, step).services[id].registered == s.now
  {}

  lemma {:induction false} RunInv(states: seq<Registry>, steps: seq<Step>, k: nat)
    requires IsRun(states, steps) && k < |states|
    ensures Inv(states[k])
  {
    if k > 0 {
      RunInv(states, steps, k - 1);
      StepKeepsRunning(states[k - 1], steps[k - 1]);
      StepOnServices(states[k - 1], steps[k - 1]);
    }
  }

  // ----- what every run satisfies

  /** Every service ever started is registered exactly as long as it has not been stopped. */
  lemma RunningExactlyWhileRegistered(states: seq<Registry>, steps: seq<Step>, k: nat, id: nat)
    requires IsRun(states, steps) && k < |states| && id < |states[k].services|
    ensures !states[k].services[id].stopped <==> exists pair :: pair in states[k].pairs && states[k].pairs[pair] == id
  {
    RunInv(states, steps, k);
    assert Registered(states[k], id) <==> exists pair :: pair in states[k].pairs && states[k].pairs[pair] == id;
  }

  /** A stopped service never runs again. */
  lemma {:induction false} StoppedForGood(states: seq<Registry>, steps: seq<Step>, j: nat, k: nat, id: nat)
    requires IsRun(states, steps) && j <= k < |states| && id < |states[j].services| && states[j].services[id].stopped
    ensures id < |states[k].services| && states[k].services[id].stopped
  {
    if j < k {
      StoppedForGood(states, steps, j, k - 1, id);
      RunInv(states, steps, k - 1);
      StepOnServices(states[k - 1], steps[k - 1]);
    }
  }

  /** A lookup, although it takes the lock twice, hands out a service that runs at that moment. */
  lemma LookupFindsRunning(states: seq<Registry>, steps: seq<Step>, k: nat)
    requires IsRun(states, steps) && k < |steps| && steps[k].LookUpValue?
    ensures |states[k].found| <= |states[k + 1].found| <= |states[k].found| + 1
    ensures |states[k + 1].found| > |states[k].found| ==>
              var id := states[k + 1].found[|states[k].found|];
              id < |states[k].services| && !states[k].services[id].stopped
  {
    RunInv(states, steps, k);
    var s := states[k];
    var pair := s.lookups[steps[k].l].pair;
    if pair in s.pairs {
      assert Registered(s, s.pairs[pair]);
    }
  }

  // Services from number `count` on were registered at time `since` or later.
  predicate Later(s: Registry, count: nat, since: nat) {
    && since <= s.now && count <= |s.services|
    && forall id: nat :: count <= id < |s.services| ==> since <= s.services[id].registered
  }

  lemma StepKeepsLater(s: Registry, step: Step, count: nat, since: nat)
    requires Inv(s) && Enabled(s, step) && Later(s, count, since)
    ensures Later(Do(s, step), count, since)
  {
    StepOnServices(s, step);
  }

  lemma {:induction false} NewServicesAreLater(states: seq<Registry>, steps: seq<Step>, i: nat, k: nat)
    requires IsRun(states, steps) && i <= k < |states|
    ensures Later(states[k], |states[i].services|, states[i].now)
  {
    if i < k {
      NewServicesAreLater(states, steps, i, k - 1);
      RunInv(states, steps, k - 1);
      StepKeepsLater(states[k - 1], steps[k - 1], |states[i].services|, states[i].now);
    }
  }

  // ----- what a collection pass removes, traced back to what it saw

  // Nothing from step i to step k starts, advances or ends a stage of the pass.
  predicate WithinStage(steps: seq<Step>, i: nat, k: nat)
    requires i <= k <= |steps|
  {
    forall n :: i <= n < k ==>
      && !steps[n].SnapshotPairs? && !steps[n].SnapshotMapping? && !steps[n].ScanExpired? && !steps[n].PassEnd?
  }

  // A service of state i is still registered under its pair in state k.
  predicate StillThere(s: Registry, t: Registry, pair: string) {
    pair in s.pairs && pair in t.pairs && t.pairs[pair] == s.pairs[pair]
  }

  lemma StepKeepsPair(s: Registry, step: Step, pair: string)
    requires WellIndexed(s) && Enabled(s, step) && pair in s.pairs
    requires (step.RemoveUnused? || step.RemoveExpired?) ==> step.pair != pair
    ensures StillThere(s, Do(s, step), pair)
  {}

  /** While the pass holds its list of pairs, the services on it stay registered. */
  lemma {:induction false} PairsStage(states: seq<Registry>, steps: seq<Step>, k: nat) returns (i: nat)
    requires IsRun(states, steps) && k < |states| && states[k].pass.HavePairs?
    ensures i < k && steps[i].SnapshotPairs? && WithinStage(steps, i + 1, k)
    ensures states[k].pass.pairs == states[i].pairs.Keys
    ensures forall pair :: pair in states[i].pairs ==> StillThere(states[i], states[k], pair)
  {
    if steps[k - 1].SnapshotPairs? {
      i := k - 1;
    } else {
      i := PairsStage(states, steps, k - 1);
      forall pair | pair in states[i].pairs ensures StillThere(states[i], states[k], pair) {
        StepKeepsPair(states[k - 1], steps[k - 1], pair);
      }
    }
  }

  // Every pair the mapping did not use is still to be removed, or gone with its service stopped.
  predicate Handled(first: Registry, now: Registry, pair: string, todo: set<string>)
    requires WellIndexed(first) && pair in first.pairs
  {
    if pair in todo then StillThere(first, now, pair)
    else first.pairs[pair] < |now.services| && now.services[first.pairs[pair]].stopped
  }

  /** The list of unused pairs holds exactly those that were registered when the pass began, unmapped in its mapping
      snapshot, and not yet removed. */
  predicate UnusedGrounds(first: Registry, snapshot: Registry, s: Registry)
    requires WellIndexed(first)
  {
    && s.pass.RemovingUnused? && s.pass.todo <= first.pairs.Keys - snapshot.symbols.Values
    && forall pair :: pair in first.pairs.Keys - snapshot.symbols.Values ==> Handled(first, s, pair, s.pass.todo)
  }

  lemma StepKeepsHandled(first: Registry, s: Registry, step: Step, pair: string)
    requires WellIndexed(first) && Inv(s) && Enabled(s, step) && pair in first.pairs
    requires s.pass.RemovingUnused? && Do(s, step).pass.RemovingUnused?
    requires Handled(first, s, pair, s.pass.todo)
    ensures Handled(first, Do(s, step), pair, Do(s, step).pass.todo)
  {
    if pair !in s.pass.todo {
      StepOnServices(s, step);
    } else if !(step.RemoveUnused? && step.pair == pair) {
      StepKeepsPair(s, step, pair);
    }
  }

  lemma StepKeepsUnusedGrounds(first: Registry, snapshot: Registry, s: Registry, step: Step)
    requires WellIndexed(first) && Inv(s) && Enabled(s, step) && Do(s, step).pass.RemovingUnused?
    requires UnusedGrounds(first, snapshot, s)
    ensures UnusedGrounds(first, snapshot, Do(s, step))
  {
    forall pair | pair in first.pairs.Keys - snapshot.symbols.Values
      ensures Handled(first, Do(s, step), pair, Do(s, step).pass.todo)
    {
      StepKeepsHandled(first, s, step, pair);
    }
  }

  lemma {:induction false} UnusedStage(states: seq<Registry>, steps: seq<Step>, k: nat) returns (i: nat, j: nat)
    requires IsRun(states, steps) && k < |states| && states[k].pass.RemovingUnused?
    ensures i < j < k && steps[i].SnapshotPairs? && steps[j].SnapshotMapping?
    ensures WithinStage(steps, i + 1, j) && WithinStage(steps, j + 1, k)
    ensures UnusedGrounds(states[i], states[j], states[k])
  {
    if steps[k - 1].SnapshotMapping? {
      j := k - 1;
      i := PairsStage(states, steps, j);
    } else {
      i, j := UnusedStage(states, steps, k - 1);
      RunInv(states, steps, k - 1);
      StepKeepsUnusedGrounds(states[i], states[j], states[k - 1], steps[k - 1]);
    }
  }

  /** Each service on the list of expired ones is still registered and had gone 5400 s without a refresh at the scan. */
  predicate ExpiredGrounds(scan: Registry, s: Registry)
    requires WellIndexed(scan)
  {
    && s.pass.RemovingExpired?
    && forall pair :: pair in s.pass.todo ==> StillThere(scan, s, pair) && LongUnrefreshed(scan, pair)
  }

  lemma {:induction false} ExpiredStage(states: seq<Registry>, steps: seq<Step>, k: nat) returns (j: nat)
    requires IsRun(states, steps) && k < |states| && states[k].pass.RemovingExpired?
    ensures j < k && steps[j].ScanExpired? && WithinStage(steps, j + 1, k)
    ensures ExpiredGrounds(states[j], states[k])
  {
    if steps[k - 1].ScanExpired? {
      j := k - 1;
    } else {
      j := ExpiredStage(states, steps, k - 1);
    }
  }

  /** A service removed as unused is the very one registered under its pair when the pass began, and no symbol was
      mapped to the pair in the snapshot the pass took. */
  lemma UnusedRemovalJustified(states: seq<Registry>, steps: seq<Step>, k: nat) returns (i: nat, j: nat)
    requires IsRun(states, steps) && k < |steps| && steps[k].RemoveUnused?
    ensures i < j < k && steps[i].SnapshotPairs? && steps[j].SnapshotMapping?
    ensures WithinStage(steps, i + 1, j) && WithinStage(steps, j + 1, k)
    ensures var pair := steps[k].pair;
            StillThere(states[i], states[k], pair) && pair !in states[j].symbols.Values
  {
    i, j := UnusedStage(states, steps, k);
  }

  /** A service removed as expired had gone 5400 s without a refresh at the scan of that pass; one registered after the
      pass began is removed only if the pass itself had by then taken that long. */
  lemma ExpiredRemovalJustified(states: seq<Registry>, steps: seq<Step>, k: nat) returns (i: nat, m: nat, j: nat)
    requires IsRun(states, steps) && k < |steps| && steps[k].RemoveExpired?
    ensures i < m < j < k && steps[i].SnapshotPairs? && steps[m].SnapshotMapping? && steps[j].ScanExpired?
    ensures WithinStage(steps, i + 1, m) && WithinStage(steps, m + 1, j) && WithinStage(steps, j + 1, k)
    ensures var pair := steps[k].pair;
            && StillThere(states[j], states[k], pair)
            && states[j].services[states[j].pairs[pair]].refreshed + EXPIRED_MILLIS <= states[j].now
            && (states[j].pairs[pair] >= |states[i].services| ==> states[i].now + EXPIRED_MILLIS <= states[j].now)
  {
    j := ExpiredStage(states, steps, k);
    i, m := UnusedStage(states, steps, j);
    RunInv(states, steps, j);
    NewServicesAreLater(states, steps, i, j);
  }

  /** And nothing unused is left over: by the time a pass looks for expired services, every service that was registered
      when it began and unmapped in its snapshot has been stopped. */
  lemma UnusedAllRemoved(states: seq<Registry>, steps: seq<Step>, k: nat) returns (i: nat, j: nat)
    requires IsRun(states, steps) && k < |steps| && steps[k].ScanExpired?
    ensures i < j < k && steps[i].SnapshotPairs? && steps[j].SnapshotMapping?
    ensures WithinStage(steps, i + 1, j) && WithinStage(steps, j + 1, k)
    ensures forall pair :: pair in states[i].pairs && pair !in states[j].symbols.Values ==>
              && states[i].pairs[pair] < |states[k].services|
              && states[k].services[states[i].pairs[pair]].stopped
  {
    i, j := UnusedStage(states, steps, k);
    forall pair | pair in states[i].pairs && pair !in states[j].symbols.Values
      ensures states[i].pairs[pair] < |states[k].services| && states[k].services[states[i].pairs[pair]].stopped
    {
      assert Handled(states[i], states[k], pair, states[k].pass.todo);
    }
  }

  lemma StepKeepsExpiredHandled(first: Registry, s: Registry, step: Step, pair: string)
    requires WellIndexed(first) && Inv(s) && Enabled(s, step) && pair in first.pairs
    requires s.pass.RemovingExpired? && Do(s, step).pass.RemovingExpired?
    requires Handled(first, s, pair, s.pass.todo)
    ensures Handled(first, Do(s, step), pair, Do(s, step).pass.todo)
  {
    if pair !in s.pass.todo {
      StepOnServices(s, step);
    } else if !(step.RemoveExpired? && step.pair == pair) {
      StepKeepsPair(s, step, pair);
    }
  }

  lemma {:induction false} ExpiredHandled(states: seq<Registry>, steps: seq<Step>, j: nat, k: nat, pair: string)
    requires IsRun(states, steps) && j < k < |states| && steps[j].ScanExpired? && WithinStage(steps, j + 1, k)
    requires pair in states[j].pairs && LongUnrefreshed(states[j], pair)
    ensures states[k].pass.RemovingExpired? && Handled(states[j], states[k], pair, states[k].pass.todo)
  {
    if k > j + 1 {
      ExpiredHandled(states, steps, j, k - 1, pair);
      RunInv(states, steps, k - 1);
      StepKeepsExpiredHandled(states[j], states[k - 1], steps[k - 1], pair);
    }
  }

  /** Nor anything expired: when a pass ends, every service that had gone 5400 s without a refresh at its scan has been
      stopped. */
  lemma ExpiredAllRemoved(states: seq<Registry>, steps: seq<Step>, k: nat) returns (j: nat)
    requires IsRun(states, steps) && k < |steps| && steps[k].PassEnd?
    ensures j < k && steps[j].ScanExpired? && WithinStage(steps, j + 1, k)
    ensures forall pair :: pair in states[j].pairs &&
                           states[j].services[states[j].pairs[pair]].refreshed + 5400 * 1000 <= states[j].now ==>
              && states[j].pairs[pair] < |states[k].services|
              && states[k].services[states[j].pairs[pair]].stopped
  {
    j := ExpiredStage(states, steps, k);
    forall pair | pair in states[j].pairs && LongUnrefreshed(states[j], pair)
      ensures states[j].pairs[pair] < |states[k].services| && states[k].services[states[j].pairs[pair]].stopped
    {
      ExpiredHandled(states, steps, j, k, pair);
    }
  }

  // ----- what a pass does not protect, and exactly when

  predicate Renews(step: Step, pair: string) {
    step.Update? && IpPair(step.localIp, step.remoteIp) == pair
  }

  // Step i maps a symbol to the pair and no later step before k maps that symbol elsewhere.
  predicate TakesUp(steps: seq<Step>, i: nat, k: nat, pair: string)
    requires i < k <= |steps|
  {
    && Renews(steps[i], pair)
    && forall n :: i < n < k && steps[n].Update? && steps[n].symbol == steps[i].symbol ==> Renews(steps[n], pair)
  }

  predicate Mapped(s: Registry, symbol: string, pair: string) {
    symbol in s.symbols && s.symbols[symbol] == pair
  }

  lemma StepOnMapping(s: Registry, step: Step, symbol: string, pair: string)
    requires WellIndexed(s) && Enabled(s, step)
    ensures Mapped(Do(s, step), symbol, pair) <==>
            if step.Update? && step.symbol == symbol then Renews(step, pair) else Mapped(s, symbol, pair)
  {}

  // A symbol that maps to the pair at k but did not at j was moved there by a step in between.
  lemma {:induction false} MappedSince(
    states: seq<Registry>, steps: seq<Step>, j: nat, k: nat, pair: string, symbol: string) returns (i: nat)
    requires IsRun(states, steps) && j <= k < |states| && Mapped(states[k], symbol, pair)
    requires !Mapped(states[j], symbol, pair)
    ensures j <= i < k && TakesUp(steps, i, k, pair) && steps[i].symbol == symbol
  {
    StepOnMapping(states[k - 1], steps[k - 1], symbol, pair);
    if steps[k - 1].Update? && steps[k - 1].symbol == symbol {
      i := k - 1;
    } else {
      i := MappedSince(states, steps, j, k - 1, pair, symbol);
    }
  }

  lemma {:induction false} TakenUpStays(states: seq<Registry>, steps: seq<Step>, i: nat, k: nat, pair: string)
    requires IsRun(states, steps) && i < k < |states| && TakesUp(steps, i, k, pair)
    ensures Mapped(states[k], steps[i].symbol, pair)
  {
    StepOnMapping(states[k - 1], steps[k - 1], steps[i].symbol, pair);
    if i + 1 < k {
      assert TakesUp(steps, i, k - 1, pair);
      TakenUpStays(states, steps, i, k - 1, pair);
    }
  }

  /** A symbol maps to a pair if and only if some update put it there and none has moved it since. */
  lemma MappedExactlyWhen(states: seq<Registry>, steps: seq<Step>, k: nat, symbol: string, pair: string)
    requires IsRun(states, steps) && k < |states|
    ensures (symbol in states[k].symbols && states[k].symbols[symbol] == pair) <==>
            exists i :: 0 <= i < k && TakesUp(steps, i, k, pair) && steps[i].symbol == symbol
  {
    if Mapped(states[k], symbol, pair) {
      var i := MappedSince(states, steps, 0, k, pair, symbol);
    }
    if i :| 0 <= i < k && TakesUp(steps, i, k, pair) && steps[i].symbol == symbol {
      TakenUpStays(states, steps, i, k, pair);
    }
  }

  // The thread does nothing more on its lookup from step j up to step k.
  predicate LookupPending(steps: seq<Step>, j: nat, k: nat, l: nat)
    requires k <= |steps|
  {
    forall n :: j <= n < k ==> !(steps[n].LookUpKey? && steps[n].l == l) && !(steps[n].LookUpValue? && steps[n].l == l)
  }

  lemma {:induction false} KeyTraced(states: seq<Registry>, steps: seq<Step>, k: nat, l: nat) returns (j: nat)
    requires IsRun(states, steps) && k < |states| && l < |states[k].lookups| && states[k].lookups[l].HaveKey?
    ensures j < k && steps[j].LookUpKey? && steps[j].l == l && LookupPending(steps, j + 1, k, l)
    ensures Mapped(states[j], steps[j].symbol, states[k].lookups[l].pair)
  {
    if steps[k - 1].LookUpKey? && steps[k - 1].l == l {
      j := k - 1;
    } else {
      j := KeyTraced(states, steps, k - 1, l);
    }
  }

  /** A lookup finds exactly the service registered, at its second lock section, under the pair its symbol was last
      mapped to before its first. */
  lemma LookupFindsMapped(states: seq<Registry>, steps: seq<Step>, k: nat) returns (j: nat, pair: string)
    requires IsRun(states, steps) && k < |steps| && steps[k].LookUpValue?
    ensures j < k && steps[j].LookUpKey? && steps[j].l == steps[k].l && LookupPending(steps, j + 1, k, steps[k].l)
    ensures exists i :: 0 <= i < j && TakesUp(steps, i, j, pair) && steps[i].symbol == steps[j].symbol
    ensures states[k + 1].found ==
            if pair in states[k].pairs then states[k].found + [states[k].pairs[pair]] else states[k].found
  {
    j := KeyTraced(states, steps, k, steps[k].l);
    pair := states[k].lookups[steps[k].l].pair;
    MappedExactlyWhen(states, steps, j, steps[j].symbol, pair);
  }

  /** A pass removes a pair in use exactly when some symbol was moved to the pair after the mapping snapshot and not
      moved away again before the removal. */
  lemma DropsPairInUseExactlyWhen(states: seq<Registry>, steps: seq<Step>, j: nat, k: nat)
    requires IsRun(states, steps) && j < k < |steps|
    requires steps[j].SnapshotMapping? && steps[k].RemoveUnused? && WithinStage(steps, j + 1, k)
    ensures var pair := steps[k].pair;
            (exists symbol :: Mapped(states[k], symbol, pair)) <==> exists i :: j < i < k && TakesUp(steps, i, k, pair)
  {
    var pair := steps[k].pair;
    var began, snapshot := UnusedRemovalJustified(states, steps, k);
    assert snapshot == j;
    if symbol :| Mapped(states[k], symbol, pair) {
      var i := MappedSince(states, steps, j, k, pair, symbol);
    }
    if i :| j < i < k && TakesUp(steps, i, k, pair) {
      TakenUpStays(states, steps, i, k, pair);
    }
  }

  function Refreshed(s: Registry, pair: string): nat
    requires WellIndexed(s) && pair in s.pairs
  {
    s.services[s.pairs[pair]].refreshed
  }

  // A pair holding the service it held earlier has held it all along: a new service would have a new number.
  lemma HeldBefore(states: seq<Registry>, steps: seq<Step>, j: nat, k: nat, pair: string)
    requires IsRun(states, steps) && j < k < |states| && StillThere(states[j], states[k], pair)
    ensures StillThere(states[j], states[k - 1], pair)
  {
    NewServicesAreLater(states, steps, j, k - 1);
    assert states[j].pairs[pair] < |states[j].services|;
    assert states[k] == Do(states[k - 1], steps[k - 1]);
  }

  lemma {:induction false} HeldThroughout(
    states: seq<Registry>, steps: seq<Step>, j: nat, i: nat, k: nat, pair: string)
    requires IsRun(states, steps) && j <= i <= k < |states| && StillThere(states[j], states[k], pair)
    ensures StillThere(states[j], states[i], pair) && StillThere(states[i], states[k], pair)
  {
    if i < k {
      HeldBefore(states, steps, j, k, pair);
      HeldThroughout(states, steps, j, i, k - 1, pair);
    }
  }

  lemma LastRefresh(states: seq<Registry>, steps: seq<Step>, k: nat, pair: string)
    requires IsRun(states, steps) && 0 < k < |steps| && StillThere(states[k - 1], states[k], pair)
    ensures Refreshed(states[k], pair) ==
            if Renews(steps[k - 1], pair) then states[k - 1].now else Refreshed(states[k - 1], pair)
  {
    RunInv(states, steps, k - 1);
  }

  lemma RefreshOfStep(states: seq<Registry>, steps: seq<Step>, j: nat, k: nat, pair: string)
    requires IsRun(states, steps) && j < k < |steps| && StillThere(states[j], states[k], pair)
    ensures StillThere(states[j], states[k - 1], pair)
    ensures Refreshed(states[k], pair) ==
            if Renews(steps[k - 1], pair) then states[k - 1].now else Refreshed(states[k - 1], pair)
  {
    HeldBefore(states, steps, j, k, pair);
    LastRefresh(states, steps, k, pair);
  }

  // A refresh time that changed since state j is that of an update of the pair.
  lemma {:induction false} RefreshedSince(states: seq<Registry>, steps: seq<Step>, j: nat, k: nat, pair: string)
    returns (i: nat)
    requires IsRun(states, steps) && j <= k < |steps| && StillThere(states[j], states[k], pair)
    requires Refreshed(states[k], pair) != Refreshed(states[j], pair)
    ensures j <= i < k && Renews(steps[i], pair) && states[i].now == Refreshed(states[k], pair)
  {
    RefreshOfStep(states, steps, j, k, pair);
    if Renews(steps[k - 1], pair) {
      i := k - 1;
    } else {
      i := RefreshedSince(states, steps, j, k - 1, pair);
    }
  }

  // And no update of the pair since is later than the refresh time.
  lemma {:induction false} RefreshedAfter(states: seq<Registry>, steps: seq<Step>, i: nat, k: nat, pair: string)
    requires IsRun(states, steps) && i < k < |steps| && StillThere(states[i], states[k], pair) && Renews(steps[i], pair)
    ensures states[i].now <= Refreshed(states[k], pair)
  {
    RefreshOfStep(states, steps, i, k, pair);
    NewServicesAreLater(states, steps, i, k - 1);
    if i < k - 1 && !Renews(steps[k - 1], pair) {
      RefreshedAfter(states, steps, i, k - 1, pair);
    }
  }

  // Step i updates the pair, less than 5400 s before state k.
  predicate RenewedLate(states: seq<Registry>, steps: seq<Step>, i: nat, k: nat, pair: string)
    requires i < |steps| && i < |states| && k < |states|
  {
    Renews(steps[i], pair) && states[k].now < states[i].now + EXPIRED_MILLIS
  }

  // What the scan at step j saw of the service removed at step k.
  lemma ScannedExpired(states: seq<Registry>, steps: seq<Step>, j: nat, k: nat)
    requires IsRun(states, steps) && j < k < |steps|
    requires steps[j].ScanExpired? && steps[k].RemoveExpired? && WithinStage(steps, j + 1, k)
    ensures StillThere(states[j], states[k], steps[k].pair) && LongUnrefreshed(states[j], steps[k].pair)
  {
    var scan := ExpiredStage(states, steps, k);
    assert scan == j;
  }

  /** A pass removes as expired a service that is not, exactly when the service's pair was updated between the scan and
      the removal and less than 5400 s before the removal. */
  lemma DropsRefreshedExactlyWhen(states: seq<Registry>, steps: seq<Step>, j: nat, k: nat)
    requires IsRun(states, steps) && j < k < |steps|
    requires steps[j].ScanExpired? && steps[k].RemoveExpired? && WithinStage(steps, j + 1, k)
    ensures steps[k].pair in states[k].pairs
    ensures !LongUnrefreshed(states[k], steps[k].pair) <==>
            exists i :: j < i < k && RenewedLate(states, steps, i, k, steps[k].pair)
  {
    var pair := steps[k].pair;
    ScannedExpired(states, steps, j, k);
    if !LongUnrefreshed(states[k], pair) {
      var i := FreshIsRenewed(states, steps, j, k, pair);
    }
    if i :| j < i < k && RenewedLate(states, steps, i, k, pair) {
      RenewalShows(states, steps, j, i, k, pair);
    }
  }

  lemma FreshIsRenewed(states: seq<Registry>, steps: seq<Step>, j: nat, k: nat, pair: string) returns (i: nat)
    requires IsRun(states, steps) && j < k < |steps| && StillThere(states[j], states[k], pair)
    requires LongUnrefreshed(states[j], pair) && !LongUnrefreshed(states[k], pair)
    ensures j <= i < k && RenewedLate(states, steps, i, k, pair)
  {
    NewServicesAreLater(states, steps, j, k);
    i := RefreshedSince(states, steps, j, k, pair);
  }

  lemma RenewalShows(states: seq<Registry>, steps: seq<Step>, j: nat, i: nat, k: nat, pair: string)
    requires IsRun(states, steps) && j < i < k < |steps| && StillThere(states[j], states[k], pair)
    requires RenewedLate(states, steps, i, k, pair)
    ensures !LongUnrefreshed(states[k], pair)
  {
    HeldThroughout(states, steps, j, i, k, pair);
    RefreshedAfter(states, steps, i, k, pair);
  }

  // ----- both happen

  function Fresh(): Registry {
    Registry(0, map[], map[], [], [], [], Sleeping)
  }

  predicate Next(s: Registry, step: Step, t: Registry) {
    WellIndexed(s) && Enabled(s, step) && t == Do(s, step) && WellIndexed(t)
  }

  lemma PathIsRun(states: seq<Registry>, steps: seq<Step>)
    requires IsPath(Next, states, steps) && Init(states[0])
    ensures IsRun(states, steps)
  {
    forall k | 0 <= k < |steps|
      ensures WellIndexed(states[k]) && Enabled(states[k], steps[k]) && states[k + 1] == Do(states[k], steps[k])
    {
      assert Next(states[k], steps[k], states[k + 1]);
    }
    forall k | 0 <= k < |states| ensures WellIndexed(states[k]) {
      if k > 0 { assert Next(states[k - 1], steps[k - 1], states[k]); }
    }
  }

  /** A pair taken up again after the mapping snapshot is removed, leaving its symbol without a service. */
  lemma PassDropsPairInUse() returns (states: seq<Registry>, steps: seq<Step>)
    ensures IsRun(states, steps) && |steps| == 6 && steps[3].SnapshotMapping? && steps[5].RemoveUnused?
    ensures Mapped(states[5], "S", steps[5].pair) && steps[5].pair in states[5].pairs
    ensures Mapped(states[6], "S", steps[5].pair) && steps[5].pair !in states[6].pairs
  {
    var moves, moveSteps := FirstMoves();
    var pass, passSteps := Snapshots();
    var rest, restSteps := RemovesAnyway();
    PathsJoin(Next, moves, moveSteps, pass, passSteps);
    states, steps := moves + pass[1..], moveSteps + passSteps;
    PathsJoin(Next, states, steps, rest, restSteps);
    states, steps := states + rest[1..], steps + restSteps;
    PathIsRun(states, steps);
  }

  // One symbol moved from its first pair to a second one.
  function TwoPairs(): Registry {
    Registry(0, map["S" := IpPair("l", "2")], map[IpPair("l", "1") := 0, IpPair("l", "2") := 1],
             [Service(0, 0, false), Service(0, 0, false)], [], [], Sleeping)
  }

  // A pass about to remove the first pair as unused.
  function PassUnderWay(): Registry {
    TwoPairs().(pass := RemovingUnused({IpPair("l", "1")}))
  }

  lemma FirstMoves() returns (path: seq<Registry>, steps: seq<Step>)
    ensures IsPath(Next, path, steps) && |steps| == 2 && path[0] == Fresh() && path[2] == TwoPairs()
  {
    var first, second := IpPair("l", "1"), IpPair("l", "2");
    assert first[2] == '1' && second[2] == '2';
    var s1 := Registry(0, map["S" := first], map[first := 0], [Service(0, 0, false)], [], [], Sleeping);
    steps := [Update("S", "l", "1"), Update("S", "l", "2")];
    assert s1 == Do(Fresh(), steps[0]) && TwoPairs() == Do(s1, steps[1]);
    path := [Fresh(), s1, TwoPairs()];
  }

  lemma Snapshots() returns (path: seq<Registry>, steps: seq<Step>)
    ensures IsPath(Next, path, steps) && steps == [SnapshotPairs, SnapshotMapping]
    ensures path[0] == TwoPairs() && path[2] == PassUnderWay()
  {
    var first, second := IpPair("l", "1"), IpPair("l", "2");
    assert first[2] == '1' && second[2] == '2';
    var s2 := TwoPairs();
    assert s2.pairs.Keys == {first, second};
    assert s2.symbols["S"] == second && s2.symbols.Values == {second};
    var s3 := s2.(pass := HavePairs({first, second}));
    assert {first, second} - {second} == {first};
    steps := [SnapshotPairs, SnapshotMapping];
    assert s3 == Do(s2, steps[0]) && PassUnderWay() == Do(s3, steps[1]);
    path := [s2, s3, PassUnderWay()];
  }

  lemma RemovesAnyway() returns (path: seq<Registry>, steps: seq<Step>)
    ensures IsPath(Next, path, steps) && steps == [Update("S", "l", "1"), RemoveUnused(IpPair("l", "1"))]
    ensures path[0] == PassUnderWay()
    ensures var pair := IpPair("l", "1");
            && Mapped(path[1], "S", pair) && pair in path[1].pairs
            && Mapped(path[2], "S", pair) && pair !in path[2].pairs
  {
    var s4, pair := PassUnderWay(), IpPair("l", "1");
    steps := [Update("S", "l", "1"), RemoveUnused(pair)];
    var s5 := Do(s4, steps[0]);
    path := [s4, s5, Do(s5, steps[1])];
  }

  // One service, mapped, refreshed so long ago that a scan lists it.
  function OneOld(pass: Pass, refreshed: nat): Registry {
    Registry(EXPIRED_MILLIS, map["S" := IpPair("l", "1")], map[IpPair("l", "1") := 0], [Service(0, refreshed, false)],
             [], [], pass)
  }

  /** A service refreshed after the scan for expired ones is stopped at that very moment, leaving its symbol without. */
  lemma PassDropsFreshService() returns (states: seq<Registry>, steps: seq<Step>)
    ensures IsRun(states, steps) && |steps| == 7 && steps[4].ScanExpired? && steps[6].RemoveExpired?
    ensures var pair := steps[6].pair;
            && Mapped(states[6], "S", pair) && pair in states[6].pairs && !LongUnrefreshed(states[6], pair)
            && Mapped(states[7], "S", pair) && pair !in states[7].pairs
  {
    var aging, agingSteps := AgeUntouched();
    var pass, passSteps := NothingUnused();
    var rest, restSteps := RefreshedTooLate();
    PathsJoin(Next, aging, agingSteps, pass, passSteps);
    states, steps := aging + pass[1..], agingSteps + passSteps;
    PathsJoin(Next, states, steps, rest, restSteps);
    states, steps := states + rest[1..], steps + restSteps;
    PathIsRun(states, steps);
  }

  lemma AgeUntouched() returns (path: seq<Registry>, steps: seq<Step>)
    ensures IsPath(Next, path, steps) && |steps| == 2 && path[0] == Fresh() && path[2] == OneOld(Sleeping, 0)
  {
    var s1, s2 := OneOld(Sleeping, 0).(now := 0), OneOld(Sleeping, 0);
    steps := [Update("S", "l", "1"), Tick(EXPIRED_MILLIS)];
    assert s1 == Do(Fresh(), steps[0]) && s2 == Do(s1, steps[1]);
    path := [Fresh(), s1, s2];
  }

  lemma NothingUnused() returns (path: seq<Registry>, steps: seq<Step>)
    ensures IsPath(Next, path, steps) && |steps| == 2
    ensures path[0] == OneOld(Sleeping, 0) && path[2] == OneOld(RemovingUnused({}), 0)
  {
    var s2, pair := OneOld(Sleeping, 0), IpPair("l", "1");
    assert s2.pairs.Keys == {pair};
    assert s2.symbols["S"] == pair && s2.symbols.Values == {pair};
    var s3, s4 := OneOld(HavePairs({pair}), 0), OneOld(RemovingUnused({}), 0);
    assert {pair} - {pair} == {};
    steps := [SnapshotPairs, SnapshotMapping];
    assert s3 == Do(s2, steps[0]) && s4 == Do(s3, steps[1]);
    path := [s2, s3, s4];
  }

  lemma RefreshedTooLate() returns (path: seq<Registry>, steps: seq<Step>)
    ensures IsPath(Next, path, steps) && steps == [ScanExpired, Update("S", "l", "1"), RemoveExpired(IpPair("l", "1"))]
    ensures path[0] == OneOld(RemovingUnused({}), 0)
    ensures var pair := IpPair("l", "1");
            && Mapped(path[2], "S", pair) && pair in path[2].pairs
            && WellIndexed(path[2]) && !LongUnrefreshed(path[2], pair)
            && Mapped(path[3], "S", pair) && pair !in path[3].pairs
  {
    var s4, pair := OneOld(RemovingUnused({}), 0), IpPair("l", "1");
    var s5, s6 := OneOld(RemovingExpired({pair}), 0), OneOld(RemovingExpired({pair}), EXPIRED_MILLIS);
    assert s5.pass.todo == set p | p in s4.pairs && LongUnrefreshed(s4, p);
    steps := [ScanExpired, Update("S", "l", "1"), RemoveExpired(pair)];
    assert s5 == Do(s4, steps[0]) && s6 == Do(s5, steps[1]);
    path := [s4, s5, s6, Do(s6, steps[2])];
  }
}

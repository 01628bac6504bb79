/** Order services kept per address pair and the best pair per symbol (src/trader/service_container.cpp), each method
    tied to the step it is in RegistryRuns. */
module ServiceRegistry {
  import opened Options
  import opened RegistryRuns

  class WsClientWrapper {
    var hasInitStarted: bool
    var isStopped: bool
    var updateTimeMillis: nat

    constructor ()
      ensures !hasInitStarted && !isStopped && updateTimeMillis == 0
    {
      hasInitStarted, isStopped, updateTimeMillis := false, false, 0;
    }

    predicate Running()
      reads this
    {
      hasInitStarted && !isStopped
    }

    // A wrapper that was started once is never started again, even after a stop.
    method Start()
      modifies `hasInitStarted, `isStopped
      ensures hasInitStarted && isStopped == (old(isStopped) && old(hasInitStarted))
    {
      if hasInitStarted {
        return;
      }
      isStopped := false;
      hasInitStarted := true;
    }

    method Stop()
      modifies `isStopped
      ensures isStopped
    {
      isStopped := true;
    }
  }

  class OrderServiceManager {
    var symbolBestIpPair: map<string, string>
    var ipPairService: map<string, WsClientWrapper>
    ghost var started: seq<WsClientWrapper>
    ghost var services: seq<Service>
    ghost var numbers: map<string, nat>

    /** The registry this object stands for, no pass or lookup being under way. */
    ghost function Value(now: nat): Registry
      reads this
    {
      Registry(now, symbolBestIpPair, numbers, services, [], [], Sleeping)
    }

    // Wrapper i, the i-th ever started, is service i, and pairs are registered under the numbers of their wrappers.
    ghost predicate Linked()
      reads this, started
    {
      && |services| == |started| && numbers.Keys == ipPairService.Keys
      && (forall i, j :: 0 <= i < j < |started| ==> started[i] != started[j])
      && (forall i :: 0 <= i < |started| ==>
            && started[i].hasInitStarted
            && services[i].refreshed == started[i].updateTimeMillis && services[i].stopped == started[i].isStopped)
      && (forall pair :: pair in numbers ==> numbers[pair] < |started| && ipPairService[pair] == started[numbers[pair]])
    }

    /** Of all wrappers ever started, exactly the registered ones run; no two pairs share one. */
    ghost predicate Valid()
      reads this, started
    {
      Linked() && RegisteredIffRunning(Value(0)) && forall s :: s in symbolBestIpPair ==> symbolBestIpPair[s] != ""
    }

    constructor ()
      ensures Valid() && started == [] && Init(Value(0))
    {
      symbolBestIpPair, ipPairService, started, services, numbers := map[], map[], [], [], map[];
    }

    method UpdateBestService(symbol: string, localIp: string, remoteIp: string, candidate: WsClientWrapper, now: nat)
      returns (newService: bool)
      requires Valid() && !candidate.hasInitStarted && candidate !in started
      modifies this, started, candidate
      ensures Valid() && Value(now) == Do(old(Value(now)), Update(symbol, localIp, remoteIp))
      ensures newService == (IpPair(localIp, remoteIp) !in old(ipPairService))
      ensures started == if newService then old(started) + [candidate] else old(started)
    {
      ghost var after := UpdatedRunning(Value(0), now, symbol, localIp, remoteIp);
      var pair := IpPair(localIp, remoteIp);
      newService := pair !in ipPairService;
      if newService {
        Register(pair, candidate, now);
      } else {
        Refresh(pair, now);
      }
      symbolBestIpPair := symbolBestIpPair[symbol := pair];
      assert Value(0) == after;
    }

    method Register(pair: string, candidate: WsClientWrapper, now: nat)
      requires Linked() && pair !in ipPairService && !candidate.hasInitStarted && candidate !in started
      modifies `ipPairService, `numbers, `started, `services, candidate
      ensures Linked() && started == old(started) + [candidate]
      ensures ipPairService == old(ipPairService)[pair := candidate]
      ensures numbers == old(numbers)[pair := |old(started)|] && services == old(services) + [Service(now, now, false)]
    {
      candidate.updateTimeMillis := now;
      candidate.Start();
      ipPairService := ipPairService[pair := candidate];
      numbers := numbers[pair := |started|];
      started := started + [candidate];
      services := services + [Service(now, now, false)];
    }

    method Refresh(pair: string, now: nat)
      requires Linked() && pair in ipPairService
      modifies `services, started
      ensures Linked()
      ensures services == old(services)[numbers[pair] := old(services)[numbers[pair]].(refreshed := now)]
    {
      ipPairService[pair].updateTimeMillis := now;
      services := services[numbers[pair] := services[numbers[pair]].(refreshed := now)];
    }

    method FindBestService(symbol: string) returns (service: Option<WsClientWrapper>)
      requires Valid()
      ensures service.Some? <==> symbol in symbolBestIpPair && symbolBestIpPair[symbol] in ipPairService
      ensures service.Some? ==> service.value == ipPairService[symbolBestIpPair[symbol]] && service.value.Running()
    {
      var pair := "";
      if symbol in symbolBestIpPair {
        pair := symbolBestIpPair[symbol];
      }
      if |pair| == 0 {
        return None;
      }
      if pair !in ipPairService {
        return None;
      }
      assert Registered(Value(0), numbers[pair]);
      service := Some(ipPairService[pair]);
    }

    method StopAndRemoveService(pair: string)
      requires Valid()
      modifies this, started
      ensures Valid() && started == old(started) && Value(0) == StopAndRemove(old(Value(0)), pair)
    {
      RemovalKeepsRunning(Value(0), pair);
      ghost var after := StopAndRemove(Value(0), pair);
      if pair in ipPairService {
        Unregister(pair);
      }
      assert Value(0) == after;
    }

    method Unregister(pair: string)
      requires Linked() && pair in ipPairService
      modifies `ipPairService, `numbers, `services, started
      ensures Linked() && ipPairService == old(ipPairService) - {pair} && numbers == old(numbers) - {pair}
      ensures services == old(services)[old(numbers)[pair] := old(services)[old(numbers)[pair]].(stopped := true)]
    {
      if !ipPairService[pair].isStopped {
        ipPairService[pair].Stop();
      }
      services := services[numbers[pair] := services[numbers[pair]].(stopped := true)];
      ipPairService := ipPairService - {pair};
      numbers := numbers - {pair};
    }

    // One undisturbed round of service_zookeeper_processor.
    method CollectionPass(now: nat)
      requires Valid()
      modifies this, started
      ensures Valid() && symbolBestIpPair == old(symbolBestIpPair) && started == old(started)
      ensures forall pair ::
        pair in ipPairService <==> pair in old(ipPairService) && pair in symbolBestIpPair.Values
                                   && old(ipPairService)[pair].updateTimeMillis + EXPIRED_MILLIS > now
      ensures forall pair :: pair in ipPairService ==> ipPairService[pair] == old(ipPairService)[pair]
    {
      var unused := ipPairService.Keys - symbolBestIpPair.Values;
      RemoveAll(unused);
      var expired := set pair | pair in ipPairService && ipPairService[pair].updateTimeMillis + EXPIRED_MILLIS <= now;
      RemoveAll(expired);
    }

    method RemoveAll(pairs: set<string>)
      requires Valid()
      modifies this, started
      ensures Valid() && started == old(started) && Less(old(Value(0)), Value(0), pairs)
    {
      var todo := pairs;
      while todo != {}
        invariant Valid() && todo <= pairs && started == old(started)
        invariant Less(old(Value(0)), Value(0), pairs - todo)
        decreases todo
      {
        var pair :| pair in todo;
        LessOne(old(Value(0)), Value(0), pairs, todo, pair);
        StopAndRemoveService(pair);
        todo := todo - {pair};
      }
      assert pairs - {} == pairs;
    }
  }

  // Which services are registered and which run has nothing to do with the time.
  lemma RunningWhenever(s: Registry, now: nat)
    requires RegisteredIffRunning(s)
    ensures RegisteredIffRunning(s.(now := now))
  {
    var t := s.(now := now);
    assert forall id: nat :: Registered(t, id) == Registered(s, id);
  }

  lemma UpdatedRunning(s: Registry, now: nat, symbol: string, localIp: string, remoteIp: string) returns (t: Registry)
    requires RegisteredIffRunning(s)
    ensures var pair := IpPair(localIp, remoteIp);
            && t.symbols == s.symbols[symbol := pair]
            && t.services == (if pair in s.pairs
                              then s.services[s.pairs[pair] := s.services[s.pairs[pair]].(refreshed := now)]
                              else s.services + [Service(now, now, false)])
            && t.pairs == (if pair in s.pairs then s.pairs else s.pairs[pair := |s.services|])
            && t.(now := now) == Do(s.(now := now), Update(symbol, localIp, remoteIp)) && t.now == s.now
            && t.lookups == s.lookups && t.found == s.found && t.pass == s.pass
    ensures RegisteredIffRunning(t)
  {
    RunningWhenever(s, now);
    UpdateKeepsRunning(s.(now := now), Update(symbol, localIp, remoteIp));
    t := Do(s.(now := now), Update(symbol, localIp, remoteIp)).(now := s.now);
    RunningWhenever(Do(s.(now := now), Update(symbol, localIp, remoteIp)), s.now);
  }

  /** A registry from which some pairs are gone, all else but the stop flags as before. */
  predicate Less(before: Registry, after: Registry, gone: set<string>) {
    && after.pairs == before.pairs - gone && after.symbols == before.symbols && |after.services| == |before.services|
    && forall i :: 0 <= i < |after.services| ==> after.services[i].refreshed == before.services[i].refreshed
  }

  lemma LessOne(before: Registry, s: Registry, pairs: set<string>, todo: set<string>, pair: string)
    requires WellIndexed(s) && Less(before, s, pairs - todo) && pair in todo && todo <= pairs
    ensures Less(before, StopAndRemove(s, pair), pairs - (todo - {pair}))
  {
    assert before.pairs - (pairs - (todo - {pair})) == (before.pairs - (pairs - todo)) - {pair};
    assert pair !in s.pairs ==> s.pairs - {pair} == s.pairs;
  }
}

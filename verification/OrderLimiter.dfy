/** The two-window order limiter and the boss that holds one for the account and one per local IP
    (src/trader/order_limiter.cpp). */
module OrderLimiter {
  import opened TokenWindow

  /** The "second" window spans ten seconds and the "minute" window one minute. */
  datatype Limiter = Limiter(second: Window, minute: Window) {

    function ResetIfCycleEnd(now: nat): Limiter {
      Limiter(second.ResetIfCycleEnd(now), minute.ResetIfCycleEnd(now))
    }

    predicate Has(n: int) {
      second.remain >= n && minute.remain >= n
    }

    function Take(n: int): Limiter {
      Limiter(second.Take(n), minute.Take(n))
    }

    function GiveBack(n: int): Limiter {
      Limiter(second.GiveBack(n), minute.GiveBack(n))
    }
  }

  function Fresh(secondCount: int, secondMillis: nat, minuteCount: int, minuteMillis: nat, now: nat): Limiter {
    Limiter(Window(secondCount, secondCount, secondMillis, now), Window(minuteCount, minuteCount, minuteMillis, now))
  }

  class AutoResetOrderLimiter {
    var second: Window
    var minute: Window

    function Value(): Limiter
      reads this
    {
      Limiter(second, minute)
    }

    constructor (secondCount: int, secondMillis: nat, minuteCount: int, minuteMillis: nat, now: nat)
      ensures Value() == Fresh(secondCount, secondMillis, minuteCount, minuteMillis, now)
    {
      second := Window(secondCount, secondCount, secondMillis, now);
      minute := Window(minuteCount, minuteCount, minuteMillis, now);
    }

    method ResetIfCycleEnd(now: nat)
      modifies this
      ensures Value() == old(Value()).ResetIfCycleEnd(now)
    {
      if second.latestReset + second.duration <= now {
        second := second.(remain := second.init, latestReset := now);
      }
      if minute.latestReset + minute.duration <= now {
        minute := minute.(remain := minute.init, latestReset := now);
      }
    }

    method GetOrderSemaphore(require: int) returns (granted: bool)
      modifies this
      ensures granted == old(Value()).Has(require)
      ensures Value() == if granted then old(Value()).Take(require) else old(Value())
    {
      if second.remain >= require && minute.remain >= require {
        second := second.(remain := second.remain - require);
        minute := minute.(remain := minute.remain - require);
        return true;
      }
      return false;
    }

    method ReturnOrderSemaphore(n: int)
      modifies this
      ensures Value() == old(Value()).GiveBack(n)
    {
      if second.remain + n <= second.init {
        second := second.(remain := second.remain + n);
      }
      if minute.remain + n <= minute.init {
        minute := minute.(remain := minute.remain + n);
      }
    }
  }

  class AutoResetOrderLimiterBoss {
    const maxCapacity: int
    const account: AutoResetOrderLimiter
    var ips: map<string, AutoResetOrderLimiter>

    ghost predicate Valid()
      reads this
    {
      && (forall ip :: ip in ips ==> ips[ip] != account)
      && (forall p, q :: p in ips && q in ips && p != q ==> ips[p] != ips[q])
    }

    constructor (maxCapacity: int, secondCount: int, secondMillis: nat, minuteCount: int, minuteMillis: nat, now: nat)
      ensures Valid() && ips == map[] && fresh(account) && this.maxCapacity == maxCapacity
      ensures account.Value() == Fresh(secondCount, secondMillis, minuteCount, minuteMillis, now)
    {
      this.maxCapacity := maxCapacity;
      account := new AutoResetOrderLimiter(secondCount, secondMillis, minuteCount, minuteMillis, now);
      ips := map[];
    }

    // One sweep of the refresh thread, under the exclusive lock.
    method RefreshAll(now: nat)
      requires Valid()
      modifies account, ips.Values
      ensures account.Value() == old(account.Value()).ResetIfCycleEnd(now)
      ensures forall ip :: ip in ips ==> ips[ip].Value() == old(ips[ip].Value()).ResetIfCycleEnd(now)
    {
      account.ResetIfCycleEnd(now);
      var todo := ips.Keys;
      while todo != {}
        invariant todo <= ips.Keys
        invariant account.Value() == old(account.Value()).ResetIfCycleEnd(now)
        invariant forall ip :: ip in ips ==>
          ips[ip].Value() == if ip in todo then old(ips[ip].Value()) else old(ips[ip].Value()).ResetIfCycleEnd(now)
        decreases todo
      {
        var ip :| ip in todo;
        ips[ip].ResetIfCycleEnd(now);
        todo := todo - {ip};
      }
    }

    method CreateIpLimiter(
      ip: string, secondCount: int, secondMillis: nat, minuteCount: int, minuteMillis: nat, now: nat)
      returns (created: bool)
      requires Valid()
      modifies this
      ensures Valid()
      ensures created == (ip !in old(ips) && |old(ips)| < maxCapacity)
      ensures !created ==> ips == old(ips)
      ensures created ==>
        && ip in ips && fresh(ips[ip]) && ips == old(ips)[ip := ips[ip]]
        && ips[ip].Value() == Fresh(secondCount, secondMillis, minuteCount, minuteMillis, now)
    {
      var count := |ips|;
      if ip in ips {
        return false;
      }
      if count >= maxCapacity {
        return false;
      }
      var limiter := new AutoResetOrderLimiter(secondCount, secondMillis, minuteCount, minuteMillis, now);
      ips := ips[ip := limiter];
      return true;
    }

    // Account stage first; a missing or refusing IP stage hands the account tokens back.
    method GetOrderSemaphore(ip: string, require: int) returns (hasAccount: bool, hasIp: bool)
      requires Valid()
      modifies account, ips.Values
      ensures hasAccount == old(account.Value()).Has(require)
      ensures hasIp == (hasAccount && ip in ips && old(ips[ip].Value()).Has(require))
      ensures account.Value() ==
        if hasIp then old(account.Value()).Take(require)
        else if hasAccount then old(account.Value()).Take(require).GiveBack(require)
        else old(account.Value())
      ensures forall other :: other in ips ==>
        ips[other].Value() == if hasIp && other == ip then old(ips[other].Value()).Take(require)
          else old(ips[other].Value())
    {
      hasAccount := account.GetOrderSemaphore(require);
      hasIp := false;
      if !hasAccount {
        return;
      }
      if ip !in ips {
        account.ReturnOrderSemaphore(require);
        return;
      }
      hasIp := ips[ip].GetOrderSemaphore(require);
      if !hasIp {
        account.ReturnOrderSemaphore(require);
      }
    }
  }
}

/** A token window that is refilled on a fixed cycle: the unit both the order limiter and the
    plain counter are made of (src/common/auto_reset_counter.cpp, src/trader/order_limiter.cpp). */
module TokenWindow {

  datatype Window = Window(init: int, remain: int, duration: nat, latestReset: nat) {

    predicate CycleEnded(now: nat) {
      latestReset + duration <= now
    }

    function ResetIfCycleEnd(now: nat): Window {
      if CycleEnded(now) then this.(remain := init, latestReset := now) else this
    }

    function Take(n: int): Window {
      this.(remain := remain - n)
    }

    // A return that would overfill the window is dropped.
    function GiveBack(n: int): Window {
      if remain + n <= init then this.(remain := remain + n) else this
    }

    // The most tokens one cycle can hand out; a negative configured count hands out none.
    function Quota(): nat {
      if init < 0 then 0 else init
    }
  }

  /** What happened to a window, in order: tokens handed out, refills, and a new full window put in its place. A refill
      is stamped with a clock reading taken before it takes effect. */
  datatype Usage = Granted(at: nat, tokens: nat) | Reset(at: nat, stamp: nat) | Renewed(at: nat)

  function Used(trace: seq<Usage>): nat {
    if trace == [] || !trace[|trace| - 1].Granted? then 0
    else Used(trace[..|trace| - 1]) + trace[|trace| - 1].tokens
  }

  predicate EndsBy(trace: seq<Usage>, t: int) {
    trace == [] || trace[|trace| - 1].at <= t
  }

  // The last reset of the present window, if there was one, is stamped t or earlier.
  predicate LastResetBy(trace: seq<Usage>, t: int) {
    trace == [] ||
    match trace[|trace| - 1]
    case Reset(_, stamp) => stamp <= t
    case Renewed(_) => true
    case Granted(_, _) => LastResetBy(trace[..|trace| - 1], t)
  }

  // The same of the last reset of any window.
  predicate StampedBy(trace: seq<Usage>, t: int) {
    trace == [] ||
    var last := trace[|trace| - 1];
    if last.Reset? then last.stamp <= t else StampedBy(trace[..|trace| - 1], t)
  }

  /** Times never go back, resets of one window are stamped at least duration apart, and no cycle exceeds the quota. */
  predicate Lawful(trace: seq<Usage>, quota: nat, duration: nat) {
    trace == [] ||
    var front, last := trace[..|trace| - 1], trace[|trace| - 1];
    && Lawful(front, quota, duration)
    && EndsBy(front, last.at)
    && Used(trace) <= quota
    && (last.Reset? ==> LastResetBy(front, last.stamp - duration))
  }

  /** Stamps never go back either, and every reset takes effect at most lag after its stamp. */
  predicate Timely(trace: seq<Usage>, lag: nat) {
    trace == [] ||
    var front, last := trace[..|trace| - 1], trace[|trace| - 1];
    && Timely(front, lag)
    && (last.Reset? ==> StampedBy(front, last.stamp) && last.stamp <= last.at <= last.stamp + lag)
  }

  function GrantedIn(trace: seq<Usage>, from: nat, to: nat): nat {
    if trace == [] then 0
    else
      var last := trace[|trace| - 1];
      GrantedIn(trace[..|trace| - 1], from, to) + if last.Granted? && from <= last.at < to then last.tokens else 0
  }

  function ResetsIn(trace: seq<Usage>, from: nat, to: nat): nat {
    if trace == [] then 0
    else
      var last := trace[|trace| - 1];
      ResetsIn(trace[..|trace| - 1], from, to) + if last.Reset? && from <= last.at < to then 1 else 0
  }

  function RenewalsIn(trace: seq<Usage>, from: nat, to: nat): nat {
    if trace == [] then 0
    else
      var last := trace[|trace| - 1];
      RenewalsIn(trace[..|trace| - 1], from, to) + if last.Renewed? && from <= last.at < to then 1 else 0
  }

  function CeilDiv(a: nat, b: nat): nat
    requires b > 0
  {
    (a + b - 1) / b
  }

  lemma LastResetByWeaken(trace: seq<Usage>, t: int, u: int)
    requires LastResetBy(trace, t) && t <= u
    ensures LastResetBy(trace, u)
  {}

  lemma {:induction false} NothingBeforeInterval(trace: seq<Usage>, quota: nat, duration: nat, from: nat, to: nat)
    requires Lawful(trace, quota, duration) && EndsBy(trace, from - 1)
    ensures GrantedIn(trace, from, to) == 0 && ResetsIn(trace, from, to) == 0 && RenewalsIn(trace, from, to) == 0
  {
    if trace != [] {
      NothingBeforeInterval(trace[..|trace| - 1], quota, duration, from, to);
    }
  }

  /** Inside the interval every reset and every renewal buys at most one more quota. */
  lemma {:induction false} GrantsPerReset(trace: seq<Usage>, quota: nat, duration: nat, from: nat, to: nat)
    requires Lawful(trace, quota, duration)
    ensures var refills := ResetsIn(trace, from, to) + RenewalsIn(trace, from, to);
            && GrantedIn(trace, from, to) <= (refills + 1) * quota
            && (EndsBy(trace, to - 1) ==> GrantedIn(trace, from, to) <= refills * quota + Used(trace))
  {
    if trace != [] {
      var front, last := trace[..|trace| - 1], trace[|trace| - 1];
      GrantsPerReset(front, quota, duration, from, to);
      var r := ResetsIn(front, from, to) + RenewalsIn(front, from, to);
      assert (r + 1) * quota == r * quota + quota;
      assert (r + 2) * quota == (r + 1) * quota + quota;
      if last.at < from {
        NothingBeforeInterval(trace, quota, duration, from, to);
      }
    }
  }

  lemma StampedByWeaken(trace: seq<Usage>, t: int, u: int)
    requires StampedBy(trace, t) && t <= u
    ensures StampedBy(trace, u)
  {}

  lemma {:induction false} StampedImpliesReset(trace: seq<Usage>, t: int)
    requires StampedBy(trace, t)
    ensures LastResetBy(trace, t)
  {
    if trace != [] && trace[|trace| - 1].Granted? { StampedImpliesReset(trace[..|trace| - 1], t); }
  }

  lemma {:induction false} StampsEndBy(trace: seq<Usage>, quota: nat, duration: nat, lag: nat, t: int)
    requires Lawful(trace, quota, duration) && Timely(trace, lag) && EndsBy(trace, t)
    ensures StampedBy(trace, t)
  {
    if trace != [] && !trace[|trace| - 1].Reset? { StampsEndBy(trace[..|trace| - 1], quota, duration, lag, t); }
  }

  // How far resets less renewals have carried the stamps past `base`: the last reset of the present window, or the last
  // of any window one duration more.
  predicate CarriedTo(trace: seq<Usage>, duration: nat, base: int, ahead: int) {
    || !LastResetBy(trace, base + (ahead - 1) * duration - 1)
    || !StampedBy(trace, base + ahead * duration - 1)
  }

  lemma EventCarries(front: seq<Usage>, last: Usage, duration: nat, base: int, ahead: int)
    requires CarriedTo(front, duration, base, ahead)
    requires last.Reset? ==> LastResetBy(front, last.stamp - duration) && StampedBy(front, last.stamp)
    ensures var after := if last.Reset? then ahead + 1 else if last.Renewed? then ahead - 1 else ahead;
            CarriedTo(front + [last], duration, base, after)
  {
    var trace := front + [last];
    assert trace[..|trace| - 1] == front;
    assert (ahead - 1) * duration == ahead * duration - duration;
    var behind, before := base + (ahead - 1) * duration - 1, base + ahead * duration - 1;
    if last.Reset? && last.stamp <= before {
      if LastResetBy(front, behind) { StampedByWeaken(front, last.stamp, before); }
      else { LastResetByWeaken(front, last.stamp - duration, behind); }
    } else if last.Renewed? && StampedBy(front, behind) {
      StampedImpliesReset(front, behind);
      StampedByWeaken(front, behind, before);
    }
  }

  lemma FirstCarries(front: seq<Usage>, last: Usage, duration: nat, base: int, renewals: nat)
    requires last.Reset? && last.stamp >= base
    ensures CarriedTo(front + [last], duration, base, 1 - renewals)
  {
    var trace := front + [last];
    assert trace[|trace| - 1] == last;
    MulMonotone(0, renewals, duration);
    assert (1 - renewals - 1) * duration == -(renewals * duration);
  }

  lemma CarriedWithin(trace: seq<Usage>, duration: nat, base: int, to: int, ahead: int)
    requires StampedBy(trace, to - 1) && CarriedTo(trace, duration, base, ahead)
    ensures (ahead - 1) * duration < to - base
  {
    assert ahead * duration == (ahead - 1) * duration + duration;
    StampedImpliesReset(trace, to - 1);
    if (ahead - 1) * duration >= to - base {
      LastResetByWeaken(trace, to - 1, base + (ahead - 1) * duration - 1);
      StampedByWeaken(trace, to - 1, base + ahead * duration - 1);
    }
  }

  /** Resets inside the interval are stamped apart except across renewals, so only so many fit. */
  lemma {:induction false} ResetsAreSpaced(
    trace: seq<Usage>, quota: nat, duration: nat, lag: nat, from: nat, to: nat)
    requires Lawful(trace, quota, duration) && Timely(trace, lag)
    ensures var r, w := ResetsIn(trace, from, to), RenewalsIn(trace, from, to);
            && (r > w ==> (r - w - 1) * duration < to - from + lag)
            && (r > 0 && EndsBy(trace, to - 1) ==> CarriedTo(trace, duration, from - lag, r - w))
  {
    if trace != [] {
      var front, last := trace[..|trace| - 1], trace[|trace| - 1];
      ResetsAreSpaced(front, quota, duration, lag, from, to);
      var r: int, w: int := ResetsIn(trace, from, to), RenewalsIn(trace, from, to);
      assert trace == front + [last];
      if last.at < from {
        NothingBeforeInterval(trace, quota, duration, from, to);
      } else if last.at < to && r > 0 {
        if ResetsIn(front, from, to) > 0 {
          var ahead: int := ResetsIn(front, from, to) - RenewalsIn(front, from, to);
          EventCarries(front, last, duration, from - lag, ahead);
        } else {
          FirstCarries(front, last, duration, from - lag, w);
        }
        StampsEndBy(trace, quota, duration, lag, to - 1);
        CarriedWithin(trace, duration, from - lag, to, r - w);
      }
    }
  }

  lemma MulMonotone(a: nat, b: nat, c: nat)
    requires a <= b
    ensures a * c <= b * c
  {
    assert b * c == a * c + (b - a) * c;
  }

  lemma CeilDivBound(r: nat, length: nat, duration: nat)
    requires duration > 0
    requires r > 0 ==> (r - 1) * duration < length
    ensures r <= CeilDiv(length, duration)
  {
    var x := length + duration - 1;
    var q := x / duration;
    assert x < (q + 1) * duration;
    if q + 1 <= r - 1 + 1 && r > 0 {
      assert r * duration == (r - 1) * duration + duration;
      MulMonotone(q + 1, r, duration);
    }
  }

  /** Any half-open interval sees at most one quota per cycle started in its length and the lag, plus one, and two more
      for every renewal inside it. */
  lemma RateBound(trace: seq<Usage>, quota: nat, duration: nat, lag: nat, from: nat, length: nat)
    requires duration > 0
    requires Lawful(trace, quota, duration) && Timely(trace, lag)
    ensures GrantedIn(trace, from, from + length) <=
            (CeilDiv(length + lag, duration) + 1 + 2 * RenewalsIn(trace, from, from + length)) * quota
  {
    GrantsPerReset(trace, quota, duration, from, from + length);
    ResetsAreSpaced(trace, quota, duration, lag, from, from + length);
    var r, w := ResetsIn(trace, from, from + length), RenewalsIn(trace, from, from + length);
    CeilDivBound(if r > w then r - w else 0, length + lag, duration);
    MulMonotone(r + w + 1, CeilDiv(length + lag, duration) + 1 + 2 * w, quota);
  }

  /** A window agrees with the trace of what it did, when `pending` of its tokens are out but not yet granted. */
  predicate Accounts(w: Window, trace: seq<Usage>, pending: nat, now: nat) {
    && w.init - w.remain == Used(trace) + pending
    && Used(trace) + pending <= w.Quota()
    && Lawful(trace, w.Quota(), w.duration)
    && LastResetBy(trace, w.latestReset)
    && EndsBy(trace, now)
    && w.latestReset <= now
  }

  lemma AccountsTake(w: Window, trace: seq<Usage>, pending: nat, now: nat, n: nat)
    requires Accounts(w, trace, pending, now) && w.remain >= n
    ensures Accounts(w.Take(n), trace, pending + n, now)
  {}

  lemma AccountsGrant(w: Window, trace: seq<Usage>, pending: nat, now: nat, n: nat)
    requires Accounts(w, trace, pending, now) && n <= pending
    ensures Accounts(w, trace + [Granted(now, n)], pending - n, now)
  {
    var longer := trace + [Granted(now, n)];
    assert longer[..|longer| - 1] == trace;
  }

  lemma AccountsGiveBack(w: Window, trace: seq<Usage>, pending: nat, now: nat, n: nat)
    requires Accounts(w, trace, pending, now) && n <= pending
    ensures w.remain + n <= w.init
    ensures Accounts(w.GiveBack(n), trace, pending - n, now)
  {}

  lemma AccountsReset(w: Window, trace: seq<Usage>, now: nat, stamp: nat)
    requires Accounts(w, trace, 0, now) && stamp <= now
    ensures var after := if w.CycleEnded(stamp) then trace + [Reset(now, stamp)] else trace;
            Accounts(w.ResetIfCycleEnd(stamp), after, 0, now)
  {
    if w.CycleEnded(stamp) {
      var longer := trace + [Reset(now, stamp)];
      assert longer[..|longer| - 1] == trace;
      LastResetByWeaken(trace, w.latestReset, stamp - w.duration);
    }
  }

  // A full window with the same settings takes the place of this one.
  lemma AccountsRenew(w: Window, trace: seq<Usage>, full: Window, now: nat)
    requires Accounts(w, trace, 0, now) && Accounts(full, [], 0, now)
    requires full.init == w.init && full.duration == w.duration
    ensures Accounts(full, trace + [Renewed(now)], 0, now)
  {
    var longer := trace + [Renewed(now)];
    assert longer[..|longer| - 1] == trace;
  }

  /** The plain counter of src/common/auto_reset_counter.cpp. */
  class AutoResetCounter {
    var init: int
    var remain: int
    var duration: nat
    var latestReset: nat

    function Value(): Window
      reads this
    {
      Window(init, remain, duration, latestReset)
    }

    constructor (count: int, durationMillis: nat, now: nat)
      ensures Value() == Window(count, count, durationMillis, now)
    {
      init, remain, duration, latestReset := count, count, durationMillis, now;
    }

    method ResetIfCycleEnd(now: nat) returns (reset: bool)
      modifies this
      ensures reset == old(Value()).CycleEnded(now)
      ensures Value() == old(Value()).ResetIfCycleEnd(now)
    {
      if latestReset + duration <= now {
        remain := init;
        latestReset := now;
        return true;
      }
      return false;
    }

    method GetSemaphore(require: int) returns (granted: bool)
      modifies this
      ensures granted == (old(remain) >= require)
      ensures Value() == if granted then old(Value()).Take(require) else old(Value())
    {
      if remain >= require {
        remain := remain - require;
        return true;
      }
      return false;
    }
  }

  /** One call on a counter and when it takes effect; a refresh works with a clock reading taken before. */
  datatype Call = Refresh(at: nat, stamp: nat) | Get(at: nat, tokens: nat)

  // Calls take effect in this order, a refresh at most lag after its clock reading.
  predicate InOrder(calls: seq<Call>, since: nat, lag: nat) {
    calls == [] ||
    (&& since <= calls[0].at && InOrder(calls[1..], calls[0].at, lag)
     && (calls[0].Refresh? ==> calls[0].stamp <= calls[0].at <= calls[0].stamp + lag))
  }

  function After(w: Window, call: Call): Window {
    match call
    case Refresh(_, stamp) => w.ResetIfCycleEnd(stamp)
    case Get(_, n) => if w.remain >= n then w.Take(n) else w
  }

  function Effect(w: Window, call: Call): seq<Usage> {
    match call
    case Refresh(at, stamp) => if w.CycleEnded(stamp) then [Reset(at, stamp)] else []
    case Get(at, n) => if w.remain >= n then [Granted(at, n)] else []
  }

  function Play(w: Window, calls: seq<Call>): seq<Usage>
    decreases |calls|
  {
    if calls == [] then [] else Effect(w, calls[0]) + Play(After(w, calls[0]), calls[1..])
  }

  // A counter is never renewed, so the stamps of all its resets are those of the present window.
  predicate NeverRenewed(trace: seq<Usage>) {
    forall i :: 0 <= i < |trace| ==> !trace[i].Renewed?
  }

  lemma {:induction false} OneWindow(trace: seq<Usage>, t: int)
    requires NeverRenewed(trace) && LastResetBy(trace, t)
    ensures StampedBy(trace, t)
  {
    if trace != [] { if !trace[|trace| - 1].Reset? { OneWindow(trace[..|trace| - 1], t); } }
  }

  lemma CallAccounts(w: Window, past: seq<Usage>, now: nat, lag: nat, call: Call)
    requires Accounts(w, past, 0, now) && Timely(past, lag) && NeverRenewed(past) && now <= call.at
    requires call.Refresh? ==> call.stamp <= call.at <= call.stamp + lag
    ensures Accounts(After(w, call), past + Effect(w, call), 0, call.at)
    ensures Timely(past + Effect(w, call), lag) && NeverRenewed(past + Effect(w, call))
    ensures After(w, call).Quota() == w.Quota() && After(w, call).duration == w.duration
  {
    assert past + [] == past;
    if call.Refresh? {
      AccountsReset(w, past, call.at, call.stamp);
      if w.CycleEnded(call.stamp) {
        LastResetByWeaken(past, w.latestReset, call.stamp);
        OneWindow(past, call.stamp);
        assert (past + Effect(w, call))[..|past|] == past;
      }
    } else if w.remain >= call.tokens {
      AccountsTake(w, past, 0, call.at, call.tokens);
      AccountsGrant(w.Take(call.tokens), past, call.tokens, call.at, call.tokens);
      assert (past + Effect(w, call))[..|past|] == past;
    }
  }

  lemma TracesJoin(a: seq<Usage>, b: seq<Usage>, c: seq<Usage>)
    ensures a + (b + c) == (a + b) + c
  {}

  lemma {:induction false} PlayAccounts(w: Window, past: seq<Usage>, now: nat, lag: nat, calls: seq<Call>)
    requires Accounts(w, past, 0, now) && Timely(past, lag) && NeverRenewed(past) && InOrder(calls, now, lag)
    ensures Lawful(past + Play(w, calls), w.Quota(), w.duration) && Timely(past + Play(w, calls), lag)
    decreases |calls|
  {
    if calls == [] {
      assert past + [] == past;
    } else {
      var c := calls[0];
      CallAccounts(w, past, now, lag, c);
      PlayAccounts(After(w, c), past + Effect(w, c), c.at, lag, calls[1..]);
      TracesJoin(past, Effect(w, c), Play(After(w, c), calls[1..]));
    }
  }

  lemma {:induction false} RenewalsConcat(a: seq<Usage>, b: seq<Usage>, from: nat, to: nat)
    ensures RenewalsIn(a + b, from, to) == RenewalsIn(a, from, to) + RenewalsIn(b, from, to)
  {
    if b == [] {
      assert a + b == a;
    } else {
      RenewalsConcat(a, b[..|b| - 1], from, to);
      assert (a + b)[..|a + b| - 1] == a + b[..|b| - 1];
    }
  }

  lemma {:induction false} PlayNeverRenews(w: Window, calls: seq<Call>, from: nat, to: nat)
    ensures RenewalsIn(Play(w, calls), from, to) == 0
    decreases |calls|
  {
    if calls != [] {
      PlayNeverRenews(After(w, calls[0]), calls[1..], from, to);
      RenewalsConcat(Effect(w, calls[0]), Play(After(w, calls[0]), calls[1..]), from, to);
    }
  }

  /** Whatever is called and whenever, a fresh counter whose refreshes lag at most lag behind the clock they read stays
      within (ceil((length + lag) / duration) + 1) quotas per interval. */
  lemma CounterRateBound(
    count: int, duration: nat, created: nat, lag: nat, calls: seq<Call>, from: nat, length: nat)
    requires duration > 0
    requires InOrder(calls, created, lag)
    ensures var w := Window(count, count, duration, created);
            GrantedIn(Play(w, calls), from, from + length) <= (CeilDiv(length + lag, duration) + 1) * w.Quota()
  {
    var w := Window(count, count, duration, created);
    PlayAccounts(w, [], created, lag, calls);
    assert [] + Play(w, calls) == Play(w, calls);
    PlayNeverRenews(w, calls, from, from + length);
    RateBound(Play(w, calls), w.Quota(), duration, lag, from, length);
  }

  lemma CeilDivSelf(d: nat)
    requires d > 0
    ensures CeilDiv(d, d) == 1
  {
    var q := (2 * d - 1) / d;
    assert q * d <= 2 * d - 1 < (q + 1) * d;
    if q > 1 { MulMonotone(2, q, d); }
  }

  /** Over one duration the bound is two quotas, and a refill between two full bursts reaches it. */
  lemma RateBoundReached(count: nat, duration: nat, created: nat)
    requires duration > 1
    ensures var w := Window(count, count, duration, created);
            var calls := [Get(created + duration - 1, count), Refresh(created + duration, created + duration),
                          Get(created + duration, count)];
            && (CeilDiv(duration, duration) + 1) * w.Quota() == 2 * count
            && InOrder(calls, created, 0)
            && GrantedIn(Play(w, calls), created + 1, created + 1 + duration) == 2 * count
  {
    CeilDivSelf(duration);
    var t := created + duration;
    var c1, c2, c3 := Get(t - 1, count), Refresh(t, t), Get(t, count);
    var full, empty := Window(count, count, duration, created), Window(count, 0, duration, created);
    assert [c1, c2, c3][1..] == [c2, c3] && [c2, c3][1..] == [c3] && [c3][1..] == [];
    assert InOrder([c3], t, 0) && InOrder([c2, c3], t - 1, 0);
    assert Play(Window(count, count, duration, t), [c3]) == [Granted(t, count)];
    assert Play(empty, [c2, c3]) == [Reset(t, t)] + [Granted(t, count)];
    var trace := [Granted(t - 1, count), Reset(t, t), Granted(t, count)];
    assert Play(full, [c1, c2, c3]) == trace;
    BurstsAroundReset(t, count, created + 1, created + 1 + duration);
  }

  lemma BurstsAroundReset(t: nat, count: nat, from: nat, to: nat)
    requires 0 < from < t < to
    ensures GrantedIn([Granted(t - 1, count), Reset(t, t), Granted(t, count)], from, to) == 2 * count
  {
    var trace := [Granted(t - 1, count), Reset(t, t), Granted(t, count)];
    var two := trace[..2];
    assert GrantedIn(two[..1], from, to) == count by {
      assert two[..1][..0] == [];
    }
    assert GrantedIn(two, from, to) == GrantedIn(two[..1], from, to);
  }

  /** The lag counts: a refill that takes effect only lag after its clock reading, and the next one on time, let three
      quotas through within one duration. */
  lemma LaggedRefillExceeds(count: nat, duration: nat, created: nat, lag: nat)
    requires 0 < lag <= duration
    ensures var w := Window(count, count, duration, created);
            var late, next := created + duration + lag, created + 2 * duration;
            var calls := [Get(late, count), Refresh(late, created + duration), Get(late, count), Refresh(next, next),
                          Get(next, count)];
            && InOrder(calls, created, lag)
            && GrantedIn(Play(w, calls), late, late + duration) == 3 * count
  {
    var stamp, late, next := created + duration, created + duration + lag, created + 2 * duration;
    var last := [Get(next, count)];
    var more := [Get(late, count), Refresh(next, next)] + last;
    assert last[1..] == [];
    assert Play(Window(count, count, duration, next), last) == [Granted(next, count)];
    BurstAndRefill(count, duration, stamp, late, next, next, last, late, lag);
    BurstAndRefill(count, duration, created, late, late, stamp, more, created, lag);
    assert [Get(late, count), Refresh(late, stamp), Get(late, count), Refresh(next, next), Get(next, count)] ==
           [Get(late, count), Refresh(late, stamp)] + more;
    var bursts := [Granted(late, count), Reset(next, next)] + [Granted(next, count)];
    assert [Granted(late, count), Reset(late, stamp)] + bursts
        == [Granted(late, count)] + [Reset(late, stamp), Granted(late, count), Reset(next, next), Granted(next, count)];
    ThreeBursts(late, stamp, next, count, late + duration);
  }

  // A full window emptied and refilled.
  lemma BurstAndRefill(
    count: nat, duration: nat, latest: nat, at: nat, refill: nat, stamp: nat, rest: seq<Call>, since: nat, lag: nat)
    requires latest + duration <= stamp <= refill <= stamp + lag && since <= at <= refill && InOrder(rest, refill, lag)
    ensures var calls := [Get(at, count), Refresh(refill, stamp)] + rest;
            && InOrder(calls, since, lag)
            && Play(Window(count, count, duration, latest), calls) ==
               [Granted(at, count), Reset(refill, stamp)] + Play(Window(count, count, duration, stamp), rest)
  {
    var calls := [Get(at, count), Refresh(refill, stamp)] + rest;
    assert calls[1..][1..] == rest;
    assert InOrder(calls[1..], at, lag);
    assert Play(Window(count, 0, duration, latest), calls[1..]) ==
           [Reset(refill, stamp)] + Play(Window(count, count, duration, stamp), rest);
  }

  lemma ThreeBursts(late: nat, stamp: nat, next: nat, count: nat, to: nat)
    requires late <= next < to
    ensures GrantedIn([Granted(late, count)] + [Reset(late, stamp), Granted(late, count), Reset(next, next),
                                                Granted(next, count)], late, to) == 3 * count
  {
    var first, second, third := [Granted(late, count)], Granted(late, count), Granted(next, count);
    GrantedPair(first, Reset(late, stamp), second, late, to);
    GrantedPair(first + [Reset(late, stamp), second], Reset(next, next), third, late, to);
    assert first[..0] == [];
    assert (first + [Reset(late, stamp), second]) + [Reset(next, next), third] ==
           first + [Reset(late, stamp), second, Reset(next, next), third];
  }

  lemma {:induction false} GrantedPair(trace: seq<Usage>, reset: Usage, granted: Usage, from: nat, to: nat)
    requires reset.Reset? && granted.Granted? && from <= granted.at < to
    ensures GrantedIn(trace + [reset, granted], from, to) == GrantedIn(trace, from, to) + granted.tokens
  {
    var longer := trace + [reset, granted];
    assert longer[..|longer| - 1] == trace + [reset] && (trace + [reset])[..|trace|] == trace;
  }
}

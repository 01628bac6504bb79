/** The sliding window of price offsets with its running sums (src/receiver/offset_container.cpp). */
module OffsetWindow {

  datatype Quote = Quote(bid: real, ask: real, avg: real)

  datatype Offset = Offset(avg: real, bidAsk: real, askBid: real, at: nat)

  datatype Series = Average | BidAsk | AskBid

  function Value(o: Offset, series: Series): real {
    match series case Average => o.avg case BidAsk => o.bidAsk case AskBid => o.askBid
  }

  function OffsetOf(benchmark: Quote, follower: Quote, now: nat): Offset {
    Offset((benchmark.avg - follower.avg) / 2.0, benchmark.bid - follower.ask, benchmark.ask - follower.bid, now)
  }

  function Sum(list: seq<Offset>, series: Series): real {
    if list == [] then 0.0 else Value(list[0], series) + Sum(list[1..], series)
  }

  predicate Expired(o: Offset, now: nat, window: nat)
    requires o.at <= now
  {
    now - o.at > window
  }

  ghost predicate Ordered(history: seq<Offset>) {
    forall i, j :: 0 <= i < j < |history| ==> history[i].at <= history[j].at
  }

  ghost predicate EndsBy(history: seq<Offset>, now: nat) {
    forall i :: 0 <= i < |history| ==> history[i].at <= now
  }

  /** The part of a history that is no older than the window, whatever its order. */
  ghost function Retained(history: seq<Offset>, now: nat, window: nat): seq<Offset>
    requires EndsBy(history, now)
  {
    if history == [] then []
    else (if Expired(history[0], now, window) then [] else [history[0]]) + Retained(history[1..], now, window)
  }

  lemma {:induction false} SumAppend(list: seq<Offset>, o: Offset, series: Series)
    ensures Sum(list + [o], series) == Sum(list, series) + Value(o, series)
  {
    if list == [] {
      assert [o][1..] == [] && list + [o] == [o];
    } else {
      SumAppend(list[1..], o, series);
      assert (list + [o])[1..] == list[1..] + [o];
    }
  }

  predicate Summed(list: seq<Offset>, avg: real, bidAsk: real, askBid: real) {
    avg == Sum(list, Average) && bidAsk == Sum(list, BidAsk) && askBid == Sum(list, AskBid)
  }

  lemma SummedAppend(list: seq<Offset>, avg: real, bidAsk: real, askBid: real, o: Offset)
    requires Summed(list, avg, bidAsk, askBid)
    ensures Summed(list + [o], avg + o.avg, bidAsk + o.bidAsk, askBid + o.askBid)
  {
    SumAppend(list, o, Average);
    SumAppend(list, o, BidAsk);
    SumAppend(list, o, AskBid);
  }

  lemma {:induction false} RetainedAppend(history: seq<Offset>, o: Offset, now: nat, window: nat)
    requires EndsBy(history, now) && o.at <= now
    ensures Retained(history + [o], now, window) ==
            Retained(history, now, window) + if Expired(o, now, window) then [] else [o]
  {
    if history == [] {
      assert history + [o] == [o] && [o][1..] == [];
    } else {
      RetainedAppend(history[1..], o, now, window);
      assert (history + [o])[1..] == history[1..] + [o] && (history + [o])[0] == history[0];
      var kept := if Expired(history[0], now, window) then [] else [history[0]];
      var tail := if Expired(o, now, window) then [] else [o];
      assert kept + (Retained(history[1..], now, window) + tail) == (kept + Retained(history[1..], now, window)) + tail;
    }
  }

  lemma {:induction false} RetainedEndsBy(history: seq<Offset>, now: nat, window: nat)
    requires EndsBy(history, now)
    ensures EndsBy(Retained(history, now, window), now)
    ensures forall o :: o in Retained(history, now, window) ==> o in history
  {
    if history != [] {
      RetainedEndsBy(history[1..], now, window);
    }
  }

  lemma {:induction false} RetainedExactly(history: seq<Offset>, now: nat, window: nat)
    requires EndsBy(history, now)
    ensures forall o :: o in Retained(history, now, window) <==> o in history && now - o.at <= window
  {
    if history != [] {
      RetainedExactly(history[1..], now, window);
    }
  }

  /** What has left the window never comes back: filtering an earlier filtrate is filtering the whole history. */
  lemma {:induction false} RetainedLater(history: seq<Offset>, now: nat, later: nat, window: nat)
    requires EndsBy(history, now) && now <= later
    ensures EndsBy(Retained(history, now, window), later)
    ensures Retained(Retained(history, now, window), later, window) == Retained(history, later, window)
  {
    RetainedEndsBy(history, now, window);
    if history != [] {
      var rest := Retained(history[1..], now, window);
      RetainedLater(history[1..], now, later, window);
      if !Expired(history[0], now, window) {
        assert Retained(history, now, window)[1..] == rest;
      } else {
        assert Retained(history, now, window) == rest;
      }
    }
  }

  lemma {:induction false} OrderedKeepsAll(list: seq<Offset>, now: nat, window: nat)
    requires EndsBy(list, now) && Ordered(list)
    requires list == [] || !Expired(list[0], now, window)
    ensures Retained(list, now, window) == list
  {
    if list != [] {
      OrderedKeepsAll(list[1..], now, window);
    }
  }

  lemma {:induction false} RetainedOrdered(history: seq<Offset>, now: nat, window: nat)
    requires EndsBy(history, now) && Ordered(history)
    ensures Ordered(Retained(history, now, window))
  {
    if history != [] {
      RetainedOrdered(history[1..], now, window);
      RetainedEndsBy(history[1..], now, window);
      var rest := Retained(history[1..], now, window);
      forall j | 0 <= j < |rest| ensures history[0].at <= rest[j].at {
        assert rest[j] in history[1..];
      }
    }
  }

  /** Pushing onto the retained part and filtering again gives the retained part of the longer history. */
  lemma {:induction false} PushOntoRetained(history: seq<Offset>, latest: nat, o: Offset, window: nat)
    requires Ordered(history) && EndsBy(history, latest) && latest <= o.at
    ensures Ordered(history + [o]) && EndsBy(history + [o], o.at)
    ensures var list := Retained(history, latest, window) + [o];
            && Ordered(list) && EndsBy(list, o.at)
            && Retained(list, o.at, window) == Retained(history + [o], o.at, window)
  {
    RetainedLater(history, latest, o.at, window);
    RetainedOrdered(history, latest, window);
    RetainedEndsBy(history, latest, window);
    RetainedAppend(Retained(history, latest, window), o, o.at, window);
    RetainedAppend(history, o, o.at, window);
  }

  // Popping an expired front changes neither the retained part nor, after the subtraction, the sums.
  lemma {:induction false} PopExpired(list: seq<Offset>, now: nat, window: nat)
    requires list != [] && EndsBy(list, now) && Expired(list[0], now, window)
    ensures Retained(list, now, window) == Retained(list[1..], now, window)
  {}

  // A list on its way to the retained part of a history that ends with the given offset.
  ghost predicate Draining(list: seq<Offset>, history: seq<Offset>, last: Offset, window: nat) {
    && EndsBy(list, last.at) && Ordered(list) && list != [] && list[|list| - 1] == last
    && EndsBy(history, last.at) && Retained(list, last.at, window) == Retained(history, last.at, window)
  }

  lemma PopKeepsDraining(list: seq<Offset>, history: seq<Offset>, last: Offset, window: nat)
    requires Draining(list, history, last, window) && last.at - list[0].at > window
    ensures Draining(list[1..], history, last, window)
  {
    PopExpired(list, last.at, window);
  }

  lemma SummedPop(list: seq<Offset>, avg: real, bidAsk: real, askBid: real)
    requires list != [] && Summed(list, avg, bidAsk, askBid)
    ensures Summed(list[1..], avg - list[0].avg, bidAsk - list[0].bidAsk, askBid - list[0].askBid)
  {}

  // x added up n times.
  function Repeated(n: nat, x: real): real {
    if n == 0 then 0.0 else x + Repeated(n - 1, x)
  }

  lemma {:induction false} RepeatedIsProduct(n: nat, x: real)
    ensures Repeated(n, x) == n as real * x
  {
    if n > 0 {
      RepeatedIsProduct(n - 1, x);
      var m := (n - 1) as real;
      assert (m + 1.0) * x == m * x + x;
    }
  }

  lemma {:induction false} SumWithinBounds(list: seq<Offset>, series: Series, lo: real, hi: real)
    requires forall o :: o in list ==> lo <= Value(o, series) <= hi
    ensures Repeated(|list|, lo) <= Sum(list, series) <= Repeated(|list|, hi)
  {
    if list != [] {
      SumWithinBounds(list[1..], series, lo, hi);
      assert list[0] in list;
    }
  }

  /** The mean of a non-empty list lies between any bounds on its values, hence between its smallest and largest. */
  lemma MeanWithinBounds(list: seq<Offset>, series: Series, lo: real, hi: real)
    requires list != [] && forall o :: o in list ==> lo <= Value(o, series) <= hi
    ensures lo <= Sum(list, series) / |list| as real <= hi
  {
    SumWithinBounds(list, series, lo, hi);
    RepeatedIsProduct(|list|, lo);
    RepeatedIsProduct(|list|, hi);
    QuotientWithin(Sum(list, series), |list| as real, lo, hi);
  }

  lemma QuotientWithin(x: real, n: real, lo: real, hi: real)
    requires n > 0.0 && n * lo <= x <= n * hi
    ensures lo <= x / n <= hi
  {
    var q := x / n;
    assert q * n == x;
    assert (q - lo) * n >= 0.0 && (hi - q) * n >= 0.0;
    NonNegativeFactor(q - lo, n);
    NonNegativeFactor(hi - q, n);
  }

  lemma NonNegativeFactor(d: real, n: real)
    requires n > 0.0 && d * n >= 0.0
    ensures d >= 0.0
  {}

  datatype AvgResult = AvgResult(length: nat, avg: real, bidAsk: real, askBid: real)

  class PriceOffsetWrapper {
    const remainSeconds: nat
    var list: seq<Offset>
    var sumAvg: real
    var sumBidAsk: real
    var sumAskBid: real
    ghost var history: seq<Offset>
    ghost var latest: nat

    /** The deque is the retained part of everything ever pushed, and the sums are its sums. */
    ghost predicate Valid()
      reads this
    {
      && Ordered(history) && EndsBy(history, latest)
      && list == Retained(history, latest, remainSeconds * 1000)
      && Summed(list, sumAvg, sumBidAsk, sumAskBid)
      && (history != [] ==> list != [])
    }

    constructor (remainSeconds: nat)
      ensures Valid() && history == [] && this.remainSeconds == remainSeconds && latest == 0
    {
      this.remainSeconds := remainSeconds;
      list, history, latest := [], [], 0;
      sumAvg, sumBidAsk, sumAskBid := 0.0, 0.0, 0.0;
    }

    method UpdatePriceOffset(benchmark: Quote, follower: Quote, now: nat)
      requires Valid() && latest <= now
      modifies this
      ensures Valid() && latest == now
      ensures history == old(history) + [OffsetOf(benchmark, follower, now)]
      ensures list != [] && list[|list| - 1] == OffsetOf(benchmark, follower, now)
      ensures list[|list| - 1].avg * 2.0 == benchmark.avg - follower.avg && list[|list| - 1].at == now
      ensures list[|list| - 1].bidAsk == benchmark.bid - follower.ask
      ensures list[|list| - 1].askBid == benchmark.ask - follower.bid
    {
      var offset := OffsetOf(benchmark, follower, now);
      ghost var window := remainSeconds * 1000;
      SummedAppend(list, sumAvg, sumBidAsk, sumAskBid, offset);
      PushOntoRetained(history, latest, offset, window);

      list := list + [offset];
      sumAvg := sumAvg + offset.avg;
      sumBidAsk := sumBidAsk + offset.bidAsk;
      sumAskBid := sumAskBid + offset.askBid;
      history := history + [offset];
      latest := now;
      while list != [] && now - list[0].at > remainSeconds * 1000
        invariant history == old(history) + [offset] && latest == now
        invariant Draining(list, history, offset, window) && Summed(list, sumAvg, sumBidAsk, sumAskBid)
        decreases |list|
      {
        PopKeepsDraining(list, history, offset, window);
        SummedPop(list, sumAvg, sumBidAsk, sumAskBid);
        sumAvg := sumAvg - list[0].avg;
        sumBidAsk := sumBidAsk - list[0].bidAsk;
        sumAskBid := sumAskBid - list[0].askBid;
        list := list[1..];
      }
      OrderedKeepsAll(list, now, window);
    }

    /** Between updates the deque holds exactly the offsets of the window that ends with the last update. */
    lemma HoldsTheWindow()
      requires Valid()
      ensures forall o :: o in list <==> o in history && latest - o.at <= remainSeconds * 1000
    {
      RetainedExactly(history, latest, remainSeconds * 1000);
    }

    // Zero everywhere for an empty window.
    method CalculateAvgResult() returns (result: AvgResult)
      requires Valid()
      ensures result.length == |list|
      ensures list == [] ==> result == AvgResult(0, 0.0, 0.0, 0.0)
      ensures list != [] ==>
        && result.avg == Sum(list, Average) / |list| as real
        && result.bidAsk == Sum(list, BidAsk) / |list| as real
        && result.askBid == Sum(list, AskBid) / |list| as real
    {
      if list == [] {
        return AvgResult(0, 0.0, 0.0, 0.0);
      }
      var n := |list| as real;
      result := AvgResult(|list|, sumAvg / n, sumBidAsk / n, sumAskBid / n);
    }
  }
}

/** The ticker cache under every interleaving of the pushing thread and the one calculating thread, which takes the lock
    three times per pass: to read the cache, to copy the recent tickers, and to store what it scanned
    (src/receiver/ticker_calculate.cpp, src/receiver/ticker_container.cpp). */
module TickerRuns {
  import opened Options
  import opened TickerCache
  import opened Paths

  /** The calculating thread; `marks` says which held tickers its copy speaks for: the copied and the pushed since. */
  datatype Calculator =
    | Waiting
    | Needed(now: nat, intervalSeconds: nat)
    | Copied(extremes: Extremes, marks: seq<bool>)

  datatype Shared = Shared(cache: Cache, worker: Calculator)

  datatype Step =
    | Update(t: Ticker, now: nat, remainSeconds: nat)
    | Read(now: nat, intervalSeconds: nat)
    | Copy
    | Store

  predicate Enabled(s: Shared, step: Step) {
    && |s.cache.list| == |s.cache.covered|
    && match step
       case Update(_, _, _) => true
       case Read(_, _) => s.worker.Waiting?
       case Copy => s.worker.Needed?
       case Store => s.worker.Copied?
  }

  predicate UpToDate(c: Cache, intervalSeconds: nat) {
    c.valid && |c.list| >= intervalSeconds
  }

  function Cutoff(worker: Calculator): nat
    requires worker.Needed?
  {
    SubU64(worker.now, worker.intervalSeconds * 1000)
  }

  // What the copying step copies.
  function Recent(s: Shared): seq<Ticker>
    requires s.worker.Needed?
  {
    Marked(s.cache.list, RecentMarks(s.cache.list, Cutoff(s.worker)))
  }

  // The marks of a copy follow the list: a pushed ticker counts as covered, a popped one is forgotten.
  function Follow(worker: Calculator, popped: nat): Calculator {
    if worker.Copied? && popped <= |worker.marks| + 1 then worker.(marks := (worker.marks + [true])[popped..])
      else worker
  }

  function Do(b: Doubles, s: Shared, step: Step): Shared
    requires Enabled(s, step)
  {
    match step
    case Update(t, now, remain) =>
      Shared(Updated(b, s.cache, t, now, remain), Follow(s.worker, ExpiredFront(s.cache.list + [t], now, remain)))
    case Read(now, interval) => if UpToDate(s.cache, interval) then s else s.(worker := Needed(now, interval))
    case Copy =>
      if |Recent(s)| < s.worker.intervalSeconds then s.(worker := Waiting)
      else s.(worker := Copied(Scanned(b, Recent(s)), RecentMarks(s.cache.list, Cutoff(s.worker))))
    case Store =>
      Shared(s.cache.(covered := s.worker.marks, extremes := s.worker.extremes, valid := true), Waiting)
  }

  /** What a step publishes thresholds from: the cache it read, or its own scan once stored. */
  function Publishes(s: Shared, step: Step): Option<Extremes>
    requires Enabled(s, step)
  {
    if step.Read? && UpToDate(s.cache, step.intervalSeconds) then Some(s.cache.extremes)
    else if step.Store? then Some(s.worker.extremes)
    else None
  }

  predicate Init(b: Doubles, s: Shared) {
    s == Shared(Cache([], [], Cleared(b), false), Waiting)
  }

  predicate IsRun(b: Doubles, states: seq<Shared>, steps: seq<Step>) {
    && |states| == |steps| + 1
    && Init(b, states[0])
    && forall k :: 0 <= k < |steps| ==> Enabled(states[k], steps[k]) && states[k + 1] == Do(b, states[k], steps[k])
  }

  // Prices are finite doubles, and a pass wants at least one second's worth of tickers.
  predicate Sensible(b: Doubles, steps: seq<Step>) {
    forall k :: 0 <= k < |steps| ==>
      && (steps[k].Update? ==> Finite(b, steps[k].t))
      && (steps[k].Read? ==> steps[k].intervalSeconds > 0)
  }

  /** A pass nobody interrupts is its three lock sections in a row. */
  lemma UndisturbedPass(b: Doubles, s: Shared, now: nat, intervalSeconds: nat)
    requires |s.cache.list| == |s.cache.covered| && s.worker.Waiting?
    ensures var (c, enough) := Recomputed(b, s.cache, now, intervalSeconds);
            var read := Do(b, s, Read(now, intervalSeconds));
            if UpToDate(s.cache, intervalSeconds) then enough && c == s.cache == read.cache
            else
              var copy := Do(b, read, Copy);
              if copy.worker.Waiting? then !enough && c == s.cache == copy.cache
              else enough && c == Do(b, copy, Store).cache
  {}

  // ----- shape, kept by every step

  predicate NotCrossed(e: Extremes) {
    forall side :: e.Low(side) <= e.High(side)
  }

  // Neither valid extremes nor a finished copy's are ever crossed, whether or not they are exact.
  ghost predicate Shaped(b: Doubles, s: Shared) {
    && |s.cache.list| == |s.cache.covered|
    && (forall t :: t in s.cache.list ==> Finite(b, t))
    && (s.cache.valid ==> NotCrossed(s.cache.extremes))
    && (s.worker.Copied? ==> |s.worker.marks| == |s.cache.list| && NotCrossed(s.worker.extremes))
    && (s.worker.Needed? ==> s.worker.intervalSeconds > 0)
  }

  lemma ScannedNotCrossed(b: Doubles, ts: seq<Ticker>)
    requires ts != []
    ensures NotCrossed(Scanned(b, ts))
  {
    forall side ensures Scanned(b, ts).Low(side) <= Scanned(b, ts).High(side) {
      ScannedBounds(b, ts, side);
      assert ts[0] in ts;
    }
  }

  lemma WidenNotCrossed(e: Extremes, t: Ticker)
    requires NotCrossed(e)
    ensures NotCrossed(e.Widen(t))
  {
    forall side ensures e.Widen(t).Low(side) <= e.Widen(t).High(side) {
      WidenSide(e, t, side);
      assert e.Low(side) <= e.High(side);
    }
  }

  lemma UpdateKeepsShape(b: Doubles, s: Shared, step: Step)
    requires Shaped(b, s) && step.Update? && Finite(b, step.t)
    ensures Shaped(b, Do(b, s, step))
  {
    var pushed := Pushed(s.cache, step.t);
    if s.cache.valid {
      WidenNotCrossed(s.cache.extremes, step.t);
    }
    DropIsSuffix(b, pushed, step.now, step.remainSeconds);
  }

  lemma StepKeepsShape(b: Doubles, s: Shared, step: Step)
    requires Shaped(b, s) && Enabled(s, step)
    requires step.Update? ==> Finite(b, step.t)
    requires step.Read? ==> step.intervalSeconds > 0
    ensures Shaped(b, Do(b, s, step))
  {
    if step.Update? {
      UpdateKeepsShape(b, s, step);
    } else if step.Copy? && Recent(s) != [] {
      ScannedNotCrossed(b, Recent(s));
    }
  }

  lemma {:induction false} RunShape(b: Doubles, states: seq<Shared>, steps: seq<Step>, k: nat)
    requires IsRun(b, states, steps) && Sensible(b, steps) && k < |states|
    ensures Shaped(b, states[k])
  {
    if k > 0 {
      RunShape(b, states, steps, k - 1);
      StepKeepsShape(b, states[k - 1], steps[k - 1]);
    }
  }

  /** No interleaving makes a published volatility negative, not even one that makes the cache inexact. */
  lemma PublishedNeverNegative(
    b: Doubles, states: seq<Shared>, steps: seq<Step>, k: nat, e: Extremes, config: InstConfig, side: Side)
    requires IsRun(b, states, steps) && Sensible(b, steps) && k < |steps| && Publishes(states[k], steps[k]) == Some(e)
    ensures Thresholds(e, config).Some? ==> On(Thresholds(e, config).value, side).volatility >= 0.0
  {
    RunShape(b, states, steps, k);
    NotCrossedVolatility(e, config, side);
  }

  lemma NotCrossedVolatility(e: Extremes, config: InstConfig, side: Side)
    requires NotCrossed(e)
    ensures Thresholds(e, config).Some? ==> On(Thresholds(e, config).value, side).volatility >= 0.0
  {
    if Thresholds(e, config).Some? {
      ThresholdPerSide(e, config, side);
      assert e.Low(side) <= e.High(side);
      QuotientSign(e.High(side) - e.Low(side), e.Low(side));
    }
  }

  /** A pass configured for zero seconds of tickers publishes the limits themselves: a negative volatility. */
  lemma ZeroIntervalPublishesNegative(b: Doubles, config: InstConfig) returns (states: seq<Shared>, steps: seq<Step>)
    ensures IsRun(b, states, steps) && steps == [Read(0, 0), Copy, Store]
    ensures Publishes(states[2], Store) == Some(Cleared(b)) && Thresholds(Cleared(b), config).Some?
    ensures Thresholds(Cleared(b), config).value.bid.volatility < 0.0
  {
    steps := [Read(0, 0), Copy, Store];
    var empty := Cache([], [], Cleared(b), false);
    var s1, s2 := Shared(empty, Needed(0, 0)), Shared(empty, Copied(Cleared(b), []));
    states := [Shared(empty, Waiting), s1, s2, Shared(empty.(valid := true), Waiting)];
    assert RecentMarks([], Cutoff(s1.worker)) == [] && Recent(s1) == [];
    QuotientSign(b.least - b.most, b.most);
  }

  // ----- exactness

  // The held tickers the calculator's copy speaks for.
  function Held(s: Shared): seq<Ticker>
    requires s.worker.Copied? && |s.worker.marks| == |s.cache.list|
  {
    Marked(s.cache.list, s.worker.marks)
  }

  lemma StepKeepsSound(b: Doubles, s: Shared, step: Step)
    requires Sound(b, s.cache) && Enabled(s, step) && !step.Store?
    requires step.Update? ==> Finite(b, step.t)
    ensures Sound(b, Do(b, s, step).cache)
  {
    if step.Update? {
      PushKeepsSound(b, s.cache, step.t);
      DropKeepsSound(b, Pushed(s.cache, step.t), step.now, step.remainSeconds);
    }
  }

  /** An exact cache stays exact until the next store. */
  lemma {:induction false} SoundUntilStore(b: Doubles, states: seq<Shared>, steps: seq<Step>, j: nat, k: nat)
    requires IsRun(b, states, steps) && Sensible(b, steps) && j <= k < |states| && Sound(b, states[j].cache)
    requires forall n :: j <= n < k ==> !steps[n].Store?
    ensures Sound(b, states[k].cache)
  {
    if j < k {
      SoundUntilStore(b, states, steps, j, k - 1);
      StepKeepsSound(b, states[k - 1], steps[k - 1]);
    }
  }

  predicate Widens(e: Extremes, t: Ticker) {
    exists side :: t.Price(side) > e.High(side) || t.Price(side) < e.Low(side)
  }

  lemma WidensNot(e: Extremes, t: Ticker)
    ensures e.Widen(t) == e <==> !Widens(e, t)
  {
    if !Widens(e, t) {
      assert !(t.Price(Bid) > e.High(Bid)) && !(t.Price(Bid) < e.Low(Bid));
      assert !(t.Price(Ask) > e.High(Ask)) && !(t.Price(Ask) < e.Low(Ask));
      assert !(t.Price(Avg) > e.High(Avg)) && !(t.Price(Avg) < e.Low(Avg));
    }
    if side :| t.Price(side) > e.High(side) || t.Price(side) < e.Low(side) {
      WidenSide(e, t, side);
    }
  }

  // An update between copy and store that pushes past the copied extremes, or pops a covered ticker that touches them.
  predicate Disturbs(s: Shared, step: Step) {
    && s.worker.Copied? && |s.worker.marks| == |s.cache.list| && step.Update?
    && (|| Widens(s.worker.extremes, step.t)
        || exists i :: 0 <= i < ExpiredFront(s.cache.list + [step.t], step.now, step.remainSeconds) &&
             (s.worker.marks + [true])[i] && s.worker.extremes.Touched((s.cache.list + [step.t])[i]))
  }

  ghost predicate CopyExact(b: Doubles, s: Shared) {
    && s.worker.Copied? && |s.worker.marks| == |s.cache.list| && (forall t :: t in s.cache.list ==> Finite(b, t))
    && Held(s) != [] && s.worker.extremes == Scanned(b, Held(s))
  }

  lemma {:induction false} DropsKeepScan(b: Doubles, list: seq<Ticker>, marks: seq<bool>, e: Extremes, d: nat)
    requires |list| == |marks| && d <= |list| && (forall t :: t in list ==> Finite(b, t))
    requires Marked(list, marks) != [] && e == Scanned(b, Marked(list, marks))
    requires forall i :: 0 <= i < d && marks[i] ==> !e.Touched(list[i])
    ensures Marked(list[d..], marks[d..]) != [] && e == Scanned(b, Marked(list[d..], marks[d..]))
  {
    if d == 0 {
      assert list[0..] == list && marks[0..] == marks;
    } else {
      var marked, rest := Marked(list, marks), Marked(list[1..], marks[1..]);
      if marks[0] {
        assert marked[0] == list[0] && marked[1..] == rest;
        DropUntouched(b, marked);
        if rest == [] {
          assert marked == [list[0]];
          OnlyTickerTouches(b, list[0]);
        }
      } else {
        assert marked == rest;
      }
      DropsKeepScan(b, list[1..], marks[1..], e, d - 1);
      assert list[1..][d - 1..] == list[d..] && marks[1..][d - 1..] == marks[d..];
    }
  }

  lemma UndisturbedKeepsCopy(b: Doubles, s: Shared, step: Step)
    requires CopyExact(b, s) && Enabled(s, step) && !step.Store? && !Disturbs(s, step)
    requires step.Update? ==> Finite(b, step.t)
    ensures CopyExact(b, Do(b, s, step))
  {
    if step.Update? {
      var list, marks := s.cache.list + [step.t], s.worker.marks + [true];
      var e, held, d := s.worker.extremes, Held(s), ExpiredFront(s.cache.list + [step.t], step.now, step.remainSeconds);
      MarkedAppend(s.cache.list, s.worker.marks, step.t, true);
      assert (held + [step.t])[..|held|] == held;
      WidensNot(e, step.t);
      DropsKeepScan(b, list, marks, e, d);
      DropIsSuffix(b, Pushed(s.cache, step.t), step.now, step.remainSeconds);
    }
  }

  lemma CopyStartsExact(b: Doubles, s: Shared)
    requires Shaped(b, s) && Enabled(s, Copy) && Do(b, s, Copy).worker.Copied?
    ensures CopyExact(b, Do(b, s, Copy))
  {}

  lemma StoreExact(b: Doubles, s: Shared)
    requires Shaped(b, s) && s.worker.Copied?
    ensures Sound(b, Do(b, s, Store).cache) <==> CopyExact(b, s)
  {}

  /** In every run in which no update disturbs a copy before it is stored, the cache is exact at every point. */
  lemma {:induction false} CacheAlwaysSound(b: Doubles, states: seq<Shared>, steps: seq<Step>, k: nat)
    requires IsRun(b, states, steps) && Sensible(b, steps) && k < |states|
    requires forall n :: 0 <= n < k ==> !Disturbs(states[n], steps[n])
    ensures Sound(b, states[k].cache) && (states[k].worker.Copied? ==> CopyExact(b, states[k]))
  {
    if k > 0 {
      CacheAlwaysSound(b, states, steps, k - 1);
      RunShape(b, states, steps, k - 1);
      var s, step := states[k - 1], steps[k - 1];
      if step.Store? {
        StoreExact(b, s);
      } else {
        StepKeepsSound(b, s, step);
        if step.Copy? && states[k].worker.Copied? {
          CopyStartsExact(b, s);
        } else if states[k].worker.Copied? {
          UndisturbedKeepsCopy(b, s, step);
        }
      }
    }
  }

  // ----- exactly when a store is exact

  // A ticker not in the copy, still held at the store, lies outside the copied extremes.
  ghost predicate MissesPush(e: Extremes, copied: seq<Ticker>, held: seq<Ticker>) {
    exists t :: t in held && t !in copied && Widens(e, t)
  }

  // A copied ticker on an extreme is gone at the store, and no held ticker has its price.
  ghost predicate LosesExtreme(b: Doubles, e: Extremes, copied: seq<Ticker>, held: seq<Ticker>) {
    exists u, side ::
      && u in copied && u !in held
      && (|| (u.Price(side) == e.High(side) > b.least && forall t :: t in held ==> t.Price(side) != e.High(side))
          || (u.Price(side) == e.Low(side) && forall t :: t in held ==> t.Price(side) != e.Low(side)))
  }

  lemma ScanIs(b: Doubles, ts: seq<Ticker>, side: Side, low: real, high: real)
    requires forall t :: t in ts ==> low <= t.Price(side) <= high
    requires high == b.least || exists t :: t in ts && t.Price(side) == high
    requires exists t :: t in ts && t.Price(side) == low
    requires high >= b.least && low <= b.most
    ensures Scanned(b, ts).Low(side) == low && Scanned(b, ts).High(side) == high
  {
    ScannedBounds(b, ts, side);
  }

  lemma SameOnAllSides(e: Extremes, f: Extremes)
    requires forall side :: e.Low(side) == f.Low(side) && e.High(side) == f.High(side)
    ensures e == f
  {
    assert e.Low(Bid) == f.Low(Bid) && e.High(Bid) == f.High(Bid);
    assert e.Low(Ask) == f.Low(Ask) && e.High(Ask) == f.High(Ask);
    assert e.Low(Avg) == f.Low(Avg) && e.High(Avg) == f.High(Avg);
  }

  // The low end of a scan of finite prices always belongs to a ticker.
  lemma LowIsHeld(b: Doubles, ts: seq<Ticker>, side: Side)
    requires ts != [] && forall t :: t in ts ==> Finite(b, t)
    ensures exists t :: t in ts && t.Price(side) == Scanned(b, ts).Low(side)
  {
    ScannedBounds(b, ts, side);
    assert ts[0] in ts && ts[0].Price(side) <= b.most;
  }

  lemma SideStaysExact(b: Doubles, copied: seq<Ticker>, held: seq<Ticker>, side: Side)
    requires copied != [] && forall t :: t in copied ==> Finite(b, t)
    requires !MissesPush(Scanned(b, copied), copied, held) && !LosesExtreme(b, Scanned(b, copied), copied, held)
    ensures held != []
    ensures Scanned(b, held).Low(side) == Scanned(b, copied).Low(side)
    ensures Scanned(b, held).High(side) == Scanned(b, copied).High(side)
  {
    var e := Scanned(b, copied);
    ScannedBounds(b, copied, side);
    LowIsHeld(b, copied, side);
    var u :| u in copied && u.Price(side) == e.Low(side);
    assert exists t :: t in held && t.Price(side) == e.Low(side);
    if e.High(side) != b.least {
      var v :| v in copied && v.Price(side) == e.High(side);
      assert exists t :: t in held && t.Price(side) == e.High(side);
    }
    forall t | t in held ensures e.Low(side) <= t.Price(side) <= e.High(side) {
      if t !in copied { assert !Widens(e, t); }
    }
    ScanIs(b, held, side, e.Low(side), e.High(side));
  }

  lemma ScanExactlyWhen(b: Doubles, copied: seq<Ticker>, held: seq<Ticker>)
    requires copied != [] && (forall t :: t in copied ==> Finite(b, t)) && (forall t :: t in held ==> Finite(b, t))
    ensures var e := Scanned(b, copied);
            held != [] && e == Scanned(b, held) <==> !MissesPush(e, copied, held) && !LosesExtreme(b, e, copied, held)
  {
    var e := Scanned(b, copied);
    if !MissesPush(e, copied, held) && !LosesExtreme(b, e, copied, held) {
      forall side
        ensures held != [] && e.Low(side) == Scanned(b, held).Low(side) && e.High(side) == Scanned(b, held).High(side)
      {
        SideStaysExact(b, copied, held, side);
      }
      SameOnAllSides(e, Scanned(b, held));
      assert held != [] by { SideStaysExact(b, copied, held, Bid); }
    } else if held != [] && e == Scanned(b, held) {
      forall side
        ensures forall t :: t in held ==> e.Low(side) <= t.Price(side) <= e.High(side)
        ensures exists t :: t in held && t.Price(side) == e.Low(side)
        ensures e.High(side) == b.least || exists t :: t in held && t.Price(side) == e.High(side)
      {
        ScannedBounds(b, held, side);
        LowIsHeld(b, held, side);
      }
    }
  }

  predicate OnlyUpdates(steps: seq<Step>, from: nat, to: nat) {
    forall n :: from <= n < to && n < |steps| ==> steps[n].Update?
  }

  // The tickers pushed by a stretch of updates.
  function PushedBy(steps: seq<Step>, from: nat, to: nat): (ts: seq<Ticker>)
    requires from <= to <= |steps| && OnlyUpdates(steps, from, to)
    ensures |ts| == to - from
  {
    if from == to then [] else PushedBy(steps, from, to - 1) + [steps[to - 1].t]
  }

  function AllCovered(n: nat): seq<bool> {
    seq(n, _ => true)
  }

  // Between copy and store the list is the copied one plus the pushes, less some from the front; the copy speaks for
  // the recent ones of the copied list and for every push.
  predicate Traced(s: Shared, t: Shared, pushes: seq<Ticker>, d: nat) {
    && s.worker.Needed? && t.worker.Copied?
    && d <= |s.cache.list| + |pushes|
    && t.cache.list == (s.cache.list + pushes)[d..]
    && t.worker.marks == (RecentMarks(s.cache.list, Cutoff(s.worker)) + AllCovered(|pushes|))[d..]
  }

  lemma UpdateTraced(b: Doubles, first: Shared, s: Shared, step: Step, pushes: seq<Ticker>, d: nat) returns (d': nat)
    requires Traced(first, s, pushes, d) && Enabled(s, step) && step.Update?
    ensures Traced(first, Do(b, s, step), pushes + [step.t], d')
  {
    var popped := ExpiredFront(s.cache.list + [step.t], step.now, step.remainSeconds);
    DropIsSuffix(b, Pushed(s.cache, step.t), step.now, step.remainSeconds);
    d' := d + popped;
    var all, marks := first.cache.list + pushes,
      RecentMarks(first.cache.list, Cutoff(first.worker)) + AllCovered(|pushes|);
    assert first.cache.list + (pushes + [step.t]) == all + [step.t];
    assert (all[d..] + [step.t])[popped..] == (all + [step.t])[d'..];
    assert RecentMarks(first.cache.list, Cutoff(first.worker)) + AllCovered(|pushes| + 1) == marks + [true];
    assert (marks[d..] + [true])[popped..] == (marks + [true])[d'..];
  }

  lemma JustCopied(b: Doubles, s: Shared)
    requires Enabled(s, Copy) && Do(b, s, Copy).worker.Copied?
    ensures Traced(s, Do(b, s, Copy), [], 0)
  {
    assert s.cache.list + [] == s.cache.list && AllCovered(0) == [];
  }

  lemma OnlyUpdatesInBetween(b: Doubles, s: Shared, step: Step)
    requires Enabled(s, step) && !step.Copy? && Do(b, s, step).worker.Copied?
    ensures step.Update? && s.worker.Copied? && Do(b, s, step).worker.extremes == s.worker.extremes
  {}

  lemma {:induction false} CopyTraced(b: Doubles, states: seq<Shared>, steps: seq<Step>, k: nat)
    returns (j: nat, d: nat)
    requires IsRun(b, states, steps) && k < |states| && states[k].worker.Copied?
    ensures j < k && steps[j].Copy? && OnlyUpdates(steps, j + 1, k)
    ensures Traced(states[j], states[k], PushedBy(steps, j + 1, k), d)
    ensures states[k].worker.extremes == Scanned(b, Recent(states[j])) &&
            |Recent(states[j])| >= states[j].worker.intervalSeconds
  {
    var s, step := states[k - 1], steps[k - 1];
    if step.Copy? {
      j, d := k - 1, 0;
      JustCopied(b, s);
    } else {
      OnlyUpdatesInBetween(b, s, step);
      j, d := CopyTraced(b, states, steps, k - 1);
      d := UpdateTraced(b, states[j], s, step, PushedBy(steps, j + 1, k - 1), d);
    }
  }

  /** A store leaves the cache exact if and only if no ticker pushed since the copy and still held lies outside the
      copied extremes, and no copied extreme has lost all the held tickers that have its price. */
  lemma StoreExactExactlyWhen(b: Doubles, states: seq<Shared>, steps: seq<Step>, k: nat) returns (j: nat, d: nat)
    requires IsRun(b, states, steps) && Sensible(b, steps) && k < |steps| && steps[k].Store?
    ensures j < k && steps[j].Copy? && OnlyUpdates(steps, j + 1, k)
    ensures Traced(states[j], states[k], PushedBy(steps, j + 1, k), d)
    ensures var copied, held := Recent(states[j]), Marked(states[k].cache.list, states[k].worker.marks);
            var e := Scanned(b, copied);
            Sound(b, states[k + 1].cache) <==> !MissesPush(e, copied, held) && !LosesExtreme(b, e, copied, held)
  {
    RunShape(b, states, steps, k);
    j, d := CopyTraced(b, states, steps, k);
    RunShape(b, states, steps, j);
    StoreExact(b, states[k]);
    MarkedSubset(states[j].cache.list, RecentMarks(states[j].cache.list, Cutoff(states[j].worker)));
    MarkedSubset(states[k].cache.list, states[k].worker.marks);
    ScanExactlyWhen(b, Recent(states[j]), Held(states[k]));
  }

  /** What a store publishes is the scan of what its own pass copied; what a read publishes in an undisturbed run is the
      scan of the covered tickers. */
  lemma PublishedFromScan(b: Doubles, states: seq<Shared>, steps: seq<Step>, k: nat, e: Extremes)
    returns (ts: seq<Ticker>)
    requires IsRun(b, states, steps) && Sensible(b, steps) && k < |steps|
    requires Publishes(states[k], steps[k]) == Some(e)
    requires steps[k].Read? ==> forall n :: 0 <= n < k ==> !Disturbs(states[n], steps[n])
    ensures e == Scanned(b, ts) && ts != [] && forall t :: t in ts ==> Finite(b, t)
    ensures steps[k].Read? ==> ts == Marked(states[k].cache.list, states[k].cache.covered)
    ensures steps[k].Store? ==>
            exists j :: 0 <= j < k && steps[j].Copy? && OnlyUpdates(steps, j + 1, k) && states[j].worker.Needed?
                        && ts == Recent(states[j])
  {
    RunShape(b, states, steps, k);
    if steps[k].Read? {
      CacheAlwaysSound(b, states, steps, k);
      ts := Marked(states[k].cache.list, states[k].cache.covered);
      MarkedSubset(states[k].cache.list, states[k].cache.covered);
    } else {
      var j, d := CopyTraced(b, states, steps, k);
      RunShape(b, states, steps, j);
      ts := Recent(states[j]);
      MarkedSubset(states[j].cache.list, RecentMarks(states[j].cache.list, Cutoff(states[j].worker)));
    }
  }

  /** In an undisturbed run, with prices above the smallest double, everything published is computed from the true
      lowest and highest price of the tickers covered at that moment. */
  lemma PublishedIsExact(b: Doubles, states: seq<Shared>, steps: seq<Step>, k: nat, e: Extremes, side: Side)
    returns (ts: seq<Ticker>)
    requires IsRun(b, states, steps) && Sensible(b, steps) && k < |steps|
    requires Publishes(states[k], steps[k]) == Some(e)
    requires forall n :: 0 <= n < k ==> !Disturbs(states[n], steps[n])
    requires forall n :: 0 <= n < |steps| && steps[n].Update? ==> steps[n].t.Price(side) >= b.least
    ensures var after := states[k + 1].cache;
            |after.list| == |after.covered| && ts == Marked(after.list, after.covered)
    ensures IsMinimum(e.Low(side), ts, side) && IsMaximum(e.High(side), ts, side)
  {
    ts := PublishedCovered(b, states, steps, k, e);
    RunAboveLeast(b, states, steps, k, side);
    assert ts[0] in ts && ts[0].Price(side) <= b.most;
    ScannedExact(b, ts, side);
  }

  lemma PublishedCovered(b: Doubles, states: seq<Shared>, steps: seq<Step>, k: nat, e: Extremes)
    returns (ts: seq<Ticker>)
    requires IsRun(b, states, steps) && Sensible(b, steps) && k < |steps|
    requires Publishes(states[k], steps[k]) == Some(e)
    requires forall n :: 0 <= n < k ==> !Disturbs(states[n], steps[n])
    ensures var after := states[k + 1].cache;
            |after.list| == |after.covered| && ts == Marked(after.list, after.covered)
    ensures e == Scanned(b, ts) && ts != [] && forall t :: t in ts ==> Finite(b, t) && t in states[k].cache.list
  {
    RunShape(b, states, steps, k);
    CacheAlwaysSound(b, states, steps, k);
    PublishingStep(b, states[k], steps[k], e);
    var after := states[k + 1].cache;
    ts := Marked(after.list, after.covered);
    MarkedSubset(after.list, after.covered);
  }

  lemma PublishingStep(b: Doubles, s: Shared, step: Step, e: Extremes)
    requires Sound(b, s.cache) && (s.worker.Copied? ==> CopyExact(b, s))
    requires Enabled(s, step) && Publishes(s, step) == Some(e)
    ensures var after := Do(b, s, step).cache;
            && after.list == s.cache.list && |after.list| == |after.covered|
            && Marked(after.list, after.covered) != [] && e == Scanned(b, Marked(after.list, after.covered))
  {}

  lemma {:induction false} RunAboveLeast(b: Doubles, states: seq<Shared>, steps: seq<Step>, k: nat, side: Side)
    requires IsRun(b, states, steps) && Sensible(b, steps) && k < |states|
    requires forall n :: 0 <= n < |steps| && steps[n].Update? ==> steps[n].t.Price(side) >= b.least
    ensures forall t :: t in states[k].cache.list ==> t.Price(side) >= b.least
  {
    if k > 0 {
      RunAboveLeast(b, states, steps, k - 1, side);
      RunShape(b, states, steps, k - 1);
      var s, step := states[k - 1], steps[k - 1];
      if step.Update? {
        DropIsSuffix(b, Pushed(s.cache, step.t), step.now, step.remainSeconds);
      }
    }
  }

  // A threshold with the numbers of volatility v: multiplier a + b v + c v v, and beta times that.
  predicate HasNumbers(t: Threshold, config: InstConfig, v: real) {
    && t.volatility == v && t.multiplier == config.a + config.b * v + config.c * v * v
    && t.threshold == t.multiplier * config.beta
  }

  lemma SideNumbers(e: Extremes, config: InstConfig, side: Side) returns (t: Threshold)
    requires e.Low(side) > 0.0
    ensures t == SideThreshold(e, side, config) && HasNumbers(t, config, (e.High(side) - e.Low(side)) / e.Low(side))
  {
    t := SideThreshold(e, side, config);
  }

  /** For prices above the smallest double, thresholds taken from a scan are those of the true lowest and highest price:
      each side's volatility v is (highest - lowest) / lowest, its multiplier a + b v + c v v, its threshold beta times
      that. */
  lemma ThresholdsOfScan(b: Doubles, ts: seq<Ticker>, config: InstConfig, side: Side)
    returns (low: real, high: real, t: Threshold)
    requires ts != [] && forall x :: x in ts ==> Finite(b, x) && x.Price(side) >= b.least
    ensures IsMinimum(low, ts, side) && IsMaximum(high, ts, side) && low > 0.0
    ensures HasNumbers(t, config, (high - low) / low)
    ensures Thresholds(Scanned(b, ts), config).Some? ==> t == On(Thresholds(Scanned(b, ts), config).value, side)
    ensures (forall x, other: Side :: x in ts ==> x.Price(other) >= b.least) ==>
            Thresholds(Scanned(b, ts), config).Some?
  {
    var e := Scanned(b, ts);
    forall other ensures (forall x :: x in ts ==> x.Price(other) >= b.least) ==> e.Low(other) > 0.0 {
      ScannedBounds(b, ts, other);
    }
    low, high := e.Low(side), e.High(side);
    ScannedExact(b, ts, side);
    assert ts[0] in ts && ts[0].Price(side) <= b.most;
    t := SideNumbers(e, config, side);
    ThresholdPerSide(e, config, side);
  }

  /** How what is published answers to volatility: at zero the multiplier is a, and between volatilities u and v it
      moves by (u - v) (b + c (u + v)); the threshold is always beta times the multiplier. */
  lemma PublishedLaw(e: Extremes, f: Extremes, config: InstConfig, side: Side) returns (p: Threshold, q: Threshold)
    requires e.Low(side) > 0.0 && f.Low(side) > 0.0
    ensures Thresholds(e, config).Some? ==> p == On(Thresholds(e, config).value, side)
    ensures Thresholds(f, config).Some? ==> q == On(Thresholds(f, config).value, side)
    ensures p.volatility == 0.0 ==> p.multiplier == config.a
    ensures p.multiplier - q.multiplier ==
            (p.volatility - q.volatility) * (config.b + config.c * (p.volatility + q.volatility))
    ensures p.threshold == p.multiplier * config.beta
  {
    p, q := LawOfSides(e, f, config, side);
    ThresholdPerSide(e, config, side);
    ThresholdPerSide(f, config, side);
  }

  lemma LawOfSides(e: Extremes, f: Extremes, config: InstConfig, side: Side) returns (p: Threshold, q: Threshold)
    requires e.Low(side) > 0.0 && f.Low(side) > 0.0
    ensures p == SideThreshold(e, side, config) && q == SideThreshold(f, side, config)
    ensures p.volatility == 0.0 ==> p.multiplier == config.a
    ensures p.multiplier - q.multiplier ==
            (p.volatility - q.volatility) * (config.b + config.c * (p.volatility + q.volatility))
    ensures p.threshold == p.multiplier * config.beta
  {
    p := SideNumbers(e, config, side);
    q := SideNumbers(f, config, side);
    SecantOf(p, q, config, p.volatility, q.volatility);
  }

  lemma SecantOf(p: Threshold, q: Threshold, config: InstConfig, u: real, v: real)
    requires HasNumbers(p, config, u) && HasNumbers(q, config, v)
    ensures p.multiplier - q.multiplier == (u - v) * (config.b + config.c * (u + v))
    ensures u == 0.0 ==> p.multiplier == config.a
  {
    var b, c := config.b, config.c;
    assert (u - v) * (b + c * (u + v)) == (u - v) * b + (u - v) * (c * (u + v));
    assert (u - v) * (c * (u + v)) == c * u * u - c * v * v;
  }

  // ----- both ways to go wrong happen

  function Flat(price: real, updated: nat): Ticker {
    Ticker(price, price, price, updated)
  }

  // A cache whose extremes are not valid.
  function Stale(b: Doubles, list: seq<Ticker>): Cache {
    Cache(list, AllCovered(|list|), Cleared(b), false)
  }

  lemma {:induction false} MarkedAll(list: seq<Ticker>, marks: seq<bool>)
    requires |marks| == |list| && forall i :: 0 <= i < |marks| ==> marks[i]
    ensures Marked(list, marks) == list
  {
    if list != [] { MarkedAll(list[1..], marks[1..]); }
  }

  lemma PushOnto(b: Doubles, list: seq<Ticker>, worker: Calculator, t: Ticker, now: nat, remain: nat)
    requires !Expired((list + [t])[0], now, remain)
    ensures Do(b, Shared(Stale(b, list), worker), Update(t, now, remain)) ==
            Shared(Stale(b, list + [t]), Follow(worker, 0))
  {
    assert AllCovered(|list|) + [true] == AllCovered(|list + [t]|);
    assert ExpiredFront(list + [t], now, remain) == 0;
  }

  lemma CopyAll(b: Doubles, list: seq<Ticker>, now: nat, interval: nat)
    requires |list| >= interval && forall t :: t in list ==> t.updated > SubU64(now, interval * 1000)
    ensures Recent(Shared(Stale(b, list), Needed(now, interval))) == list
    ensures Do(b, Shared(Stale(b, list), Needed(now, interval)), Copy) ==
            Shared(Stale(b, list), Copied(Scanned(b, list), AllCovered(|list|)))
  {
    var marks := RecentMarks(list, SubU64(now, interval * 1000));
    MarkedAll(list, marks);
    assert marks == AllCovered(|list|);
  }

  function Next(b: Doubles): (Shared, Step, Shared) -> bool {
    (s, step, t) => Enabled(s, step) && t == Do(b, s, step)
  }

  lemma PathIsRun(b: Doubles, states: seq<Shared>, steps: seq<Step>)
    requires IsPath(Next(b), states, steps) && Init(b, states[0])
    ensures IsRun(b, states, steps)
  {
    forall k | 0 <= k < |steps| ensures Enabled(states[k], steps[k]) && states[k + 1] == Do(b, states[k], steps[k]) {
      assert Next(b)(states[k], steps[k], states[k + 1]);
    }
  }

  lemma PushPath(b: Doubles, list: seq<Ticker>, t: Ticker, now: nat, remain: nat) returns (path: seq<Shared>)
    requires !Expired((list + [t])[0], now, remain)
    ensures path == [Shared(Stale(b, list), Waiting), Shared(Stale(b, list + [t]), Waiting)]
    ensures IsPath(Next(b), path, [Update(t, now, remain)])
  {
    PushOnto(b, list, Waiting, t, now, remain);
    path := [Shared(Stale(b, list), Waiting), Shared(Stale(b, list + [t]), Waiting)];
  }

  // A pass that finds the cache stale and copies every ticker.
  lemma CopyPath(b: Doubles, list: seq<Ticker>, now: nat, interval: nat) returns (path: seq<Shared>)
    requires |list| >= interval && forall t :: t in list ==> t.updated > SubU64(now, interval * 1000)
    ensures IsPath(Next(b), path, [Read(now, interval), Copy]) && path[0] == Shared(Stale(b, list), Waiting)
    ensures path[2] == Shared(Stale(b, list), Copied(Scanned(b, list), AllCovered(|list|)))
  {
    CopyAll(b, list, now, interval);
    path := [Shared(Stale(b, list), Waiting), Shared(Stale(b, list), Needed(now, interval)),
             Shared(Stale(b, list), Copied(Scanned(b, list), AllCovered(|list|)))];
  }

  // An update while a copy is out, and then the store.
  lemma StorePath(b: Doubles, list: seq<Ticker>, e: Extremes, step: Step, after: seq<Ticker>)
    returns (path: seq<Shared>)
    requires step.Update? && Do(b, Shared(Stale(b, list), Copied(e, AllCovered(|list|))), step) ==
                             Shared(Stale(b, after), Copied(e, AllCovered(|after|)))
    ensures IsPath(Next(b), path, [step, Store]) && path[0] == Shared(Stale(b, list), Copied(e, AllCovered(|list|)))
    ensures path[2].cache == Cache(after, AllCovered(|after|), e, true)
  {
    path := [Shared(Stale(b, list), Copied(e, AllCovered(|list|))),
             Shared(Stale(b, after), Copied(e, AllCovered(|after|))),
             Shared(Cache(after, AllCovered(|after|), e, true), Waiting)];
  }

  /** A ticker pushed between copy and store is held and counts as covered, but the stored maximum is below it. */
  lemma StoreMissesPush(b: Doubles) returns (states: seq<Shared>, steps: seq<Step>)
    requires b.least <= 10.0 && 12.0 <= b.most
    ensures IsRun(b, states, steps) && Sensible(b, steps)
    ensures steps == [Update(Flat(10.0, 1000), 1000, 1), Read(1000, 1), Copy, Update(Flat(12.0, 1001), 1001, 1), Store]
    ensures states[5].cache.valid && states[5].cache.extremes.maxBid == 10.0 && Flat(12.0, 1001) in states[5].cache.list
    ensures !Sound(b, states[5].cache)
  {
    var t, u, e := Flat(10.0, 1000), Flat(12.0, 1001), Scanned(b, [Flat(10.0, 1000)]);
    assert [] + [t] == [t] && [t] + [u] == [t, u];
    var push := PushPath(b, [], t, 1000, 1);
    var copy := CopyPath(b, [t], 1000, 1);
    PushOnto(b, [t], Copied(e, AllCovered(1)), u, 1001, 1);
    assert Follow(Copied(e, AllCovered(1)), 0) == Copied(e, AllCovered(2));
    var store := StorePath(b, [t], e, Update(u, 1001, 1), [t, u]);
    states, steps := push + copy[1..], [Update(t, 1000, 1)] + [Read(1000, 1), Copy];
    PathsJoin(Next(b), push, [Update(t, 1000, 1)], copy, [Read(1000, 1), Copy]);
    PathsJoin(Next(b), states, steps, store, [Update(u, 1001, 1), Store]);
    states, steps := states + store[1..], steps + [Update(u, 1001, 1), Store];
    assert Stale(b, []) == Cache([], [], Cleared(b), false);
    PathIsRun(b, states, steps);
    MissedPushIsUnsound(b);
  }

  lemma MissedPushIsUnsound(b: Doubles)
    requires b.least <= 10.0 && 12.0 <= b.most
    ensures var t, u := Flat(10.0, 1000), Flat(12.0, 1001);
            Scanned(b, [t]).maxBid == 10.0 && !Sound(b, Cache([t, u], AllCovered(2), Scanned(b, [t]), true))
  {
    var t, u := Flat(10.0, 1000), Flat(12.0, 1001);
    ScannedOne(b, t);
    MarkedAll([t, u], AllCovered(2));
    ScannedBounds(b, [t, u], Bid);
    assert u in [t, u];
  }

  lemma ScannedOne(b: Doubles, t: Ticker)
    requires forall side :: b.least <= t.Price(side) <= b.most
    ensures Scanned(b, [t]) == Extremes(t.bid, t.bid, t.ask, t.ask, t.avg, t.avg)
  {
    assert [t][..0] == [];
    assert b.least <= t.Price(Bid) <= b.most && b.least <= t.Price(Ask) <= b.most && b.least <= t.Price(Avg) <= b.most;
  }

  // The update that lets the first of three tickers expire.
  lemma PushAndPop(b: Doubles, e: Extremes, t: Ticker, u: Ticker, v: Ticker)
    requires t.updated == 1 && u.updated == 1000 && v.updated == 1002
    ensures Do(b, Shared(Stale(b, [t, u]), Copied(e, AllCovered(2))), Update(v, 1002, 1)) ==
            Shared(Stale(b, [u, v]), Copied(e, AllCovered(2)))
  {
    var pushed := Cache([t, u, v], AllCovered(3), Cleared(b), false);
    assert [t, u] + [v] == [t, u, v] && AllCovered(2) + [true] == AllCovered(3);
    assert [t, u, v][1..] == [u, v] && AllCovered(3)[1..] == AllCovered(2);
    FirstExpired(t, u, v);
    assert Pushed(Stale(b, [t, u]), v) == pushed;
    var next := Stale(b, [u, v]);
    assert DropExpired(b, next, 1002, 1) == next;
    assert DropExpired(b, pushed, 1002, 1) == next;
  }

  lemma FirstExpired(t: Ticker, u: Ticker, v: Ticker)
    requires t.updated == 1 && u.updated == 1000 && v.updated == 1002
    ensures ExpiredFront([t, u] + [v], 1002, 1) == 1 && ExpiredFront([t, u, v], 1002, 1) == 1
  {
    assert [t, u] + [v] == [t, u, v] && [t, u, v][1..] == [u, v];
    assert ExpiredFront([u, v], 1002, 1) == 0;
  }

  lemma CopiedPair(b: Doubles, t: Ticker, u: Ticker) returns (states: seq<Shared>, steps: seq<Step>)
    requires t.updated == 1 && u.updated == 1000
    ensures IsPath(Next(b), states, steps) && Init(b, states[0])
    ensures steps == [Update(t, 1, 1), Update(u, 1000, 1), Read(1000, 1), Copy]
    ensures states[4] == Shared(Stale(b, [t, u]), Copied(Scanned(b, [t, u]), AllCovered(2)))
  {
    assert [] + [t] == [t] && [t] + [u] == [t, u];
    var first := PushPath(b, [], t, 1, 1);
    var second := PushPath(b, [t], u, 1000, 1);
    var copy := CopyPath(b, [t, u], 1000, 1);
    PathsJoin(Next(b), first, [Update(t, 1, 1)], second, [Update(u, 1000, 1)]);
    states, steps := first + second[1..], [Update(t, 1, 1)] + [Update(u, 1000, 1)];
    PathsJoin(Next(b), states, steps, copy, [Read(1000, 1), Copy]);
    states, steps := states + copy[1..], steps + [Read(1000, 1), Copy];
    assert Stale(b, []) == Cache([], [], Cleared(b), false);
  }

  // Two tickers copied, a third pushed as the first expires, and the copy stored.
  lemma StoreAfterExpiry(b: Doubles, t: Ticker, u: Ticker, v: Ticker) returns (states: seq<Shared>, steps: seq<Step>)
    requires t.updated == 1 && u.updated == 1000 && v.updated == 1002
    ensures IsRun(b, states, steps)
    ensures steps == [Update(t, 1, 1), Update(u, 1000, 1), Read(1000, 1), Copy, Update(v, 1002, 1), Store]
    ensures states[4] == Shared(Stale(b, [t, u]), Copied(Scanned(b, [t, u]), AllCovered(2)))
    ensures states[6].cache == Cache([u, v], AllCovered(2), Scanned(b, [t, u]), true)
  {
    states, steps := CopiedPair(b, t, u);
    PushAndPop(b, Scanned(b, [t, u]), t, u, v);
    var store := StorePath(b, [t, u], Scanned(b, [t, u]), Update(v, 1002, 1), [u, v]);
    PathsJoin(Next(b), states, steps, store, [Update(v, 1002, 1), Store]);
    states, steps := states + store[1..], steps + [Update(v, 1002, 1), Store];
    PathIsRun(b, states, steps);
  }

  /** A copied ticker that expires between copy and store lives on in the stored maximum, although nothing pushed in
      between passes the copied extremes. */
  lemma StoreKeepsExpired(b: Doubles) returns (states: seq<Shared>, steps: seq<Step>)
    requires b.least <= 5.0 && 10.0 <= b.most
    ensures IsRun(b, states, steps) && Sensible(b, steps)
    ensures steps == [Update(Flat(10.0, 1), 1, 1), Update(Flat(5.0, 1000), 1000, 1), Read(1000, 1), Copy,
                      Update(Flat(6.0, 1002), 1002, 1), Store]
    ensures states[6].cache.list == [Flat(5.0, 1000), Flat(6.0, 1002)]
    ensures states[6].cache.valid && states[6].cache.extremes.maxBid == 10.0 && !Sound(b, states[6].cache)
  {
    states, steps := StoreAfterExpiry(b, Flat(10.0, 1), Flat(5.0, 1000), Flat(6.0, 1002));
    KeptExpiredIsUnsound(b);
  }

  /** Not every disturbance is fatal: here the first ticker expires and touches the copied extremes, but the others have
      its prices and the store is exact. */
  lemma TiedExtremeSurvives(b: Doubles) returns (states: seq<Shared>, steps: seq<Step>)
    requires b.least <= 10.0 <= b.most
    ensures IsRun(b, states, steps) && Sensible(b, steps) && |steps| == 6 && steps[5].Store?
    ensures Disturbs(states[4], steps[4]) && states[6].cache.valid && Sound(b, states[6].cache)
  {
    var t, u, v := Flat(10.0, 1), Flat(10.0, 1000), Flat(10.0, 1002);
    states, steps := StoreAfterExpiry(b, t, u, v);
    FirstExpired(t, u, v);
    TiedScans(b, t, u);
    TiedScans(b, u, v);
    MarkedAll([u, v], AllCovered(2));
    assert (AllCovered(2) + [true])[0] && ([t, u] + [v])[0] == t;
    assert Scanned(b, [t, u]).Touched(t) by { assert t.Price(Bid) >= Scanned(b, [t, u]).High(Bid); }
  }

  lemma TiedScans(b: Doubles, t: Ticker, u: Ticker)
    requires b.least <= 10.0 <= b.most && t == Flat(10.0, t.updated) && u == Flat(10.0, u.updated)
    ensures Scanned(b, [t, u]) == Extremes(10.0, 10.0, 10.0, 10.0, 10.0, 10.0)
  {
    ScannedOne(b, t);
    assert [t, u][..1] == [t];
  }

  lemma KeptExpiredIsUnsound(b: Doubles)
    requires b.least <= 5.0 && 10.0 <= b.most
    ensures var t, u, v := Flat(10.0, 1), Flat(5.0, 1000), Flat(6.0, 1002);
            Scanned(b, [t, u]).maxBid == 10.0 && !Sound(b, Cache([u, v], AllCovered(2), Scanned(b, [t, u]), true))
  {
    var t, u, v := Flat(10.0, 1), Flat(5.0, 1000), Flat(6.0, 1002);
    MarkedAll([u, v], AllCovered(2));
    ScannedOne(b, t);
    ScannedOne(b, u);
    assert [t, u][..1] == [t] && [u, v][..1] == [u];
  }
}

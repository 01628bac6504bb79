/** From the strategy's decisions through the order slot to the trader's submissions. */
module EndToEnd {
  import opened ShmSlot
  import SP = SlotProtocol
  import TS = TradeScan
  import ST = Strategy
  import AP = AccountPositions

  /** The order record the strategy writes for an admitted order: side, price, volume and reduce-only flag. */
  predicate Carries(cells: Cells, a: ST.Admission) {
    && Fits(Order, cells)
    && cells[2] == Text(if a.decision.side.Buy? then "BUY" else "SELL")
    && cells[6] == Num(a.decision.price) && cells[7] == Num(a.decision.sizing.volume)
    && cells[8] == Long(if a.decision.sizing.reduceOnly then 1 else 0)
  }

  predicate Decided(log: seq<ST.Admission>, cells: Cells) {
    exists i :: 0 <= i < |log| && log[i].decision.written && Carries(cells, log[i])
  }

  /** Whatever is written to the slot is an order that strategy decided to write. */
  predicate OnlyWriter(steps: seq<SP.Step>, log: seq<ST.Admission>) {
    forall n :: 0 <= n < |steps| && steps[n].Begin? ==> Decided(log, steps[n].w)
  }

  // Everything under way or accepted was begun by the strategy.
  ghost predicate AllDecided(m: SP.Memory, log: seq<ST.Admission>) {
    && (forall k :: 0 <= k < |m.history| ==> Decided(log, m.history[k]))
    && (forall p :: 0 <= p < |m.procs| ==> UnderWay(m.procs[p], log))
  }

  predicate UnderWay(proc: SP.Process, log: seq<ST.Admission>) {
    proc.Peeking? || proc.SpinWrite? || proc.Locked? || proc.Writing? ==> Decided(log, proc.w)
  }

  lemma StepKeepsDecided(m: SP.Memory, step: SP.Step, log: seq<ST.Admission>)
    requires SP.Enabled(m, step) && AllDecided(m, log) && (step.Begin? ==> Decided(log, step.w))
    ensures AllDecided(SP.Do(m, step), log)
  {
    var n := SP.Do(m, step);
    assert UnderWay(m.procs[step.p], log);
    assert UnderWay(SP.ProcessAfter(m, step), log);
    forall p | 0 <= p < |n.procs| ensures UnderWay(n.procs[p], log) {
      if p != step.p { assert n.procs[p] == m.procs[p]; }
    }
  }

  lemma {:induction false} RunDecided(states: seq<SP.Memory>, steps: seq<SP.Step>, k: nat, log: seq<ST.Admission>)
    requires SP.IsRun(states, steps) && k < |states| && OnlyWriter(steps, log)
    ensures AllDecided(states[k], log)
  {
    if k > 0 {
      RunDecided(states, steps, k - 1, log);
      StepKeepsDecided(states[k - 1], steps[k - 1], log);
    }
  }

  // The record the order was read from says the same as the write it repeats.
  lemma CarriesAlike(cells: Cells, w: Cells, a: ST.Admission)
    requires Fits(Order, cells) && Carries(w, a) && cells[..Size(Order) - 1] == w[..Size(Order) - 1]
    ensures Carries(cells, a)
  {
    forall i | 0 <= i < 10 ensures cells[i] == w[i] {
      assert cells[..10][i] == w[..10][i];
    }
  }

  /** A submission that repeats a decision which closes: opposite to the side of the position read, at most its size. */
  predicate Closes(cells: Cells, a: ST.Admission, oneWay: bool) {
    && Carries(cells, a) && a.decision.written && ST.Closing(a)
    && (oneWay ==>
          && (if cells[2] == Text("BUY") then a.position.amount < 0.0 else a.position.amount > 0.0)
          && a.decision.sizing.volume <= AP.Abs(a.position.amount))
  }

  /** With close-only set, globally or for the asset, and the strategy as the slot's only writer, every order the trader
      submits, in any interleaving of slot accesses, is one that strategy decided on a position which it reduces. */
  lemma SubmittedOrdersClose(
    states: seq<SP.Memory>, steps: seq<SP.Step>, k: nat, rounds: seq<TS.Round>, validity: int,
    actuary: seq<ST.Actuary>, decisions: seq<ST.Step>, i: nat) returns (m: nat)
    requires SP.IsRun(states, steps) && k < |states| && states[0].kind == Order && TS.FedBy(states[k], rounds)
    requires ST.IsRun(actuary, decisions) && OnlyWriter(steps, actuary[|decisions|].log)
    requires actuary[0].cfg.closeOnly || actuary[0].cfg.assetCloseOnly
    requires i < |TS.Scan(0, rounds, validity).1|
    ensures var log := actuary[|decisions|].log;
            m < |log| && Closes(TS.Scan(0, rounds, validity).1[i].cells, log[m], ST.OneWay(decisions))
  {
    var log, sent := actuary[|decisions|].log, TS.Scan(0, rounds, validity).1[i];
    TS.SubmittedOnceInOrder(states, steps, k, rounds, validity);
    RunDecided(states, steps, k, log);
    var w := states[k].history[Version(Order, sent.cells) - 1];
    assert Decided(log, w);
    m :| 0 <= m < |log| && log[m].decision.written && Carries(w, log[m]);
    CarriesAlike(sent.cells, w, log[m]);
    ST.CloseOnlyNeverOpens(actuary, decisions, |decisions|, m);
  }
}

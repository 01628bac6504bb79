/** The trader's scan of its order slot (src/trader/trade_processor.cpp): skip versions already seen, drop orders
    past their validity, submit the rest when the gates (configuration, interval and rate limiters) allow. */
module TradeScan {
  import opened ShmSlot
  import opened SlotProtocol
  import TokenWindow
  import L = LimiterRuns

  /** Closed by configuration, interval, a missing service or the limiter; or open, with the entry of the limiter's
      history that granted the order and the time, on the limiter's clock, at which the order then left. */
  datatype Gate = Closed | Granted(entry: nat, sent: nat)

  /** One scan round: the snapshot read, the clock in microseconds, and the gates it found. */
  datatype Round = Round(cells: Cells, now: int, gate: Gate)

  datatype Submission = Submission(cells: Cells, at: int, entry: nat, sent: nat)

  predicate Expired(r: Round, validity: int) {
    r.now > Time(Order, r.cells) + validity
  }

  ghost function Scan(seen: int, rounds: seq<Round>, validity: int): (r: (int, seq<Submission>)) {
    if rounds == [] then (seen, [])
    else
      var (before, sent) := Scan(seen, rounds[..|rounds| - 1], validity);
      var last := rounds[|rounds| - 1];
      if Version(Order, last.cells) <= before then (before, sent)
      else if Expired(last, validity) || last.gate.Closed? then (Version(Order, last.cells), sent)
      else (Version(Order, last.cells), sent + [Submission(last.cells, last.now, last.gate.entry, last.gate.sent)])
  }

  method ScanAndSend(rounds: seq<Round>, validity: int) returns (orderVersion: int, sent: seq<Submission>)
    ensures (orderVersion, sent) == Scan(0, rounds, validity)
  {
    orderVersion, sent := 0, [];
    for i := 0 to |rounds|
      invariant (orderVersion, sent) == Scan(0, rounds[..i], validity)
    {
      assert rounds[..i + 1][..i] == rounds[..i];
      var round := rounds[i];
      if Version(Order, round.cells) <= orderVersion {
        continue;
      }
      orderVersion := Version(Order, round.cells);
      if round.now > Time(Order, round.cells) + validity {
        continue;
      }
      if round.gate.Granted? {
        sent := sent + [Submission(round.cells, round.now, round.gate.entry, round.gate.sent)];
      }
    }
    assert rounds[..|rounds|] == rounds;
  }

  lemma {:induction false} ScanSound(rounds: seq<Round>, validity: int)
    ensures var (seen, sent) := Scan(0, rounds, validity);
            && (forall i :: 0 <= i < |sent| ==>
                  && 0 < Version(Order, sent[i].cells) <= seen
                  && sent[i].at <= Time(Order, sent[i].cells) + validity
                  && exists j :: 0 <= j < |rounds| && rounds[j].cells == sent[i].cells && rounds[j].now == sent[i].at)
            && (forall i, j :: 0 <= i < j < |sent| ==> Version(Order, sent[i].cells) < Version(Order, sent[j].cells))
            && seen >= 0
  {
    if rounds != [] {
      var front := rounds[..|rounds| - 1];
      ScanSound(front, validity);
      var (before, earlier) := Scan(0, front, validity);
      var (seen, sent) := Scan(0, rounds, validity);
      forall i | 0 <= i < |sent|
        ensures exists j :: 0 <= j < |rounds| && rounds[j].cells == sent[i].cells && rounds[j].now == sent[i].at
      {
        if i < |earlier| {
          var j :| 0 <= j < |front| && front[j].cells == earlier[i].cells && front[j].now == earlier[i].at;
          assert rounds[j] == front[j] && sent[i] == earlier[i];
        } else {
          assert rounds[|rounds| - 1].cells == sent[i].cells;
        }
      }
    }
  }

  // Round j shows an order no earlier round did.
  predicate FirstShown(rounds: seq<Round>, j: nat)
    requires j < |rounds|
  {
    && Version(Order, rounds[j].cells) > 0
    && forall i :: 0 <= i < j ==> Version(Order, rounds[i].cells) < Version(Order, rounds[j].cells)
  }

  /** Whether an order is sent depends on the rounds alone: its version is above all shown before, whatever became of
      those, it is within its validity, and the gates are open in this very round. */
  predicate ToSend(rounds: seq<Round>, j: nat, validity: int)
    requires j < |rounds|
  {
    && FirstShown(rounds, j)
    && rounds[j].now <= LongAt(rounds[j].cells, 9) + validity
    && rounds[j].gate.Granted?
  }

  // The version to beat is the highest shown so far.
  lemma {:induction false} SeenIsHighest(rounds: seq<Round>, validity: int)
    ensures var seen := Scan(0, rounds, validity).0;
            && seen >= 0 && (forall i :: 0 <= i < |rounds| ==> Version(Order, rounds[i].cells) <= seen)
            && (seen == 0 || exists i :: 0 <= i < |rounds| && Version(Order, rounds[i].cells) == seen)
  {
    if rounds != [] {
      var front := rounds[..|rounds| - 1];
      SeenIsHighest(front, validity);
      var before := Scan(0, front, validity).0;
      if i :| 0 <= i < |front| && Version(Order, front[i].cells) == before {
        assert rounds[i] == front[i];
      }
      forall i | 0 <= i < |rounds| ensures Version(Order, rounds[i].cells) <= Scan(0, rounds, validity).0 {
        if i < |front| { assert rounds[i] == front[i]; }
      }
    }
  }

  function SubmissionOf(round: Round): Submission
    requires round.gate.Granted?
  {
    Submission(round.cells, round.now, round.gate.entry, round.gate.sent)
  }

  lemma NextToSend(rounds: seq<Round>, n: nat, validity: int)
    requires n < |rounds|
    ensures Scan(0, rounds[..n + 1], validity).1 ==
            Scan(0, rounds[..n], validity).1 + if ToSend(rounds, n, validity) then [SubmissionOf(rounds[n])] else []
  {
    var before, last := Scan(0, rounds[..n], validity).0, rounds[n];
    assert rounds[..n + 1][..n] == rounds[..n];
    SeenIsHighest(rounds[..n], validity);
    assert Version(Order, last.cells) > before <==> FirstShown(rounds, n) by {
      assert forall i :: 0 <= i < n ==> rounds[..n][i] == rounds[i];
      if i :| 0 <= i < |rounds[..n]| && Version(Order, rounds[..n][i].cells) == before {
        assert Version(Order, rounds[i].cells) == before;
      }
    }
  }

  // The rounds before n whose orders are to be sent, in turn.
  function AllToSend(rounds: seq<Round>, n: nat, validity: int): seq<nat>
    requires n <= |rounds|
  {
    if n == 0 then []
    else AllToSend(rounds, n - 1, validity) + if ToSend(rounds, n - 1, validity) then [n - 1] else []
  }

  lemma {:induction false} AllToSendExactly(rounds: seq<Round>, n: nat, validity: int)
    requires n <= |rounds|
    ensures var at := AllToSend(rounds, n, validity);
            && (forall i, j :: 0 <= i < j < |at| ==> at[i] < at[j])
            && (forall j: nat :: j in at <==> j < n && ToSend(rounds, j, validity))
  {
    if n > 0 {
      AllToSendExactly(rounds, n - 1, validity);
      var front := AllToSend(rounds, n - 1, validity);
      forall i | 0 <= i < |front| ensures front[i] < n - 1 { assert front[i] in front; }
    }
  }

  lemma {:induction false} SentInTurn(rounds: seq<Round>, n: nat, validity: int)
    requires n <= |rounds|
    ensures var at, sent := AllToSend(rounds, n, validity), Scan(0, rounds[..n], validity).1;
            && |at| == |sent|
            && forall i :: 0 <= i < |at| ==>
                 at[i] < |rounds| && rounds[at[i]].gate.Granted? && sent[i] == SubmissionOf(rounds[at[i]])
  {
    if n > 0 {
      SentInTurn(rounds, n - 1, validity);
      NextToSend(rounds, n - 1, validity);
    }
  }

  /** A round's order is sent if and only if it is to be sent, and what is sent is exactly those orders in turn. */
  lemma SentExactlyWhen(rounds: seq<Round>, validity: int) returns (at: seq<nat>)
    ensures forall i, j :: 0 <= i < j < |at| ==> at[i] < at[j]
    ensures forall j: nat :: j in at <==> j < |rounds| && ToSend(rounds, j, validity)
    ensures var sent := Scan(0, rounds, validity).1;
            && |sent| == |at|
            && forall i :: 0 <= i < |at| ==>
                 && at[i] < |rounds| && sent[i].cells == rounds[at[i]].cells && sent[i].at == rounds[at[i]].now
                 && rounds[at[i]].gate == Granted(sent[i].entry, sent[i].sent)
  {
    at := AllToSend(rounds, |rounds|, validity);
    assert rounds[..|rounds|] == rounds;
    AllToSendExactly(rounds, |rounds|, validity);
    SentInTurn(rounds, |rounds|, validity);
  }

  /** The rounds show snapshots this memory really served, in whatever order. */
  ghost predicate FedBy(m: Memory, rounds: seq<Round>) {
    forall j :: 0 <= j < |rounds| ==> exists s :: 0 <= s < |m.snapshots| && m.snapshots[s].cells == rounds[j].cells
  }

  lemma ServedSnapshot(m: Memory, cells: Cells)
    requires Inv(m) && m.kind == Order && Version(Order, cells) > 0
    requires exists s :: 0 <= s < |m.snapshots| && m.snapshots[s].cells == cells
    ensures var v := Version(Order, cells);
            && v <= |m.history| && Fits(Order, cells) && Fits(Order, m.history[v - 1])
            && cells[..Size(Order) - 1] == m.history[v - 1][..Size(Order) - 1]
  {
    assert IsPrefixFold(m, cells);
    PrefixEndsWithWrite(m.start, m.history, Version(Order, cells));
  }

  lemma PrefixEndsWithWrite(start: Cells, history: seq<Cells>, v: nat)
    requires Fits(Order, start) && AllFit(Order, history) && 0 < v <= |history|
    ensures Stored(Order, start, history[..v])[..Size(Order) - 1] == history[v - 1][..Size(Order) - 1]
  {
    var prefix := history[..v];
    assert prefix[|prefix| - 1] == history[v - 1];
    forall i: nat | i < Size(Order) - 1 ensures Stored(Order, start, prefix)[i] == history[v - 1][i] {
      OrderSlotIsLastWrite(start, prefix, i);
    }
  }

  // A submission repeats the accepted write of its version, version aside, and is within its validity.
  ghost predicate Faithful(sent: Submission, history: seq<Cells>, validity: int) {
    var v := Version(Order, sent.cells);
    && 1 <= v <= |history| && Fits(Order, sent.cells) && Fits(Order, history[v - 1])
    && sent.cells[..Size(Order) - 1] == history[v - 1][..Size(Order) - 1]
    && sent.at <= Time(Order, history[v - 1]) + validity
  }

  lemma SubmissionFaithful(m: Memory, sent: Submission, validity: int)
    requires Inv(m) && m.kind == Order && Version(Order, sent.cells) > 0
    requires exists s :: 0 <= s < |m.snapshots| && m.snapshots[s].cells == sent.cells
    requires sent.at <= Time(Order, sent.cells) + validity
    ensures Faithful(sent, m.history, validity)
  {
    ServedSnapshot(m, sent.cells);
    var w := m.history[Version(Order, sent.cells) - 1];
    assert sent.cells[9] == sent.cells[..10][9] == w[..10][9] == w[9];
  }

  /** End to end over every run of the slot: what the trader submits are accepted orders, field for field, each at most
      once and in the order they were written, and none older than its validity. */
  lemma SubmittedOnceInOrder(states: seq<Memory>, steps: seq<Step>, k: nat, rounds: seq<Round>, validity: int)
    requires IsRun(states, steps) && k < |states| && states[0].kind == Order
    requires FedBy(states[k], rounds)
    ensures var sent := Scan(0, rounds, validity).1;
            && (forall i :: 0 <= i < |sent| ==> Faithful(sent[i], states[k].history, validity))
            && (forall i, j :: 0 <= i < j < |sent| ==> Version(Order, sent[i].cells) < Version(Order, sent[j].cells))
  {
    RunInv(states, steps, k);
    ScanSound(rounds, validity);
    var sent := Scan(0, rounds, validity).1;
    forall i | 0 <= i < |sent| ensures Faithful(sent[i], states[k].history, validity) {
      SubmissionFaithful(states[k], sent[i], validity);
    }
  }

  // ----- submissions and the rate limiter

  // The grants a scan obtained.
  function GrantsOf(rounds: seq<Round>): multiset<nat> {
    if rounds == [] then multiset{}
    else
      var last := rounds[|rounds| - 1];
      GrantsOf(rounds[..|rounds| - 1]) + if last.gate.Granted? then multiset{last.gate.entry} else multiset{}
  }

  /** How many orders left in a half-open interval of the limiter's clock. */
  function SentIn(sent: seq<Submission>, from: nat, to: nat): nat {
    if sent == [] then 0
    else SentIn(sent[..|sent| - 1], from, to) + if from <= sent[|sent| - 1].sent < to then 1 else 0
  }

  // The grants they left on.
  function CarriedIn(sent: seq<Submission>, from: nat, to: nat): (m: multiset<nat>)
    ensures |m| == SentIn(sent, from, to)
  {
    if sent == [] then multiset{}
    else
      var last := sent[|sent| - 1];
      CarriedIn(sent[..|sent| - 1], from, to) + if from <= last.sent < to then multiset{last.entry} else multiset{}
  }

  lemma {:induction false} CarriedAppend(sent: seq<Submission>, x: Submission, from: nat, to: nat)
    ensures CarriedIn(sent + [x], from, to) ==
            CarriedIn(sent, from, to) + if from <= x.sent < to then multiset{x.entry} else multiset{}
  {
    assert (sent + [x])[..|sent|] == sent;
  }

  // What one more round adds to the submissions, and to those that left in an interval.
  lemma {:induction false} RoundAdds(rounds: seq<Round>, validity: int, from: nat, to: nat)
    requires rounds != []
    ensures var gate := rounds[|rounds| - 1].gate;
            var before := CarriedIn(Scan(0, rounds[..|rounds| - 1], validity).1, from, to);
            var carried := CarriedIn(Scan(0, rounds, validity).1, from, to);
            carried == before || (gate.Granted? && from <= gate.sent < to && carried == before + multiset{gate.entry})
  {
    var last, earlier := rounds[|rounds| - 1], Scan(0, rounds[..|rounds| - 1], validity).1;
    if Scan(0, rounds, validity).1 != earlier {
      CarriedAppend(earlier, Submission(last.cells, last.now, last.gate.entry, last.gate.sent), from, to);
    }
  }

  /** A scan never submits twice on one grant. */
  lemma {:induction false} CarriedWithinGrants(rounds: seq<Round>, validity: int, from: nat, to: nat)
    ensures CarriedIn(Scan(0, rounds, validity).1, from, to) <= GrantsOf(rounds)
  {
    if rounds != [] {
      CarriedWithinGrants(rounds[..|rounds| - 1], validity, from, to);
      RoundAdds(rounds, validity, from, to);
    }
  }

  predicate LeftOn(gate: Gate, e: nat, from: nat, to: nat) {
    gate.Granted? && gate.entry == e && from <= gate.sent < to
  }

  // What left in an interval left on a grant whose round says so.
  lemma {:induction false} LeftInRound(rounds: seq<Round>, validity: int, from: nat, to: nat, e: nat) returns (j: nat)
    requires e in CarriedIn(Scan(0, rounds, validity).1, from, to)
    ensures j < |rounds| && LeftOn(rounds[j].gate, e, from, to)
  {
    RoundAdds(rounds, validity, from, to);
    if e in CarriedIn(Scan(0, rounds[..|rounds| - 1], validity).1, from, to) {
      j := LeftInRound(rounds[..|rounds| - 1], validity, from, to, e);
    } else {
      j := |rounds| - 1;
    }
  }

  // All scanning threads together, one per asset.
  function AllGrants(threads: seq<seq<Round>>): multiset<nat> {
    if threads == [] then multiset{} else GrantsOf(threads[0]) + AllGrants(threads[1..])
  }

  /** How many orders all of them sent in a half-open interval. */
  ghost function AllSentIn(threads: seq<seq<Round>>, validity: int, from: nat, to: nat): nat {
    if threads == [] then 0
    else SentIn(Scan(0, threads[0], validity).1, from, to) + AllSentIn(threads[1..], validity, from, to)
  }

  // The grant is an order in the limiter's history, cost a token, and its order left at most delay after it.
  predicate Follows(gate: Gate, log: seq<L.Entry>, delay: nat) {
    gate.Granted? ==>
      && gate.entry < |log| && log[gate.entry].Order? && log[gate.entry].n >= 1
      && log[gate.entry].at <= gate.sent <= log[gate.entry].at + delay
  }

  /** Every open gate was a grant of the limiter, no grant served two rounds, and orders left within the delay. */
  ghost predicate OneGrantEach(log: seq<L.Entry>, threads: seq<seq<Round>>, delay: nat) {
    && (forall e: nat :: AllGrants(threads)[e] <= 1)
    && (forall i, j :: 0 <= i < |threads| && 0 <= j < |threads[i]| ==> Follows(threads[i][j].gate, log, delay))
  }

  // The grant lies in the interval stretched back by the delay.
  predicate PaidIn(log: seq<L.Entry>, e: nat, from: nat, to: nat) {
    e < |log| && log[e].Order? && log[e].n >= 1 && from <= log[e].at < to
  }

  // The grants on which all those orders left.
  lemma {:induction false} AllCarried(
    log: seq<L.Entry>, threads: seq<seq<Round>>, validity: int, delay: nat, from: nat, to: nat, start: nat)
    returns (m: multiset<nat>)
    requires forall i, j :: 0 <= i < |threads| && 0 <= j < |threads[i]| ==> Follows(threads[i][j].gate, log, delay)
    requires start + delay <= from || start == 0
    ensures |m| == AllSentIn(threads, validity, from, to) && m <= AllGrants(threads)
    ensures forall e :: e in m ==> PaidIn(log, e, start, to)
  {
    if threads == [] {
      m := multiset{};
    } else {
      var rest := AllCarried(log, threads[1..], validity, delay, from, to, start);
      var first := CarriedPaid(log, threads[0], validity, delay, from, to, start);
      m := first + rest;
    }
  }

  lemma CarriedPaid(
    log: seq<L.Entry>, rounds: seq<Round>, validity: int, delay: nat, from: nat, to: nat, start: nat)
    returns (m: multiset<nat>)
    requires forall j :: 0 <= j < |rounds| ==> Follows(rounds[j].gate, log, delay)
    requires start + delay <= from || start == 0
    ensures |m| == SentIn(Scan(0, rounds, validity).1, from, to) && m <= GrantsOf(rounds)
    ensures forall e :: e in m ==> PaidIn(log, e, start, to)
  {
    CarriedWithinGrants(rounds, validity, from, to);
    m := CarriedIn(Scan(0, rounds, validity).1, from, to);
    forall e | e in m ensures PaidIn(log, e, start, to) {
      var j := LeftInRound(rounds, validity, from, to, e);
      assert Follows(rounds[j].gate, log, delay);
    }
  }

  lemma {:induction false} PaidWithinTokens(log: seq<L.Entry>, m: multiset<nat>, from: nat, to: nat)
    requires forall e :: e in m ==> m[e] <= 1 && PaidIn(log, e, from, to)
    ensures |m| <= L.Tokens(log, L.Account, from, to)
  {
    if log == [] {
      assert m == multiset{};
    } else {
      var i := |log| - 1;
      var rest := m[i := 0];
      forall e | e in rest ensures rest[e] <= 1 && PaidIn(log[..i], e, from, to) {
        assert e in m && PaidIn(log, e, from, to);
      }
      PaidWithinTokens(log[..i], rest, from, to);
      assert |rest| == |m| - m[i];
      assert i in m ==> PaidIn(log, i, from, to);
    }
  }

  /** From the order slots to the exchange: whatever the scanning threads read, and however getters, creators and sweeps
      interleave in the limiter, if an order leaves at most delay after its grant and a sweep takes effect at most lag
      after its clock reading, the orders sent in any interval stay within the account's rate over its length plus both
      delays. */
  lemma {:induction false} SubmissionsWithinRate(
    states: seq<L.Boss>, steps: seq<L.Step>, k: nat, threads: seq<seq<Round>>, validity: int,
    span: L.Span, lag: nat, delay: nat, from: nat, length: nat)
    requires L.IsRun(states, steps) && k < |states| && L.PromptRun(states, steps, k, lag)
    requires L.At(states[0].account, span).duration > 0
    requires OneGrantEach(states[k].log, threads, delay)
    ensures var w := L.At(states[0].account, span);
            AllSentIn(threads, validity, from, from + length) <=
            (TokenWindow.CeilDiv(length + delay + lag, w.duration) + 1) * w.Quota()
  {
    var start := if delay <= from then from - delay else 0;
    SentWithinTokens(states[k].log, threads, validity, delay, from, length, start);
    L.AccountRate(states, steps, k, span, lag, start, length + delay);
  }

  lemma {:induction false} SentWithinTokens(
    log: seq<L.Entry>, threads: seq<seq<Round>>, validity: int, delay: nat, from: nat, length: nat, start: nat)
    requires OneGrantEach(log, threads, delay) && (start == 0 || start + delay == from) && from <= start + delay
    ensures AllSentIn(threads, validity, from, from + length) <=
            L.Tokens(log, L.Account, start, start + (length + delay))
  {
    var carried := AllCarried(log, threads, validity, delay, from, from + length, start);
    PaidOnce(log, carried, AllGrants(threads), start, from + length, start + (length + delay));
  }

  lemma PaidOnce(log: seq<L.Entry>, m: multiset<nat>, grants: multiset<nat>, from: nat, to: nat, later: nat)
    requires m <= grants && (forall e: nat :: grants[e] <= 1) && to <= later
    requires forall e :: e in m ==> PaidIn(log, e, from, to)
    ensures |m| <= L.Tokens(log, L.Account, from, later)
  {
    forall e | e in m ensures m[e] <= 1 && PaidIn(log, e, from, later) {
      assert m[e] <= grants[e];
    }
    PaidWithinTokens(log, m, from, later);
  }
}

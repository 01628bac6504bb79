/** Layout and update rules of the four kinds of shared-memory slot
    (src/shm/order_shm.cpp, src/shm/threshold_shm.cpp, src/shm/ticker_shm.cpp). */
module ShmSlot {

  datatype Cell = Text(s: string) | Num(r: real) | Long(i: int)

  datatype Kind = Order | EarlyRun | Beta | Ticker

  type Cells = seq<Cell>

  /** Field counts, lock excluded. Every kind ends with its time stamp and its version number:
      Order    inst_id type side pos_side time_in_force client_order_id price volume reduce_only update_time version
      EarlyRun asset avg_median bid_ask_median ask_bid_median time_mills version
      Beta     asset (sma volatility multiplier threshold) for avg, bid and ask, time_mills version
      Ticker   inst_id bid_price bid_size ask_price ask_size update_id update_time version */
  function Size(kind: Kind): nat {
    match kind
    case Order => 11
    case EarlyRun => 6
    case Beta => 15
    case Ticker => 8
  }

  predicate Fits(kind: Kind, cells: Cells) {
    |cells| == Size(kind)
  }

  function LongAt(cells: Cells, i: nat): int {
    if i < |cells| && cells[i].Long? then cells[i].i else 0
  }

  predicate PositiveAt(cells: Cells, i: nat) {
    i < |cells| && cells[i].Num? && cells[i].r > 0.0
  }

  function Version(kind: Kind, cells: Cells): int {
    LongAt(cells, Size(kind) - 1)
  }

  function Time(kind: Kind, cells: Cells): int {
    LongAt(cells, Size(kind) - 2)
  }

  function UpdateId(kind: Kind, cells: Cells): int {
    if kind.Ticker? then LongAt(cells, 5) else 0
  }

  /** The staleness test, on the id and time read from the slot. */
  predicate Admits(kind: Kind, id: int, time: int, w: Cells) {
    match kind
    case Order => time < Time(kind, w)
    case EarlyRun => time <= Time(kind, w)
    case Beta => time <= Time(kind, w)
    case Ticker => id < UpdateId(kind, w) || time < Time(kind, w)
  }

  /** Spelled out on the fields: an order must be newer, a threshold not older, a ticker newer in id or in time. */
  lemma AdmitsExactlyWhen(id: int, time: int, w: Cells)
    ensures Admits(Order, id, time, w) <==> time < LongAt(w, 9)
    ensures Admits(EarlyRun, id, time, w) <==> time <= LongAt(w, 4)
    ensures Admits(Beta, id, time, w) <==> time <= LongAt(w, 13)
    ensures Admits(Ticker, id, time, w) <==> id < LongAt(w, 5) || time < LongAt(w, 6)
  {}

  predicate Accepts(kind: Kind, cells: Cells, w: Cells) {
    Admits(kind, UpdateId(kind, cells), Time(kind, cells), w)
  }

  function Range(lo: nat, hi: nat): seq<nat>
    requires lo <= hi
    ensures |Range(lo, hi)| == hi - lo
    ensures forall k :: 0 <= k < hi - lo ==> Range(lo, hi)[k] == lo + k
  {
    seq(hi - lo, k requires 0 <= k < hi - lo => lo + k)
  }

  /** The fields an accepted write copies, in program order; the version is bumped after them. */
  function Plan(kind: Kind, w: Cells): (plan: seq<nat>)
    ensures forall k :: 0 <= k < |plan| ==> plan[k] < Size(kind) - 1
    ensures |plan| > 0 && plan[|plan| - 1] == Size(kind) - 2
    ensures forall k :: 0 <= k < |plan| - 1 ==> plan[k] != Size(kind) - 2
  {
    match kind
    case Order => Range(0, 10)
    case EarlyRun => Range(1, 5)
    case Beta => Range(1, 14)
    case Ticker =>
      (if PositiveAt(w, 1) && PositiveAt(w, 2) then [1, 2] else []) +
      (if PositiveAt(w, 3) && PositiveAt(w, 4) then [3, 4] else []) + [5, 6]
  }

  // Cells after copying the fields listed in the first k entries of a plan.
  function Assigned(cells: Cells, w: Cells, plan: seq<nat>, k: nat): (r: Cells)
    requires |cells| == |w| && k <= |plan| && forall j :: 0 <= j < |plan| ==> plan[j] < |cells|
    ensures |r| == |cells|
  {
    if k == 0 then cells else Assigned(cells, w, plan, k - 1)[plan[k - 1] := w[plan[k - 1]]]
  }

  lemma {:induction false} AssignedCell(cells: Cells, w: Cells, plan: seq<nat>, k: nat, i: nat)
    requires |cells| == |w| && k <= |plan| && forall j :: 0 <= j < |plan| ==> plan[j] < |cells|
    requires i < |cells|
    ensures Assigned(cells, w, plan, k)[i] == if i in plan[..k] then w[i] else cells[i]
  {
    if k > 0 {
      AssignedCell(cells, w, plan, k - 1, i);
      assert plan[..k] == plan[..k - 1] + [plan[k - 1]];
    }
  }

  // The slot after the first k assignments of a write.
  function Copied(kind: Kind, cells: Cells, w: Cells, k: nat): (r: Cells)
    requires Fits(kind, cells) && Fits(kind, w) && k <= |Plan(kind, w)|
    ensures Fits(kind, r) && Version(kind, r) == Version(kind, cells)
    ensures Time(kind, r) == if k == |Plan(kind, w)| then Time(kind, w) else Time(kind, cells)
  {
    var plan, n := Plan(kind, w), Size(kind);
    assert n - 1 !in plan[..k];
    assert n - 2 in plan[..k] <==> k == |plan| by {
      assert k == |plan| ==> plan[..k][k - 1] == n - 2;
    }
    AssignedCell(cells, w, plan, k, n - 1);
    AssignedCell(cells, w, plan, k, n - 2);
    Assigned(cells, w, plan, k)
  }

  function Bumped(kind: Kind, cells: Cells): (r: Cells)
    requires Fits(kind, cells)
    ensures Fits(kind, r) && Version(kind, r) == Version(kind, cells) + 1
    ensures Time(kind, r) == Time(kind, cells) && UpdateId(kind, r) == UpdateId(kind, cells)
  {
    cells[Size(kind) - 1 := Long(Version(kind, cells) + 1)]
  }

  function Written(kind: Kind, cells: Cells, w: Cells): (r: Cells)
    requires Fits(kind, cells) && Fits(kind, w)
    ensures Fits(kind, r) && Version(kind, r) == Version(kind, cells) + 1 && Time(kind, r) == Time(kind, w)
  {
    Bumped(kind, Copied(kind, cells, w, |Plan(kind, w)|))
  }

  ghost predicate AllFit(kind: Kind, writes: seq<Cells>) {
    forall k :: 0 <= k < |writes| ==> Fits(kind, writes[k])
  }

  /** The slot a sequence of accepted writes leaves behind. */
  ghost function Stored(kind: Kind, start: Cells, writes: seq<Cells>): (r: Cells)
    requires Fits(kind, start) && AllFit(kind, writes)
    ensures Fits(kind, r) && Version(kind, r) == Version(kind, start) + |writes|
    ensures writes != [] ==> Time(kind, r) == Time(kind, writes[|writes| - 1])
  {
    if writes == [] then start
    else
      Written(kind, Stored(kind, start, writes[..|writes| - 1]), writes[|writes| - 1])
  }

  /** Every write in the history passed the staleness test against the fold of the writes before it. */
  ghost predicate AcceptedInTurn(kind: Kind, start: Cells, history: seq<Cells>)
    requires Fits(kind, start) && AllFit(kind, history)
  {
    history == [] ||
    var front := history[..|history| - 1];
    AcceptedInTurn(kind, start, front) && Accepts(kind, Stored(kind, start, front), history[|history| - 1])
  }

  /** The cells are the fold of writes that were each accepted in turn. */
  ghost predicate HoldsFold(kind: Kind, cells: Cells, start: Cells, accepted: seq<Cells>) {
    && Fits(kind, start) && AllFit(kind, accepted)
    && AcceptedInTurn(kind, start, accepted) && cells == Stored(kind, start, accepted)
  }

  lemma FoldExtends(kind: Kind, cells: Cells, start: Cells, accepted: seq<Cells>, w: Cells)
    requires HoldsFold(kind, cells, start, accepted) && Fits(kind, w) && Accepts(kind, cells, w)
    ensures HoldsFold(kind, Written(kind, cells, w), start, accepted + [w])
  {
    assert (accepted + [w])[..|accepted|] == accepted;
  }

  // ----- what an accepted write leaves in each field

  lemma WrittenCell(kind: Kind, cells: Cells, w: Cells, i: nat)
    requires Fits(kind, cells) && Fits(kind, w) && i < Size(kind) - 1
    ensures Written(kind, cells, w)[i] == if i in Plan(kind, w) then w[i] else cells[i]
  {
    var plan := Plan(kind, w);
    AssignedCell(cells, w, plan, |plan|, i);
    assert plan[..|plan|] == plan;
  }

  /** An order slot holds exactly its last accepted order: no field survives from an older one. */
  lemma OrderSlotIsLastWrite(start: Cells, writes: seq<Cells>, i: nat)
    requires Fits(Order, start) && AllFit(Order, writes) && writes != [] && i < Size(Order) - 1
    ensures Stored(Order, start, writes)[i] == writes[|writes| - 1][i]
  {
    var w := writes[|writes| - 1];
    assert Plan(Order, w)[i] == i;
    WrittenCell(Order, Stored(Order, start, writes[..|writes| - 1]), w, i);
  }

  /** A threshold slot holds its last accepted threshold in every field but the asset name, which is never written. */
  lemma {:induction false} ThresholdSlotIsLastWrite(kind: Kind, start: Cells, writes: seq<Cells>, i: nat)
    requires kind.EarlyRun? || kind.Beta?
    requires Fits(kind, start) && AllFit(kind, writes) && i < Size(kind) - 1
    ensures Stored(kind, start, writes)[i] == if i == 0 || writes == [] then start[i] else writes[|writes| - 1][i]
  {
    if writes != [] {
      var front, w := writes[..|writes| - 1], writes[|writes| - 1];
      ThresholdSlotIsLastWrite(kind, start, front, i);
      WrittenCell(kind, Stored(kind, start, front), w, i);
      if i > 0 { assert Plan(kind, w)[i - 1] == i; }
    }
  }

  /** And a ticker slot holds id and time of its last accepted ticker, under the name it started with. */
  lemma {:induction false} TickerKeepsIdAndTime(start: Cells, writes: seq<Cells>)
    requires Fits(Ticker, start) && AllFit(Ticker, writes)
    ensures Stored(Ticker, start, writes)[0] == start[0]
    ensures writes != [] ==>
              && Stored(Ticker, start, writes)[5] == writes[|writes| - 1][5]
              && Stored(Ticker, start, writes)[6] == writes[|writes| - 1][6]
  {
    if writes != [] {
      var front, w := writes[..|writes| - 1], writes[|writes| - 1];
      TickerKeepsIdAndTime(start, front);
      var before, plan := Stored(Ticker, start, front), Plan(Ticker, w);
      assert plan[|plan| - 2] == 5 && plan[|plan| - 1] == 6 && 0 !in plan;
      WrittenCell(Ticker, before, w, 0);
      WrittenCell(Ticker, before, w, 5);
      WrittenCell(Ticker, before, w, 6);
    }
  }

  /** The last write whose two fields at i and i + 1 are both positive, if any. */
  ghost function LastPositivePair(writes: seq<Cells>, i: nat): (last: int)
    ensures -1 <= last < |writes|
  {
    if writes == [] then -1
    else if PositiveAt(writes[|writes| - 1], i) && PositiveAt(writes[|writes| - 1], i + 1) then |writes| - 1
    else LastPositivePair(writes[..|writes| - 1], i)
  }

  /** A ticker slot keeps, for bid (i = 1) and ask (i = 3) apart, price and size of the last write that had both
      positive. */
  lemma {:induction false} TickerKeepsLastPositive(start: Cells, writes: seq<Cells>, i: nat, field: nat)
    requires Fits(Ticker, start) && AllFit(Ticker, writes)
    requires (i == 1 || i == 3) && (field == i || field == i + 1)
    ensures Stored(Ticker, start, writes)[field] ==
            if LastPositivePair(writes, i) >= 0 then writes[LastPositivePair(writes, i)][field] else start[field]
  {
    if writes != [] {
      var front, w := writes[..|writes| - 1], writes[|writes| - 1];
      TickerKeepsLastPositive(start, front, i, field);
      var before := Stored(Ticker, start, front);
      assert Stored(Ticker, start, writes) == Written(Ticker, before, w);
      TickerWritesPair(before, w, i, field);
      if PositiveAt(w, i) && PositiveAt(w, i + 1) {
        assert LastPositivePair(writes, i) == |writes| - 1;
      } else {
        assert LastPositivePair(writes, i) == LastPositivePair(front, i);
      }
    }
  }

  lemma TickerWritesPair(cells: Cells, w: Cells, i: nat, field: nat)
    requires Fits(Ticker, cells) && Fits(Ticker, w)
    requires (i == 1 || i == 3) && (field == i || field == i + 1)
    ensures Written(Ticker, cells, w)[field] == if PositiveAt(w, i) && PositiveAt(w, i + 1) then w[field]
            else cells[field]
  {
    WrittenCell(Ticker, cells, w, field);
    PlanHasPair(w, i, field);
  }

  lemma PlanHasPair(w: Cells, i: nat, field: nat)
    requires (i == 1 || i == 3) && (field == i || field == i + 1)
    ensures field in Plan(Ticker, w) <==> PositiveAt(w, i) && PositiveAt(w, i + 1)
  {
    var bid := if PositiveAt(w, 1) && PositiveAt(w, 2) then [1, 2] else [];
    var ask := if PositiveAt(w, 3) && PositiveAt(w, 4) then [3, 4] else [];
    assert Plan(Ticker, w) == bid + ask + [5, 6];
    assert field in Plan(Ticker, w) <==> field in bid || field in ask;
  }

  // ----- when a rejection can be trusted later

  /** A write that lowers neither the id nor the time of what is stored. */
  predicate Raises(kind: Kind, cells: Cells, w: Cells) {
    UpdateId(kind, cells) <= UpdateId(kind, w) && Time(kind, cells) <= Time(kind, w)
  }

  /** In order and threshold slots an accepted write always does; in ticker slots one of the two may drop. */
  lemma AcceptedRaises(kind: Kind, cells: Cells, w: Cells)
    requires !kind.Ticker? && Accepts(kind, cells, w)
    ensures Raises(kind, cells, w)
  {}

  lemma TickerWritten(cells: Cells, w: Cells)
    requires Fits(Ticker, cells) && Fits(Ticker, w)
    ensures UpdateId(Ticker, Written(Ticker, cells, w)) == UpdateId(Ticker, w)
    ensures Time(Ticker, Written(Ticker, cells, w)) == Time(Ticker, w)
  {
    var plan := Plan(Ticker, w);
    assert plan[|plan| - 2] == 5;
    WrittenCell(Ticker, cells, w, 5);
  }
}

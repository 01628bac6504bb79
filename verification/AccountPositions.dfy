/** Positions as the account container keeps them (src/actuary/account_container.cpp). */
module AccountPositions {
  import opened Options

  datatype PositionSide = Long | Short | Both | Unset

  datatype Position = Position(side: PositionSide, amount: real, amountAbs: real)

  // What a fresh entry holds before the first report.
  const NO_POSITION := Position(Unset, 0.0, 0.0)

  function Abs(x: real): real {
    if x < 0.0 then -x else x
  }

  /** A one-way ("BOTH") report gets its side from the sign of its amount; any other side is kept as reported. */
  function Normalised(side: PositionSide, amount: real): Position {
    var kept := if side != Both then side else if amount < 0.0 then Short else if amount > 0.0 then Long else Both;
    Position(kept, amount, Abs(amount))
  }

  predicate SideMatchesSign(p: Position) {
    && (p.side == Short <==> p.amount < 0.0)
    && (p.side == Long <==> p.amount > 0.0)
    && p.amountAbs == Abs(p.amount)
  }

  /** A position keeps the reported amount and its absolute value. Side and sign agree for every one-way report; for a
      hedge-mode report, whose side is kept, exactly when it was reported so. */
  lemma NormalisedAgrees(side: PositionSide, amount: real)
    ensures Normalised(side, amount).amount == amount
    ensures Normalised(side, amount).amountAbs == (if amount < 0.0 then -amount else amount)
    ensures side != Both ==> Normalised(side, amount).side == side
    ensures side == Both && amount == 0.0 ==> Normalised(side, amount).side == Both
    ensures SideMatchesSign(Normalised(side, amount)) <==>
            side == Both || ((side == Short <==> amount < 0.0) && (side == Long <==> amount > 0.0))
  {}

  /** A position report, polled or from the event stream. */
  datatype Report = Report(symbol: string, side: PositionSide, amount: real)

  /** What is known about an instrument after some reports: the last one about it, normalised. */
  function LastReported(reports: seq<Report>, symbol: string): Position {
    if reports == [] then NO_POSITION
    else
      var last := reports[|reports| - 1];
      if last.symbol == symbol then Normalised(last.side, last.amount)
      else LastReported(reports[..|reports| - 1], symbol)
  }

  lemma ReportAdded(reports: seq<Report>, report: Report, symbol: string)
    ensures LastReported(reports + [report], symbol) ==
            if report.symbol == symbol then Normalised(report.side, report.amount) else LastReported(reports, symbol)
  {
    assert (reports + [report])[..|reports|] == reports;
  }

  /** What is known about an instrument is exactly its last report: the amount as reported, its absolute value, and for
      a one-way report the side of its sign. */
  lemma {:induction false} LastReportShows(reports: seq<Report>, symbol: string, j: nat)
    requires j < |reports| && reports[j].symbol == symbol
    requires forall i :: j < i < |reports| ==> reports[i].symbol != symbol
    ensures var p, r := LastReported(reports, symbol), reports[j];
            && p.amount == r.amount && p.amountAbs == (if r.amount < 0.0 then -r.amount else r.amount)
            && p.side == if r.side != Both || r.amount == 0.0 then r.side else if r.amount < 0.0 then Short else Long
  {
    if j < |reports| - 1 {
      LastReportShows(reports[..|reports| - 1], symbol, j);
    }
  }

  class PositionComposite {
    var positions: map<string, Position>
    ghost var configured: set<string>
    ghost var reports: seq<Report>

    /** Exactly the configured instruments have an entry, and it reflects the last report about them. */
    ghost predicate Valid()
      reads this
    {
      positions == map symbol | symbol in configured :: LastReported(reports, symbol)
    }

    constructor (instIds: seq<string>)
      ensures Valid() && reports == [] && configured == set id | id in instIds
    {
      positions := map id | id in instIds :: NO_POSITION;
      configured, reports := set id | id in instIds, [];
    }

    // Both the polled report and the stream event update a known instrument only.
    method UpdateExistPosition(symbol: string, side: PositionSide, amount: real) returns (updated: bool)
      requires Valid()
      modifies this
      ensures Valid() && configured == old(configured) && reports == old(reports) + [Report(symbol, side, amount)]
      ensures updated == (symbol in configured)
    {
      forall s ensures LastReported(reports + [Report(symbol, side, amount)], s) ==
                       if s == symbol then Normalised(side, amount) else LastReported(reports, s) {
        ReportAdded(reports, Report(symbol, side, amount), s);
      }
      reports := reports + [Report(symbol, side, amount)];
      if symbol !in positions {
        return false;
      }
      var kept := side;
      if side == Both {
        if amount < 0.0 {
          kept := Short;
        } else if amount > 0.0 {
          kept := Long;
        }
      }
      positions := positions[symbol := Position(kept, amount, Abs(amount))];
      return true;
    }

    /** The last report about a configured instrument, whatever was reported about others; nothing for any other. */
    method CopyPosition(instId: string) returns (position: Option<Position>)
      requires Valid()
      ensures position.Some? <==> instId in configured
      ensures position.Some? ==> position.value == LastReported(reports, instId)
    {
      if instId in positions {
        position := Some(positions[instId]);
      } else {
        position := None;
      }
    }
  }
}

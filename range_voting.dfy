/** `rangeVoting` of voting.py: the alternative (column) with the largest sum of
    valuations over the whole worksheet. */
module RangeVoting {
  import opened Wrappers
  import opened Ballots
  import opened TieBreaking
  import opened Selection
  import opened Preferences

  /** The worksheet's cells, row after row. */
  ghost function Flatten(sheet: Sheet): seq<Cell> {
    if sheet == [] then [] else Flatten(sheet[..|sheet| - 1]) + sheet[|sheet| - 1]
  }

  /** The sum of the values of the cells in column `c`. */
  ghost function ColumnTotal(cells: seq<Cell>, c: int): int {
    if cells == [] then 0
    else ColumnTotal(cells[..|cells| - 1], c) + (if cells[|cells| - 1].column == c then cells[|cells| - 1].value else 0)
  }

  ghost function CellColumns(cells: seq<Cell>): set<int> {
    set k | 0 <= k < |cells| :: cells[k].column
  }

  /** Every column the cells name, with its sum of valuations. */
  ghost function Totals(cells: seq<Cell>): map<int, int> {
    map c | c in CellColumns(cells) :: ColumnTotal(cells, c)
  }

  lemma {:induction false} TotalOutside(cells: seq<Cell>, c: int)
    requires c !in CellColumns(cells)
    ensures ColumnTotal(cells, c) == 0
  {
    if cells != [] {
      var prefix := cells[..|cells| - 1];
      forall y | y in CellColumns(prefix) ensures y in CellColumns(cells) {
        var k :| 0 <= k < |prefix| && prefix[k].column == y;
        assert cells[k] == prefix[k];
      }
      TotalOutside(prefix, c);
      assert cells[|cells| - 1].column in CellColumns(cells);
    }
  }

  /** One cell of the accumulation loop: a new column starts at the cell's value,
      a known one adds it. */
  lemma TotalsStep(cells: seq<Cell>, cell: Cell)
    ensures Totals(cells + [cell]) ==
      if cell.column !in Totals(cells) then Totals(cells)[cell.column := cell.value]
      else Totals(cells)[cell.column := Totals(cells)[cell.column] + cell.value]
  {
    var q := cells + [cell];
    assert q[..|q| - 1] == cells;
    assert q[|q| - 1] == cell;
    assert cell.column in CellColumns(q);
    forall y ensures y in CellColumns(q) <==> y in CellColumns(cells) || y == cell.column {
      if y in CellColumns(q) {
        var k :| 0 <= k < |q| && q[k].column == y;
        if k < |cells| { assert cells[k] == q[k]; }
      }
      if y in CellColumns(cells) {
        var k :| 0 <= k < |cells| && cells[k].column == y;
        assert q[k] == cells[k];
      }
    }
    if cell.column !in Totals(cells) {
      TotalOutside(cells, cell.column);
    }
  }

  lemma FlattenStep(sheet: Sheet, i: nat)
    requires i < |sheet|
    ensures Flatten(sheet[..i + 1]) == Flatten(sheet[..i]) + sheet[i]
  {
    assert sheet[..i + 1][..i] == sheet[..i];
  }

  /** The loops of `rangeVoting` that fill `maxSum`. */
  method ColumnTotals(values: Sheet) returns (maxSum: map<int, int>)
    ensures maxSum == Totals(Flatten(values))
  {
    maxSum := map[];
    for i := 0 to |values|
      invariant maxSum == Totals(Flatten(values[..i]))
    {
      var row := values[i];
      ghost var before := Flatten(values[..i]);
      FlattenStep(values, i);
      assert before + row[..0] == before;
      for c := 0 to |row|
        invariant maxSum == Totals(before + row[..c])
      {
        var cell := row[c];
        TotalsStep(before + row[..c], cell);
        assert before + row[..c + 1] == (before + row[..c]) + [cell];
        if cell.column !in maxSum {
          maxSum := maxSum[cell.column := cell.value];
        } else {
          maxSum := maxSum[cell.column := maxSum[cell.column] + cell.value];
        }
      }
      assert row[..|row|] == row;
    }
    assert values[..|values|] == values;
  }

  /** What `rangeVoting(values, tieBreak)` returns or raises: `max` of an empty tally
      raises; a tie is broken against the profile derived from the same sheet. */
  ghost function RangeOutcome(values: Sheet, tieBreak: Policy): Result<int, Error> {
    var alt := Totals(Flatten(values));
    if alt == map[] then Failure(EmptyTally)
    else
      ExtremesExist(alt);
      var tied := Winners(alt);
      if |tied| > 1 then
        match Derive(values)
        case Failure(e) => Failure(e)
        case Success(data) => TieBreak(tieBreak, tied, data)
      else Success(SetMax(tied))
  }

  method RangeVoting(values: Sheet, tieBreak: Policy) returns (r: Result<int, Error>)
    ensures r == RangeOutcome(values, tieBreak)
  {
    var maxSum := ColumnTotals(values);
    if maxSum == map[] {
      return Failure(EmptyTally);
    }
    var winScore, maxScore := ExtremeFilter(maxSum, true);
    if |maxScore| > 1 {
      var data := GeneratePreferences(values);
      if data.Failure? {
        return Failure(data.error);
      }
      r := TieBreaker(tieBreak, maxScore, data.value);
    } else {
      var w := MaxOf(maxScore);
      r := Success(w);
    }
  }

  /** The range-voting winner is a column of the sheet with the largest total. */
  lemma RangeWinnerMaximal(values: Sheet, tieBreak: Policy)
    ensures RangeOutcome(values, tieBreak).Success? ==>
      var w := RangeOutcome(values, tieBreak).value;
      && w in CellColumns(Flatten(values))
      && forall c :: c in CellColumns(Flatten(values)) ==> ColumnTotal(Flatten(values), c) <= ColumnTotal(Flatten(values), w)
  {
    var alt := Totals(Flatten(values));
    if RangeOutcome(values, tieBreak).Success? {
      ExtremesExist(alt);
      var tied := Winners(alt);
      TieBreakContract(tieBreak, tied, if Derive(values).Success? then Derive(values).value else []);
      var w := RangeOutcome(values, tieBreak).value;
      assert w in tied;
      forall c | c in CellColumns(Flatten(values))
        ensures ColumnTotal(Flatten(values), c) <= ColumnTotal(Flatten(values), w)
      {
        assert c in alt;
      }
    }
  }

  /** `max` raises on an empty tally exactly when the sheet has no cells. */
  lemma RangeEmptySheet(values: Sheet, tieBreak: Policy)
    ensures RangeOutcome(values, tieBreak) == Failure(EmptyTally) <==> Flatten(values) == []
  {
    var cells := Flatten(values);
    var alt := Totals(cells);
    if cells != [] {
      var y := cells[0].column;
      assert y in CellColumns(cells);
      assert y in alt;
      ExtremesExist(alt);
      var tied := Winners(alt);
      if |tied| > 1 {
        DeriveFailsOnlyForAgent(values);
        if Derive(values).Success? {
          TieBreakNeverEmptyTally(tieBreak, tied, Derive(values).value);
        }
      }
    } else {
      assert CellColumns(cells) == {};
      assert alt == map[];
    }
  }

  /** The columns of largest total are the maximal keys of the tally. */
  lemma MaxColumnsAreWinners(cells: seq<Cell>, tied: set<int>)
    requires forall c :: c in tied <==>
      c in CellColumns(cells) && forall d :: d in CellColumns(cells) ==> ColumnTotal(cells, d) <= ColumnTotal(cells, c)
    ensures tied == Winners(Totals(cells))
  {
    var alt := Totals(cells);
    forall c ensures c in tied <==> c in Winners(alt) {
      if c in Winners(alt) {
        forall d | d in CellColumns(cells) ensures ColumnTotal(cells, d) <= ColumnTotal(cells, c) {
          assert d in alt;
        }
      }
    }
  }

  /** A shared maximum goes to the tie-break with exactly the columns of largest
      total, against the profile derived from the same sheet (whose derivation fails
      only for a row without cells before any agent); a unique maximum is returned
      as it is. */
  lemma RangeTieSet(values: Sheet, tieBreak: Policy, tied: set<int>)
    requires forall c :: c in tied <==>
      c in CellColumns(Flatten(values)) &&
      forall d :: d in CellColumns(Flatten(values)) ==> ColumnTotal(Flatten(values), d) <= ColumnTotal(Flatten(values), c)
    ensures |tied| > 1 && Derive(values).Success? ==>
      RangeOutcome(values, tieBreak) == TieBreak(tieBreak, tied, Derive(values).value)
    ensures |tied| > 1 && Derive(values).Failure? ==> RangeOutcome(values, tieBreak) == Failure(NoAgent)
    ensures forall w :: w in tied && |tied| == 1 ==> RangeOutcome(values, tieBreak) == Success(w)
  {
    var alt := Totals(Flatten(values));
    MaxColumnsAreWinners(Flatten(values), tied);
    DeriveFailsOnlyForAgent(values);
    if tied != {} {
      assert alt != map[];
      forall w | w in tied && |tied| == 1 ensures RangeOutcome(values, tieBreak) == Success(w) {
        AtMostOne(tied, w, SetMax(tied));
      }
    }
  }
}

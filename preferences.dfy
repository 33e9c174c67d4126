/** `generatePreferences` of voting.py: from a worksheet of numerical values
    (row = agent, column = alternative) to a preference profile. The worksheet
    is abstracted as its rows, each a sequence of cells carrying the cell's row
    number, column number and integer value. */
module Preferences {
  import opened Wrappers
  import opened Ballots

  datatype Cell = Cell(row: int, column: int, value: int)
  type Row = seq<Cell>
  type Sheet = seq<Row>

  /** The sort order of `sorted(list.items(), key = (value, column), reverse = True)`:
      `a` comes before `b` when it scores more, or scores the same and has the larger id. */
  predicate Above(a: int, b: int, scores: map<int, int>)
    requires a in scores && b in scores
  {
    scores[a] > scores[b] || (scores[a] == scores[b] && a > b)
  }

  /** `s` lists alternatives of `scores` in strictly descending sort order. */
  predicate RankedBy(s: seq<int>, scores: map<int, int>) {
    && (forall i :: 0 <= i < |s| ==> s[i] in scores)
    && (forall i, j :: 0 <= i < j < |s| ==> Above(s[i], s[j], scores))
  }

  /** One step of the sort: put `k` into place in a ranked list. */
  function InsertRanked(k: int, s: seq<int>, scores: map<int, int>): (r: seq<int>)
    requires k in scores && k !in s
    requires RankedBy(s, scores)
    ensures RankedBy(r, scores)
    ensures |r| == |s| + 1
    ensures forall x :: x in r <==> x == k || x in s
  {
    if s == [] || Above(k, s[0], scores) then
      InsertFront(k, s, scores);
      [k] + s
    else
      var rest := InsertRanked(k, s[1..], scores);
      ConsRanked(s, rest, k, scores);
      [s[0]] + rest
  }

  lemma InsertFront(k: int, s: seq<int>, scores: map<int, int>)
    requires k in scores && k !in s
    requires RankedBy(s, scores)
    requires s == [] || Above(k, s[0], scores)
    ensures RankedBy([k] + s, scores)
  {
    var r := [k] + s;
    forall i, j | 0 <= i < j < |r| ensures Above(r[i], r[j], scores) {
      if i == 0 && j > 1 {
        assert Above(s[0], s[j - 1], scores);
      }
    }
  }

  lemma ConsRanked(s: seq<int>, rest: seq<int>, k: int, scores: map<int, int>)
    requires s != [] && k in scores && k !in s
    requires RankedBy(s, scores) && !Above(k, s[0], scores)
    requires RankedBy(rest, scores)
    requires forall x :: x in rest <==> x == k || x in s[1..]
    ensures RankedBy([s[0]] + rest, scores)
  {
    var r := [s[0]] + rest;
    forall i, j | 0 <= i < j < |r| ensures Above(r[i], r[j], scores) {
      if i == 0 {
        var x := rest[j - 1];
        assert x in rest;
        if x != k {
          var a :| 0 <= a < |s[1..]| && s[1..][a] == x;
          assert Above(s[0], s[a + 1], scores);
        }
      } else {
        assert r[i] == rest[i - 1] && r[j] == rest[j - 1];
      }
    }
  }

  /** `[i[0] for i in sorted(list.items(), ...)]` for the dictionary whose keys, in
      insertion order, are `keys` and whose values are `scores`. */
  function SortByScore(keys: seq<int>, scores: map<int, int>): (r: seq<int>)
    requires Distinct(keys)
    requires forall x :: x in keys ==> x in scores
    ensures RankedBy(r, scores)
    ensures forall x :: x in r <==> x in keys
    ensures |r| == |keys|
  {
    if keys == [] then []
    else
      var rest := keys[..|keys| - 1];
      assert keys == rest + [keys[|keys| - 1]];
      InsertRanked(keys[|keys| - 1], SortByScore(rest, scores), scores)
  }

  /** The keys of the row's dictionary `list`, in insertion order. */
  ghost function RowKeys(row: Row): seq<int> {
    if row == [] then []
    else
      var keys := RowKeys(row[..|row| - 1]);
      if row[|row| - 1].column in keys then keys else keys + [row[|row| - 1].column]
  }

  /** The row's dictionary `list`: each column with the value of its last cell. */
  ghost function RowScores(row: Row): map<int, int> {
    if row == [] then map[]
    else RowScores(row[..|row| - 1])[row[|row| - 1].column := row[|row| - 1].value]
  }

  /** The columns the row's cells name. */
  ghost function Columns(row: Row): set<int> {
    set c | 0 <= c < |row| :: row[c].column
  }

  lemma {:induction false} RowKeysShape(row: Row)
    ensures Distinct(RowKeys(row))
    ensures forall x :: x in RowKeys(row) <==> x in RowScores(row)
    ensures forall x :: x in RowScores(row) <==> x in Columns(row)
  {
    if row != [] {
      var prefix := row[..|row| - 1];
      RowKeysShape(prefix);
      assert forall c :: 0 <= c < |prefix| ==> prefix[c] == row[c];
      assert row[|row| - 1].column in Columns(row);
      forall x | x in Columns(row) ensures x in Columns(prefix) || x == row[|row| - 1].column {
        var c :| 0 <= c < |row| && row[c].column == x;
        if c < |prefix| { assert prefix[c].column == x; }
      }
    }
  }

  /** The agent list of one row: one sort of the row's final dictionary. */
  ghost function RowRanking(row: Row): seq<int> {
    RowKeysShape(row);
    SortByScore(RowKeys(row), RowScores(row))
  }

  /** Each agent list lists every column of its row once, by score descending and,
      for equal scores, by column id descending. */
  lemma RowRankingRanks(row: Row)
    ensures RankedBy(RowRanking(row), RowScores(row))
    ensures Distinct(RowRanking(row))
    ensures forall x :: x in RowRanking(row) <==> x in Columns(row)
  {
    RowKeysShape(row);
    var r := RowRanking(row);
    forall i, j | 0 <= i < j < |r| ensures r[i] != r[j] {
      assert Above(r[i], r[j], RowScores(row));
    }
  }

  /** A ranked list is determined by its elements: the order never depends on the
      order in which the dictionary received its keys. */
  lemma {:induction false} RankingUnique(s1: seq<int>, s2: seq<int>, scores: map<int, int>)
    requires RankedBy(s1, scores) && RankedBy(s2, scores)
    requires forall x :: x in s1 <==> x in s2
    ensures s1 == s2
  {
    if s1 != [] && s2 != [] {
      assert s1[0] in s2 && s2[0] in s1;
      HeadIsTop(s1, scores, s2[0]);
      HeadIsTop(s2, scores, s1[0]);
      assert s1[0] == s2[0];
      forall x ensures x in s1[1..] <==> x in s2[1..] {
        if x in s1[1..] {
          var a :| 0 <= a < |s1[1..]| && s1[1..][a] == x;
          assert s1[a + 1] in s1;
          assert Above(s1[0], s1[a + 1], scores);
          assert x in s2;
          var b :| 0 <= b < |s2| && s2[b] == x;
          assert b != 0;
          assert s2[1..][b - 1] == x;
        }
        if x in s2[1..] {
          var b :| 0 <= b < |s2[1..]| && s2[1..][b] == x;
          assert s2[b + 1] in s2;
          assert Above(s2[0], s2[b + 1], scores);
          assert x in s1;
          var a :| 0 <= a < |s1| && s1[a] == x;
          assert a != 0;
          assert s1[1..][a - 1] == x;
        }
      }
      RankingUnique(s1[1..], s2[1..], scores);
      assert s1 == [s1[0]] + s1[1..] && s2 == [s2[0]] + s2[1..];
    } else {
      SameElementsEmpty(s1, s2);
    }
  }

  lemma SameElementsEmpty(s1: seq<int>, s2: seq<int>)
    requires forall x :: x in s1 <==> x in s2
    ensures s1 == [] <==> s2 == []
  {
    if s1 != [] {
      var y := s1[0];
      assert y in s1;
      assert y in s2;
    }
    if s2 != [] {
      var y := s2[0];
      assert y in s2;
      assert y in s1;
    }
  }

  /** The head of a ranked list comes before every other element of it. */
  lemma HeadIsTop(s: seq<int>, scores: map<int, int>, y: int)
    requires RankedBy(s, scores) && y in s
    ensures y == s[0] || (y in scores && s[0] in scores && Above(s[0], y, scores))
  {
    var k :| 0 <= k < |s| && s[k] == y;
    if k != 0 {
      assert Above(s[0], s[k], scores);
    }
  }

  lemma RowStep(row: Row, c: nat)
    requires c < |row|
    ensures RowKeys(row[..c + 1]) ==
      if row[c].column in RowScores(row[..c]) then RowKeys(row[..c]) else RowKeys(row[..c]) + [row[c].column]
    ensures RowScores(row[..c + 1]) == RowScores(row[..c])[row[c].column := row[c].value]
  {
    assert row[..c + 1][..c] == row[..c];
    RowKeysShape(row[..c]);
  }

  /** The inner loop of `generatePreferences` over one row: update the dictionary
      cell by cell and sort it again after every cell. */
  method RankRow(row: Row, agent0: Option<int>) returns (agent: Option<int>, agentSel: seq<int>)
    ensures agent == if row == [] then agent0 else Some(row[|row| - 1].row)
    ensures agentSel == RowRanking(row)
  {
    var keys: seq<int> := [];
    var list: map<int, int> := map[];
    agentSel := [];
    agent := agent0;
    for c := 0 to |row|
      invariant keys == RowKeys(row[..c]) && list == RowScores(row[..c])
      invariant agentSel == RowRanking(row[..c])
      invariant agent == if c == 0 then agent0 else Some(row[c - 1].row)
    {
      var cell := row[c];
      RowStep(row, c);
      if cell.column !in list {
        keys := keys + [cell.column];
      }
      list := list[cell.column := cell.value];
      RowKeysShape(row[..c + 1]);
      agentSel := SortByScore(keys, list);
      agent := Some(cell.row);
    }
    assert row[..|row|] == row;
  }

  /** What one row does to the profile built so far and the most recently read
      agent; a row without cells reuses that agent and gives it the empty list. */
  ghost function DeriveRow(pref: Profile, agent0: Option<int>, row: Row): Result<(Profile, Option<int>), Error> {
    var agent := if row == [] then agent0 else Some(row[|row| - 1].row);
    if agent.None? then Failure(NoAgent)
    else Success((Assign(pref, agent.value, RowRanking(row)), agent))
  }

  /** The profile built from the first rows, with the most recently read agent. */
  ghost function DeriveState(sheet: Sheet): Result<(Profile, Option<int>), Error> {
    if sheet == [] then Success(([], None))
    else match DeriveState(sheet[..|sheet| - 1])
      case Failure(e) => Failure(e)
      case Success((pref, agent0)) => DeriveRow(pref, agent0, sheet[|sheet| - 1])
  }

  lemma DeriveStep(sheet: Sheet, i: nat, pref: Profile, agent0: Option<int>)
    requires i < |sheet| && DeriveState(sheet[..i]) == Success((pref, agent0))
    ensures DeriveState(sheet[..i + 1]) == DeriveRow(pref, agent0, sheet[i])
  {
    assert sheet[..i + 1][..i] == sheet[..i];
  }

  /** A failure stops the construction: no later row changes it. */
  lemma {:induction false} FailureStops(sheet: Sheet, i: nat)
    requires i <= |sheet| && DeriveState(sheet[..i]).Failure?
    ensures DeriveState(sheet) == DeriveState(sheet[..i])
  {
    if i < |sheet| {
      var prefix := sheet[..|sheet| - 1];
      assert prefix[..i] == sheet[..i];
      FailureStops(prefix, i);
    } else {
      assert sheet[..i] == sheet;
    }
  }

  /** The only error the construction raises is the missing agent of a first
      row without cells. */
  lemma {:induction false} DeriveFailsOnlyForAgent(sheet: Sheet)
    ensures DeriveState(sheet).Failure? ==> DeriveState(sheet) == Failure(NoAgent)
    ensures Derive(sheet).Failure? ==> Derive(sheet) == Failure(NoAgent)
  {
    if sheet != [] {
      DeriveFailsOnlyForAgent(sheet[..|sheet| - 1]);
    }
  }

  ghost function Derive(sheet: Sheet): Result<Profile, Error> {
    match DeriveState(sheet)
    case Failure(e) => Failure(e)
    case Success((pref, _)) => Success(pref)
  }
  /** The construction fails exactly when the first row has no cells: every later
      row has an agent to fall back on. */
  lemma {:induction false} DeriveFailsIffFirstRowEmpty(sheet: Sheet)
    ensures sheet != [] && sheet[0] != [] ==> DeriveState(sheet).Success? && DeriveState(sheet).value.1.Some?
    ensures sheet != [] && sheet[0] == [] ==> DeriveState(sheet) == Failure(NoAgent)
    ensures Derive(sheet).Failure? <==> sheet != [] && sheet[0] == []
  {
    if |sheet| > 1 {
      var prefix := sheet[..|sheet| - 1];
      assert prefix[0] == sheet[0];
      DeriveFailsIffFirstRowEmpty(prefix);
    } else if |sheet| == 1 {
      assert sheet[..0] == [];
    }
  }


  /** `generatePreferences`: one agent list per row, keyed by the row's agent. */
  method GeneratePreferences(values: Sheet) returns (r: Result<Profile, Error>)
    ensures r == Derive(values)
  {
    var pref: Profile := [];
    var agent: Option<int> := None;
    for i := 0 to |values|
      invariant DeriveState(values[..i]) == Success((pref, agent))
    {
      DeriveStep(values, i, pref, agent);
      var agentSel;
      agent, agentSel := RankRow(values[i], agent);
      if agent.None? {
        FailureStops(values, i + 1);
        return Failure(NoAgent);
      }
      pref := Assign(pref, agent.value, agentSel);
    }
    assert values[..|values|] == values;
    r := Success(pref);
  }

  /** The agent the construction holds after reading row `i`: that row's last cell's
      agent, or the one of the row before for a row without cells. */
  ghost function AgentAfter(sheet: Sheet, i: nat): Option<int>
    requires i < |sheet|
  {
    if sheet[i] != [] then Some(sheet[i][|sheet[i]| - 1].row)
    else if i == 0 then None
    else AgentAfter(sheet, i - 1)
  }

  /** Dropping the last row leaves what the earlier rows read. */
  lemma {:induction false} AgentAfterPrefix(sheet: Sheet, i: nat)
    requires i + 1 < |sheet|
    ensures AgentAfter(sheet[..|sheet| - 1], i) == AgentAfter(sheet, i)
  {
    assert sheet[..|sheet| - 1][i] == sheet[i];
    if sheet[i] == [] && i > 0 {
      AgentAfterPrefix(sheet, i - 1);
    }
  }

  /** After the last row the construction holds that row's agent. */
  lemma {:induction false} AgentAfterLast(sheet: Sheet)
    requires sheet != [] && DeriveState(sheet).Success?
    ensures AgentAfter(sheet, |sheet| - 1) == DeriveState(sheet).value.1
  {
    var last := |sheet| - 1;
    var prefix := sheet[..last];
    if sheet[last] == [] && last > 0 {
      assert DeriveState(prefix).Success?;
      AgentAfterLast(prefix);
      AgentAfterPrefix(sheet, last - 1);
    }
  }

  /** Row `i` is the last row after which the construction holds agent `a`. */
  ghost predicate LastRowOf(sheet: Sheet, i: nat, a: int)
    requires i < |sheet|
  {
    && AgentAfter(sheet, i) == Some(a)
    && forall j :: i < j < |sheet| ==> AgentAfter(sheet, j) != Some(a)
  }

  /** A last row of the earlier rows stays last when the new row reads another agent. */
  lemma LastRowExtends(sheet: Sheet, i: nat, a: int)
    requires i + 1 < |sheet| && LastRowOf(sheet[..|sheet| - 1], i, a)
    requires AgentAfter(sheet, |sheet| - 1) != Some(a)
    ensures LastRowOf(sheet, i, a)
  {
    var prefix := sheet[..|sheet| - 1];
    AgentAfterPrefix(sheet, i);
    forall j | i < j < |sheet| ensures AgentAfter(sheet, j) != Some(a) {
      if j < |sheet| - 1 {
        assert AgentAfter(prefix, j) != Some(a);
        AgentAfterPrefix(sheet, j);
      }
    }
  }

  /** Every list of the derived profile is the ranking of one of the sheet's rows:
      the last row read for that agent, since `dicts[agent] = agentSel` overwrites. */
  lemma {:induction false} DerivedListsAreRowRankings(sheet: Sheet)
    requires Derive(sheet).Success?
    ensures forall a :: a in Agents(Derive(sheet).value) ==>
      exists i ::
        && 0 <= i < |sheet|
        && LastRowOf(sheet, i, a)
        && Lookup(Derive(sheet).value, a) == Some(RowRanking(sheet[i]))
  {
    if sheet != [] {
      var prefix := sheet[..|sheet| - 1];
      assert DeriveState(prefix).Success?;
      DerivedListsAreRowRankings(prefix);
      var p0 := Derive(prefix).value;
      var p := Derive(sheet).value;
      var agent := DeriveState(sheet).value.1;
      var last := |sheet| - 1;
      AgentAfterLast(sheet);
      forall a | a in Agents(p)
        ensures exists i ::
          0 <= i < |sheet| && LastRowOf(sheet, i, a) && Lookup(p, a) == Some(RowRanking(sheet[i]))
      {
        if a == agent.value {
          assert LastRowOf(sheet, last, a);
          assert Lookup(p, a) == Some(RowRanking(sheet[last]));
        } else {
          assert a in Agents(p0);
          var i :| 0 <= i < |prefix| && LastRowOf(prefix, i, a)
            && Lookup(p0, a) == Some(RowRanking(prefix[i]));
          LastRowExtends(sheet, i, a);
          assert prefix[i] == sheet[i];
        }
      }
    }
  }

  /** Conversely, every row's agent is a key of the derived profile. */
  lemma {:induction false} RowAgentsAreKeys(sheet: Sheet)
    requires Derive(sheet).Success?
    ensures forall i :: 0 <= i < |sheet| ==>
      AgentAfter(sheet, i).Some? && AgentAfter(sheet, i).value in Agents(Derive(sheet).value)
  {
    if sheet != [] {
      var prefix := sheet[..|sheet| - 1];
      assert DeriveState(prefix).Success?;
      RowAgentsAreKeys(prefix);
      var p0 := Derive(prefix).value;
      var p := Derive(sheet).value;
      var agent := DeriveState(sheet).value.1;
      assert agent.Some?;
      assert Agents(p) == Agents(p0) + {agent.value};
      forall i | 0 <= i < |sheet|
        ensures AgentAfter(sheet, i).Some? && AgentAfter(sheet, i).value in Agents(p)
      {
        if i == |sheet| - 1 {
          AgentAfterLast(sheet);
        } else {
          AgentAfterPrefix(sheet, i);
        }
      }
    }
  }
}

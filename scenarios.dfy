/** The worked cases that accompany the voting rules: a Borda, a plurality and an
    STV election on three agents and three alternatives. */
module Scenarios {
  import opened Wrappers
  import opened Ballots
  import opened TieBreaking
  import opened Selection
  import opened Positional
  import opened Stv
  import opened Filtering
  import opened Preferences
  import opened RangeVoting

  const Three: Profile := [Ballot(1, [1, 2, 3]), Ballot(2, [2, 1, 3]), Ballot(3, [1, 3, 2])]

  lemma ScoreOfThree(p: seq<Ballot>, scheme: Scheme, i: int)
    requires |p| == 3
    ensures Score(p, scheme, i) == BallotScore(p[0], scheme, i) + BallotScore(p[1], scheme, i) + BallotScore(p[2], scheme, i)
  {
    assert p[..2][..1] == p[..1];
    assert p[..3] == p;
    assert Score(p[..1], scheme, i) == BallotScore(p[0], scheme, i);
  }

  lemma BordaTotals()
    ensures Tallies(Three, BordaScheme) == map[1 := 5, 2 := 3, 3 := 1]
  {
    var p := Three;
    assert Width(p) == 3;
    assert Range(3) == {1, 2, 3};
    BordaScoreOne();
    BordaScoreTwo();
    BordaScoreThree();
  }

  lemma BordaScoreOne()
    ensures Score(Three, BordaScheme, 1) == 5
  {
    assert IndexOf([1, 2, 3], 1) == 0 && IndexOf([2, 1, 3], 1) == 1 && IndexOf([1, 3, 2], 1) == 0;
    ScoreOfThree(Three, BordaScheme, 1);
  }

  lemma BordaScoreTwo()
    ensures Score(Three, BordaScheme, 2) == 3
  {
    assert IndexOf([1, 2, 3], 2) == 1 && IndexOf([2, 1, 3], 2) == 0 && IndexOf([1, 3, 2], 2) == 2;
    ScoreOfThree(Three, BordaScheme, 2);
  }

  lemma BordaScoreThree()
    ensures Score(Three, BordaScheme, 3) == 1
  {
    assert IndexOf([1, 2, 3], 3) == 2 && IndexOf([2, 1, 3], 3) == 2 && IndexOf([1, 3, 2], 3) == 1;
    ScoreOfThree(Three, BordaScheme, 3);
  }

  /** Borda on {1: [1, 2, 3], 2: [2, 1, 3], 3: [1, 3, 2]}: totals 5, 3 and 1, so 1 wins
      whatever the tie-break. */
  lemma BordaExample(policy: Policy)
    ensures Tallies(Three, BordaScheme) == map[1 := 5, 2 := 3, 3 := 1]
    ensures Elect(Tallies(Three, BordaScheme), policy, Three) == Success(1)
  {
    BordaTotals();
    UniqueTop(map[1 := 5, 2 := 3, 3 := 1], 1);
    assert |{1}| == 1 && SetMax({1}) == 1;
  }

  lemma FirstCountOfThree(p: seq<Ballot>, x: int)
    requires |p| == 3
    ensures FirstCount(p, x) ==
      (if |p[0].ranking| > 0 && p[0].ranking[0] == x then 1 else 0)
      + (if |p[1].ranking| > 0 && p[1].ranking[0] == x then 1 else 0)
      + (if |p[2].ranking| > 0 && p[2].ranking[0] == x then 1 else 0)
  {
    assert p[..2][..1] == p[..1];
    assert p[..3] == p;
    assert p[..1][..0] == [];
    assert p[..1][0] == p[0] && p[..2][1] == p[1];
    assert FirstCount(p[..1], x) == (if |p[0].ranking| > 0 && p[0].ranking[0] == x then 1 else 0);
    assert FirstCount(p[..2], x) == FirstCount(p[..1], x) + (if |p[1].ranking| > 0 && p[1].ranking[0] == x then 1 else 0);
  }

  lemma PluralityTotals()
    ensures FirstTally(Three) == map[1 := 2, 2 := 1]
  {
    var p := Three;
    assert FirstChoices(p) == {1, 2} by {
      assert p[0].ranking[0] == 1 && p[1].ranking[0] == 2 && p[2].ranking[0] == 1;
      assert forall k :: 0 <= k < 3 ==> p[k].ranking[0] in {1, 2};
    }
    FirstCountOfThree(p, 1);
    FirstCountOfThree(p, 2);
  }

  /** Plurality on the same profile: first places 1, 2, 1, so 1 wins with two. */
  lemma PluralityExample(policy: Policy)
    ensures FirstTally(Three) == map[1 := 2, 2 := 1]
    ensures Elect(FirstTally(Three), policy, Three) == Success(1)
  {
    PluralityTotals();
    UniqueTop(map[1 := 2, 2 := 1], 1);
    assert |{1}| == 1 && SetMax({1}) == 1;
  }

  const Cycle: Profile := [Ballot(1, [1, 2, 3]), Ballot(2, [2, 3, 1]), Ballot(3, [3, 1, 2])]
  const AfterOne: Profile := [Ballot(1, [2, 3]), Ballot(2, [2, 3]), Ballot(3, [3, 2])]
  const AfterTwo: Profile := [Ballot(1, [2]), Ballot(2, [2]), Ballot(3, [2])]

  lemma AgentsOfThree(p: Profile)
    requires |p| == 3 && p[0].agent == 1 && p[1].agent == 2 && p[2].agent == 3
    ensures Agents(p) == Range(3) == {1, 2, 3}
    ensures Lookup(p, 1) == Some(p[0].ranking)
  {
    assert forall a :: a in Agents(p) <==> a == 1 || a == 2 || a == 3;
  }

  lemma CycleUniform()
    ensures Uniform(Cycle) && Width1(Cycle) == 3
  {
    AgentsOfThree(Cycle);
  }

  lemma CycleListed()
    ensures ListedUpTo(Cycle, 3, 3) == {1, 2, 3}
  {
    assert Cycle[0].ranking[..3] == [1, 2, 3];
    assert Cycle[1].ranking[..3] == [2, 3, 1];
    assert Cycle[2].ranking[..3] == [3, 1, 2];
    assert Elems([1, 2, 3]) == {1, 2, 3};
    assert Elems([2, 3, 1]) == {1, 2, 3};
    assert Elems([3, 1, 2]) == {1, 2, 3};
    assert ListedUpTo(Cycle, 1, 3) == {1, 2, 3};
    assert ListedUpTo(Cycle, 2, 3) == {1, 2, 3};
  }

  lemma CycleLeastFreq()
    ensures LeastFreq(Cycle, 3) == map[1 := 1, 2 := 1, 3 := 1]
  {
    var p := Cycle;
    CycleListed();
    FirstCountOfThree(p, 1);
    FirstCountOfThree(p, 2);
    FirstCountOfThree(p, 3);
  }

  lemma RoundOne()
    ensures Uniform(Cycle) && Width1(Cycle) == 3
    ensures Eliminate(Cycle, Name("min"), Cycle) == Success(1)
    ensures RemoveAll(Cycle, 1) == AfterOne
  {
    CycleUniform();
    CycleLeastFreq();
    var lf := map[1 := 1, 2 := 1, 3 := 1];
    assert Losers(lf) == {1, 2, 3};
    MinOfThreeTied();
    StrikeOne();
  }

  lemma MinOfThreeTied()
    ensures Pick({1, 2, 3}, Name("min"), Cycle) == Success(1)
  {
    assert |{1, 2, 3}| == 3;
    assert SetMin({1, 2, 3}) == 1;
    assert TieBreak(Name("min"), {1, 2, 3}, Cycle) == Success(1);
  }

  lemma StrikeOneAt()
    ensures RemoveFirst([1, 2, 3], 1) == [2, 3]
    ensures RemoveFirst([2, 3, 1], 1) == [2, 3]
  {
    RemoveFirstCons(1, [2, 3], 1);
    RemoveFirstCons(1, [], 1);
    RemoveFirstCons(3, [1], 1);
    RemoveFirstCons(2, [3, 1], 1);
    assert [1] + [2, 3] == [1, 2, 3] && [1] + [] == [1] && [3] + [1] == [3, 1];
    assert [2] + [3, 1] == [2, 3, 1];
  }

  lemma StrikeOneLast()
    ensures RemoveFirst([3, 1, 2], 1) == [3, 2]
  {
    RemoveFirstCons(1, [2], 1);
    RemoveFirstCons(3, [1, 2], 1);
    assert [1] + [2] == [1, 2] && [3] + [1, 2] == [3, 1, 2];
  }

  lemma StrikeOne()
    ensures RemoveAll(Cycle, 1) == AfterOne
  {
    StrikeOneAt();
    StrikeOneLast();
    var r := RemoveAll(Cycle, 1);
    assert r[0] == AfterOne[0] && r[1] == AfterOne[1] && r[2] == AfterOne[2];
  }

  lemma AfterOneUniform()
    ensures Uniform(AfterOne) && Width1(AfterOne) == 2
  {
    AgentsOfThree(AfterOne);
  }

  lemma AfterOneListed()
    ensures ListedUpTo(AfterOne, 3, 2) == {2, 3}
  {
    assert AfterOne[0].ranking[..2] == [2, 3];
    assert AfterOne[1].ranking[..2] == [2, 3];
    assert AfterOne[2].ranking[..2] == [3, 2];
    assert Elems([2, 3]) == {2, 3};
    assert Elems([3, 2]) == {2, 3};
    assert ListedUpTo(AfterOne, 1, 2) == {2, 3};
    assert ListedUpTo(AfterOne, 2, 2) == {2, 3};
  }

  lemma AfterOneLeastFreq()
    ensures LeastFreq(AfterOne, 2) == map[2 := 2, 3 := 1]
  {
    var p := AfterOne;
    AfterOneListed();
    FirstCountOfThree(p, 2);
    FirstCountOfThree(p, 3);
  }

  lemma RoundTwo()
    ensures Uniform(AfterOne) && Width1(AfterOne) == 2
    ensures Eliminate(AfterOne, Name("min"), AfterOne) == Success(3)
    ensures RemoveAll(AfterOne, 3) == AfterTwo
  {
    AfterOneUniform();
    AfterOneLeastFreq();
    UniqueBottom(map[2 := 2, 3 := 1], 3);
    assert SetMax({3}) == 3;
    assert Pick({3}, Name("min"), AfterOne) == Success(3);
    StrikeThree();
  }

  lemma StrikeThree()
    ensures RemoveAll(AfterOne, 3) == AfterTwo
  {
    RemoveFirstCons(3, [], 3);
    RemoveFirstCons(2, [3], 3);
    RemoveFirstCons(3, [2], 3);
    assert [3] + [] == [3] && [2] + [3] == [2, 3] && [3] + [2] == [3, 2];
    var r := RemoveAll(AfterOne, 3);
    assert r[0] == AfterTwo[0] && r[1] == AfterTwo[1] && r[2] == AfterTwo[2];
  }

  /** STV on {1: [1, 2, 3], 2: [2, 3, 1], 3: [3, 1, 2]} with tie-break "min": all three
      are first once and 1 is struck; then 3 is first once against 2's twice and is
      struck; 2 wins, and every list is left as [2]. */
  lemma StvExample()
    ensures Uniform(Cycle)
    ensures StvRun(Cycle, Name("min"), None) == (Success(Some(2)), AfterTwo)
  {
    StvFirstRound();
    StvSecondRound();
    StvLastRound();
  }

  lemma StvFirstRound()
    ensures Uniform(Cycle) && Uniform(AfterOne)
    ensures StvRun(Cycle, Name("min"), None) == StvRun(AfterOne, Name("min"), None)
  {
    RoundOne();
    StvUnfold(Cycle, Name("min"));
  }

  lemma StvSecondRound()
    ensures Uniform(AfterOne) && Uniform(AfterTwo)
    ensures StvRun(AfterOne, Name("min"), None) == StvRun(AfterTwo, Name("min"), None)
  {
    RoundTwo();
    StvUnfold(AfterOne, Name("min"));
  }

  lemma StvLastRound()
    ensures Uniform(AfterTwo)
    ensures StvRun(AfterTwo, Name("min"), None) == (Success(Some(2)), AfterTwo)
  {
    AgentsOfThree(AfterTwo);
    assert Lookup(AfterTwo, 1).value == [2];
  }

  /** The tie-break on the tied set {2, 5, 7}: "max" gives 7, "min" gives 2, whatever
      the profile. */
  lemma TieBreakExample(p: Profile)
    ensures TieBreak(Name("max"), {2, 5, 7}, p) == Success(7)
    ensures TieBreak(Name("min"), {2, 5, 7}, p) == Success(2)
  {
    var hi := SetMax({2, 5, 7});
    var lo := SetMin({2, 5, 7});
    assert 7 in {2, 5, 7} && 2 in {2, 5, 7};
  }

  /** Two agents value three alternatives: 1 and 2 both total 10, 3 totals 3. */
  const Valuations: Sheet := [
    [Cell(1, 1, 6), Cell(1, 2, 4), Cell(1, 3, 1)],
    [Cell(2, 1, 4), Cell(2, 2, 6), Cell(2, 3, 2)]]

  lemma FlattenValuations()
    ensures Flatten(Valuations) == Valuations[0] + Valuations[1]
  {
    FlattenStep(Valuations, 0);
    FlattenStep(Valuations, 1);
    assert Valuations[..0] == [] && Valuations[..2] == Valuations;
  }

  lemma FirstRowTotals()
    ensures Totals(Valuations[0]) == map[1 := 6, 2 := 4, 3 := 1]
  {
    var c0, c1, c2 := Cell(1, 1, 6), Cell(1, 2, 4), Cell(1, 3, 1);
    assert Totals([]) == map[];
    TotalsStep([], c0);
    assert [] + [c0] == [c0];
    TotalsStep([c0], c1);
    assert [c0] + [c1] == [c0, c1];
    TotalsStep([c0, c1], c2);
    assert [c0, c1] + [c2] == Valuations[0];
  }

  lemma ValuationTotals()
    ensures Totals(Flatten(Valuations)) == map[1 := 10, 2 := 10, 3 := 3]
  {
    FlattenValuations();
    FirstRowTotals();
    var r0 := Valuations[0];
    var c3, c4, c5 := Cell(2, 1, 4), Cell(2, 2, 6), Cell(2, 3, 2);
    TotalsStep(r0, c3);
    TotalsStep(r0 + [c3], c4);
    assert r0 + [c3] + [c4] == r0 + [c3, c4];
    TotalsStep(r0 + [c3, c4], c5);
    assert r0 + [c3, c4] + [c5] == r0 + Valuations[1];
  }

  lemma TiedAtTen()
    ensures Winners(map[1 := 10, 2 := 10, 3 := 3]) == {1, 2}
  {
    var alt := map[1 := 10, 2 := 10, 3 := 3];
    assert alt.Keys == {1, 2, 3};
    assert 1 in Winners(alt) && 2 in Winners(alt) by {
      forall j | j in alt ensures alt[j] <= 10 {
      }
    }
    forall k | k in Winners(alt) ensures k == 1 || k == 2 {
      assert k in alt && alt[1] <= alt[k];
    }
  }

  /** Range voting on that sheet with tie-break "max": the larger of the two
      alternatives tied at 10 wins. */
  lemma RangeExample()
    ensures RangeOutcome(Valuations, Name("max")) == Success(2)
  {
    ValuationTotals();
    TiedAtTen();
    DeriveFailsIffFirstRowEmpty(Valuations);
    var tied: set<int> := {1, 2};
    assert |tied| == 2;
    assert SetMax(tied) == 2;
  }
}

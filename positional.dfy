/** The positional rules of voting.py: `scoringRule`, `plurality`, `veto` and
    `borda`. Each gives every alternative a weight according to its position in
    each agent's ranking, adds the weights per alternative and elects the
    maximum; `scoringRule`, `veto` and `borda` are one engine with different
    position weights. */
module Positional {
  import opened Wrappers
  import opened Ballots
  import opened TieBreaking
  import opened Selection

  /** The weight a rule gives to rank `b` of a ranking of length `m`. */
  datatype Scheme =
    | ScoreVector(sorted: seq<int>)  // `scoringRule`: the score vector sorted in descending order
    | VetoScheme                     // `veto`: 0 for the last place, 1 for every other
    | BordaScheme                    // `borda`: (m - 1) - b

  function Weight(scheme: Scheme, b: nat, m: nat): int {
    match scheme
    case ScoreVector(w) => if b < |w| then w[b] else 0
    case VetoScheme => if b == m - 1 then 0 else 1
    case BordaScheme => (m - 1) - b
  }

  /** The per-agent dictionary (`scoringList`, `vetoList`, `bordaList`) after its
      first `n` positions have been written. */
  ghost function WeightsUpTo(r: seq<int>, scheme: Scheme, n: nat): map<int, int>
    requires n <= |r|
  {
    if n == 0 then map[] else WeightsUpTo(r, scheme, n - 1)[r[n - 1] := Weight(scheme, n - 1, |r|)]
  }

  /** What one agent contributes to alternative `i`: the weight of the position
      where it ranks `i`. */
  ghost function BallotScore(ballot: Ballot, scheme: Scheme, i: int): int {
    if i in ballot.ranking then Weight(scheme, IndexOf(ballot.ranking, i), |ballot.ranking|) else 0
  }

  /** An alternative's total: the sum over agents of the weight of its position. */
  ghost function Score(p: seq<Ballot>, scheme: Scheme, i: int): int {
    if |p| == 0 then 0 else Score(p[..|p| - 1], scheme, i) + BallotScore(p[|p| - 1], scheme, i)
  }

  /** The tally `alt` a positional rule builds: alternatives 1..m with their totals. */
  ghost function Tallies(p: Profile, scheme: Scheme): map<int, int> {
    if |p| == 0 then map[] else map i | i in Range(Width(p)) :: Score(p, scheme, i)
  }

  /** For a ranking without repetitions the per-agent dictionary maps each listed
      alternative to the weight of its position, and has one key per position. */
  lemma {:induction false} WeightsShape(r: seq<int>, scheme: Scheme, n: nat)
    requires Distinct(r) && n <= |r|
    ensures forall x :: x in WeightsUpTo(r, scheme, n) <==> x in r[..n]
    ensures forall c :: 0 <= c < n ==> WeightsUpTo(r, scheme, n)[r[c]] == Weight(scheme, c, |r|)
    ensures |WeightsUpTo(r, scheme, n)| == n
  {
    if n > 0 {
      WeightsShape(r, scheme, n - 1);
      assert r[..n] == r[..n - 1] + [r[n - 1]];
      assert r[n - 1] !in r[..n - 1];
    }
  }

  /** In the full dictionary of a ranking without repetitions, a listed alternative
      carries the weight of its position. */
  lemma WeightOfListed(r: seq<int>, scheme: Scheme, i: int)
    requires Distinct(r) && i in r
    ensures i in WeightsUpTo(r, scheme, |r|)
    ensures WeightsUpTo(r, scheme, |r|)[i] == Weight(scheme, IndexOf(r, i), |r|)
  {
    WeightsShape(r, scheme, |r|);
    assert r[..|r|] == r;
    var c := IndexOf(r, i);
    assert r[c] == i;
  }

  /** First phase of the engine: each agent's position-to-weight dictionary. */
  method AssignWeights(p: Profile, scheme: Scheme) returns (scored: seq<map<int, int>>)
    ensures |scored| == |p|
    ensures forall k :: 0 <= k < |p| ==> scored[k] == WeightsUpTo(p[k].ranking, scheme, |p[k].ranking|)
  {
    scored := [];
    for k := 0 to |p|
      invariant |scored| == k
      invariant forall c :: 0 <= c < k ==> scored[c] == WeightsUpTo(p[c].ranking, scheme, |p[c].ranking|)
    {
      var value := p[k].ranking;
      var m := |value|;
      var list: map<int, int> := map[];
      for b := 0 to m
        invariant list == WeightsUpTo(value, scheme, b)
      {
        list := list[value[b] := Weight(scheme, b, m)];
      }
      scored := scored + [list];
    }
  }

  /** Adding one more agent to a prefix of the profile adds its contribution. */
  lemma ScoreStep(p: seq<Ballot>, scheme: Scheme, k: nat, i: int)
    requires k < |p|
    ensures Score(p[..k + 1], scheme, i) == Score(p[..k], scheme, i) + BallotScore(p[k], scheme, i)
  {
    assert p[..k + 1][..k] == p[..k];
  }

  /** One agent of the second phase: `alt[j + 1] += value[j + 1]` for `j` in `range(width)`,
      where `value` is the dictionary of an agent whose ranking is `r`. */
  method AddAgent(r: seq<int>, scheme: Scheme, value: map<int, int>, width: nat, alt0: map<int, int>)
    returns (alt: map<int, int>)
    requires IsPermutationOfRange(r, width)
    requires value == WeightsUpTo(r, scheme, |r|)
    requires alt0 == map[] || alt0.Keys == Range(width)
    ensures alt.Keys == Range(width)
    ensures forall i :: i in alt ==> i in r && alt[i] == (if i in alt0 then alt0[i] else 0) + Weight(scheme, IndexOf(r, i), |r|)
  {
    alt := alt0;
    for j := 0 to width
      invariant forall i :: i in alt <==> i in alt0 || 1 <= i <= j
      invariant forall i :: i in alt ==> i in r && alt[i] == (if i in alt0 then alt0[i] else 0) + (if 1 <= i <= j then Weight(scheme, IndexOf(r, i), |r|) else 0)
    {
      var i := j + 1;
      assert i in r;
      WeightOfListed(r, scheme, i);
      if i !in alt {
        alt := alt[i := value[i]];
      } else {
        alt := alt[i := alt[i] + value[i]];
      }
    }
  }

  /** After adding agent `k` to the totals of the first `k` agents, the map holds
      the totals of the first `k + 1`. */
  lemma AddAgentStep(p: seq<Ballot>, scheme: Scheme, k: nat, before: map<int, int>, after: map<int, int>)
    requires k < |p|
    requires forall i :: i in before ==> before[i] == Score(p[..k], scheme, i)
    requires k == 0 ==> before == map[]
    requires k > 0 ==> forall i :: i in after ==> i in before
    requires forall i :: i in after ==>
      && i in p[k].ranking
      && after[i] == (if i in before then before[i] else 0) + Weight(scheme, IndexOf(p[k].ranking, i), |p[k].ranking|)
    ensures forall i :: i in after ==> after[i] == Score(p[..k + 1], scheme, i)
  {
    forall i | i in after ensures after[i] == Score(p[..k + 1], scheme, i) {
      ScoreStep(p, scheme, k, i);
      if k == 0 {
        assert p[..k] == [];
      }
    }
  }

  /** Second phase: add up the agents' dictionaries, alternatives `1..width`. */
  method SumWeights(p: Profile, scheme: Scheme, scored: seq<map<int, int>>, width: nat) returns (alt: map<int, int>)
    requires WellFormed(p) && width == Width(p)
    requires |scored| == |p|
    requires forall k :: 0 <= k < |p| ==> scored[k] == WeightsUpTo(p[k].ranking, scheme, |p[k].ranking|)
    ensures alt == Tallies(p, scheme)
  {
    alt := map[];
    for k := 0 to |scored|
      invariant k == 0 ==> alt == map[]
      invariant k > 0 ==> alt.Keys == Range(width)
      invariant forall i :: i in alt ==> alt[i] == Score(p[..k], scheme, i)
    {
      ghost var before := alt;
      assert IsPermutationOfRange(p[k].ranking, width);
      alt := AddAgent(p[k].ranking, scheme, scored[k], width, alt);
      AddAgentStep(p, scheme, k, before, alt);
    }
    assert p[..|p|] == p;
    TalliesOf(p, scheme, alt);
  }

  lemma TalliesOf(p: Profile, scheme: Scheme, alt: map<int, int>)
    requires |p| == 0 ==> alt == map[]
    requires |p| > 0 ==> alt.Keys == Range(Width(p))
    requires forall i :: i in alt ==> alt[i] == Score(p, scheme, i)
    ensures alt == Tallies(p, scheme)
  {
  }

  /** The generic engine: the per-alternative totals of a well-formed profile. */
  method Tally(p: Profile, scheme: Scheme) returns (alt: map<int, int>)
    requires WellFormed(p)
    ensures alt == Tallies(p, scheme)
  {
    var scored := AssignWeights(p, scheme);
    alt := SumWeights(p, scheme, scored, Width(p));
  }

  predicate NonIncreasing(s: seq<int>) {
    forall i, j :: 0 <= i < j < |s| ==> s[i] >= s[j]
  }

  /** One step of `sorted(..., reverse = True)`: put `x` into a descending list. */
  function InsertDescending(x: int, s: seq<int>): (r: seq<int>)
    requires NonIncreasing(s)
    ensures NonIncreasing(r)
    ensures multiset(r) == multiset(s) + multiset{x}
    ensures forall y :: y in r ==> y == x || y in s
  {
    if s == [] || x >= s[0] then
      ConsNonIncreasing(x, s);
      [x] + s
    else
      var t := s[1..];
      assert s == [s[0]] + t;
      var r := InsertDescending(x, t);
      ConsNonIncreasing(s[0], r);
      [s[0]] + r
  }

  /** A head no smaller than any element keeps a descending list descending. */
  lemma ConsNonIncreasing(h: int, r: seq<int>)
    requires NonIncreasing(r)
    requires r == [] || h >= r[0]
    ensures NonIncreasing([h] + r)
  {
    var q := [h] + r;
    forall i, j | 0 <= i < j < |q| ensures q[i] >= q[j] {
      assert q[j] == r[j - 1];
      if i > 0 { assert q[i] == r[i - 1]; } else { assert r[0] >= r[j - 1]; }
    }
  }

  /** `sorted(scoreVector, reverse = True)`: the same weights, largest first, so
      that rank `b` receives the `b`-th largest weight. */
  function SortDescending(s: seq<int>): (r: seq<int>)
    ensures NonIncreasing(r)
    ensures multiset(r) == multiset(s)
  {
    if s == [] then []
    else
      assert s == [s[0]] + s[1..];
      InsertDescending(s[0], SortDescending(s[1..]))
  }

  /** Sorting a vector that is already in descending order leaves it unchanged. */
  lemma {:induction false} SortDescendingSorted(s: seq<int>)
    requires NonIncreasing(s)
    ensures SortDescending(s) == s
  {
    if s != [] {
      SortDescendingSorted(s[1..]);
    }
  }

  /** A positional rule's winner is an alternative 1..m whose total is at least
      every other alternative's total. */
  lemma ElectTalliesMaximal(p: Profile, scheme: Scheme, policy: Policy)
    ensures Elect(Tallies(p, scheme), policy, p).Success? ==>
      var w := Elect(Tallies(p, scheme), policy, p).value;
      && 1 <= w <= Width(p)
      && forall i :: 1 <= i <= Width(p) ==> Score(p, scheme, i) <= Score(p, scheme, w)
  {
    var alt := Tallies(p, scheme);
    ElectIsMaximal(alt, policy, p);
    if Elect(alt, policy, p).Success? {
      var w := Elect(alt, policy, p).value;
      forall i | 1 <= i <= Width(p) ensures Score(p, scheme, i) <= Score(p, scheme, w) {
        assert i in alt;
      }
    }
  }

  /** `scoringRule`: `False` (here None) when agent 1 is missing or the score vector
      does not have one weight per alternative, or whenever the evaluation raises;
      otherwise rank `b` earns the `b`-th largest weight and the maximum wins. */
  method ScoringRule(preferences: Profile, scoreVector: seq<int>, tieBreak: Policy) returns (r: Option<int>)
    requires WellFormed(preferences)
    ensures Lookup(preferences, 1).None? || |scoreVector| != Width(preferences) ==> r == None
    ensures Lookup(preferences, 1).Some? && |scoreVector| == Width(preferences) ==>
      var e := Elect(Tallies(preferences, ScoreVector(SortDescending(scoreVector))), tieBreak, preferences);
      r == if e.Success? then Some(e.value) else None
    ensures r.Some? ==>
      var scheme := ScoreVector(SortDescending(scoreVector));
      && 1 <= r.value <= Width(preferences)
      && forall i :: 1 <= i <= Width(preferences) ==> Score(preferences, scheme, i) <= Score(preferences, scheme, r.value)
  {
    var first := Lookup(preferences, 1);
    if first.None? {
      return None;
    }
    assert |first.value| == Width(preferences);
    if |scoreVector| != |first.value| {
      return None;
    }
    var scoreVectorAsc := SortDescending(scoreVector);
    var alt := Tally(preferences, ScoreVector(scoreVectorAsc));
    var w := Decide(alt, tieBreak, preferences);
    ElectTalliesMaximal(preferences, ScoreVector(scoreVectorAsc), tieBreak);
    r := if w.Success? then Some(w.value) else None;
  }

  /** `veto`: every agent gives 0 points to its last place and 1 to the others. */
  method Veto(preferences: Profile, tieBreak: Policy) returns (r: Result<int, Error>)
    requires WellFormed(preferences)
    ensures r == Elect(Tallies(preferences, VetoScheme), tieBreak, preferences)
    ensures r.Success? ==>
      && 1 <= r.value <= Width(preferences)
      && forall i :: 1 <= i <= Width(preferences) ==> Score(preferences, VetoScheme, i) <= Score(preferences, VetoScheme, r.value)
  {
    var alt := Tally(preferences, VetoScheme);
    r := Decide(alt, tieBreak, preferences);
    ElectTalliesMaximal(preferences, VetoScheme, tieBreak);
  }

  /** `borda`: rank `b` of `m` earns `(m - 1) - b` points. */
  method Borda(preferences: Profile, tieBreak: Policy) returns (r: Result<int, Error>)
    requires WellFormed(preferences)
    ensures r == Elect(Tallies(preferences, BordaScheme), tieBreak, preferences)
    ensures r.Success? ==>
      && 1 <= r.value <= Width(preferences)
      && forall i :: 1 <= i <= Width(preferences) ==> Score(preferences, BordaScheme, i) <= Score(preferences, BordaScheme, r.value)
  {
    var alt := Tally(preferences, BordaScheme);
    r := Decide(alt, tieBreak, preferences);
    ElectTalliesMaximal(preferences, BordaScheme, tieBreak);
  }

  /** How many agents rank `x` first. */
  ghost function FirstCount(p: seq<Ballot>, x: int): nat {
    if |p| == 0 then 0
    else FirstCount(p[..|p| - 1], x) + (if |p[|p| - 1].ranking| > 0 && p[|p| - 1].ranking[0] == x then 1 else 0)
  }

  /** The alternatives some agent ranks first. */
  ghost function FirstChoices(p: seq<Ballot>): set<int> {
    set k | 0 <= k < |p| && |p[k].ranking| > 0 :: p[k].ranking[0]
  }

  /** The first-place tally: only alternatives ranked first by someone are keys. */
  ghost function FirstTally(p: seq<Ballot>): map<int, int> {
    map x | x in FirstChoices(p) :: FirstCount(p, x)
  }

  /** An alternative nobody ranks first has count zero. */
  lemma {:induction false} FirstCountOutside(p: seq<Ballot>, x: int)
    requires x !in FirstChoices(p)
    ensures FirstCount(p, x) == 0
  {
    if |p| > 0 {
      var q := p[..|p| - 1];
      assert FirstChoices(q) <= FirstChoices(p) by {
        forall y | y in FirstChoices(q) ensures y in FirstChoices(p) {
          var k :| 0 <= k < |q| && |q[k].ranking| > 0 && q[k].ranking[0] == y;
          assert p[k] == q[k];
        }
      }
      FirstCountOutside(q, x);
      if |p[|p| - 1].ranking| > 0 {
        assert p[|p| - 1].ranking[0] in FirstChoices(p);
      }
    }
  }

  lemma FirstTallyStep(p: seq<Ballot>, k: nat)
    requires k < |p|
    ensures var value := p[k].ranking;
      var before := FirstTally(p[..k]);
      FirstTally(p[..k + 1]) ==
        if |value| == 0 then before
        else if value[0] !in before then before[value[0] := 1]
        else before[value[0] := before[value[0]] + 1]
  {
    var q := p[..k + 1];
    assert q[..k] == p[..k];
    assert q[k] == p[k];
    var value := p[k].ranking;
    assert forall y :: y in FirstChoices(q) <==> y in FirstChoices(p[..k]) || (|value| > 0 && y == value[0]) by {
      forall y | y in FirstChoices(q) ensures y in FirstChoices(p[..k]) || (|value| > 0 && y == value[0]) {
        var j :| 0 <= j < |q| && |q[j].ranking| > 0 && q[j].ranking[0] == y;
        if j < k { assert p[..k][j] == q[j]; }
      }
      forall y | y in FirstChoices(p[..k]) ensures y in FirstChoices(q) {
        var j :| 0 <= j < k && |p[..k][j].ranking| > 0 && p[..k][j].ranking[0] == y;
        assert q[j] == p[..k][j];
      }
      if |value| > 0 {
        assert q[k].ranking[0] in FirstChoices(q);
      }
    }
    if |value| > 0 && value[0] !in FirstTally(p[..k]) {
      FirstCountOutside(p[..k], value[0]);
    }
  }

  /** The first loop of `plurality` (and of every `STV` round): count first places. */
  method FirstPlaceTally(p: Profile) returns (alt: map<int, int>)
    ensures alt == FirstTally(p)
  {
    alt := map[];
    for k := 0 to |p|
      invariant alt == FirstTally(p[..k])
    {
      FirstTallyStep(p, k);
      var value := p[k].ranking;
      if |value| > 0 {
        if value[0] !in alt {
          alt := alt[value[0] := 1];
        } else {
          alt := alt[value[0] := alt[value[0]] + 1];
        }
      }
    }
    assert p[..|p|] == p;
  }

  /** `plurality`: the alternative ranked first by most agents; alternatives nobody
      ranks first take no part. */
  method Plurality(preferences: Profile, tieBreak: Policy) returns (r: Result<int, Error>)
    ensures r == Elect(FirstTally(preferences), tieBreak, preferences)
    ensures r.Success? ==>
      && r.value in FirstChoices(preferences)
      && forall x :: FirstCount(preferences, x) <= FirstCount(preferences, r.value)
  {
    var alt := FirstPlaceTally(preferences);
    r := Decide(alt, tieBreak, preferences);
    PluralityMaximal(preferences, tieBreak);
  }

  /** The plurality winner is ranked first by someone, and by at least as many
      agents as any other alternative. */
  lemma PluralityMaximal(p: Profile, policy: Policy)
    ensures Elect(FirstTally(p), policy, p).Success? ==>
      var w := Elect(FirstTally(p), policy, p).value;
      && w in FirstChoices(p)
      && forall x :: FirstCount(p, x) <= FirstCount(p, w)
  {
    var alt := FirstTally(p);
    ElectIsMaximal(alt, policy, p);
    if Elect(alt, policy, p).Success? {
      var w := Elect(alt, policy, p).value;
      forall x ensures FirstCount(p, x) <= FirstCount(p, w) {
        if x !in FirstChoices(p) {
          FirstCountOutside(p, x);
        } else {
          assert x in alt;
        }
      }
    }
  }

  /** Two weightings that agree on every position give every alternative the same total. */
  lemma {:induction false} SameWeightsSameScore(p: seq<Ballot>, s1: Scheme, s2: Scheme, i: int)
    requires forall k, b :: 0 <= k < |p| && 0 <= b < |p[k].ranking| ==>
      Weight(s1, b, |p[k].ranking|) == Weight(s2, b, |p[k].ranking|)
    ensures Score(p, s1, i) == Score(p, s2, i)
  {
    if |p| > 0 {
      var q := p[..|p| - 1];
      assert forall k :: 0 <= k < |q| ==> q[k] == p[k];
      SameWeightsSameScore(q, s1, s2, i);
    }
  }

  /** Borda's score vector for `m` alternatives: (m - 1, ..., 1, 0). */
  function BordaVector(m: nat): (v: seq<int>)
    ensures |v| == m && NonIncreasing(v)
  {
    seq(m, b requires 0 <= b < m => (m - 1) - b)
  }

  /** Veto's score vector for `m` alternatives: (1, ..., 1, 0). */
  function VetoVector(m: nat): (v: seq<int>)
    ensures |v| == m && NonIncreasing(v)
  {
    seq(m, b requires 0 <= b < m => if b == m - 1 then 0 else 1)
  }

  /** Every ranking of a well-formed profile has the profile's width. */
  lemma CommonLength(p: Profile)
    requires WellFormed(p)
    ensures forall k :: 0 <= k < |p| ==> |p[k].ranking| == Width(p)
  {
    forall k | 0 <= k < |p| ensures |p[k].ranking| == Width(p) {
      assert IsPermutationOfRange(p[k].ranking, Width(p));
    }
  }

  lemma BordaWeights(p: Profile)
    requires WellFormed(p)
    ensures forall k, b :: 0 <= k < |p| && 0 <= b < |p[k].ranking| ==>
      Weight(BordaScheme, b, |p[k].ranking|) == Weight(ScoreVector(BordaVector(Width(p))), b, |p[k].ranking|)
  {
    CommonLength(p);
  }

  lemma VetoWeights(p: Profile)
    requires WellFormed(p)
    ensures forall k, b :: 0 <= k < |p| && 0 <= b < |p[k].ranking| ==>
      Weight(VetoScheme, b, |p[k].ranking|) == Weight(ScoreVector(VetoVector(Width(p))), b, |p[k].ranking|)
  {
    CommonLength(p);
  }

  /** `borda` is `scoringRule` with the score vector (m - 1, ..., 1, 0). */
  lemma BordaIsScoringRule(p: Profile)
    requires WellFormed(p)
    ensures Tallies(p, BordaScheme) == Tallies(p, ScoreVector(SortDescending(BordaVector(Width(p)))))
  {
    var v := BordaVector(Width(p));
    SortDescendingSorted(v);
    BordaWeights(p);
    forall i ensures Score(p, BordaScheme, i) == Score(p, ScoreVector(v), i) {
      SameWeightsSameScore(p, BordaScheme, ScoreVector(v), i);
    }
  }

  /** `veto` is `scoringRule` with the score vector (1, ..., 1, 0). */
  lemma VetoIsScoringRule(p: Profile)
    requires WellFormed(p)
    ensures Tallies(p, VetoScheme) == Tallies(p, ScoreVector(SortDescending(VetoVector(Width(p)))))
  {
    var v := VetoVector(Width(p));
    SortDescendingSorted(v);
    VetoWeights(p);
    forall i ensures Score(p, VetoScheme, i) == Score(p, ScoreVector(v), i) {
      SameWeightsSameScore(p, VetoScheme, ScoreVector(v), i);
    }
  }

  /** How many agents rank `x` last. */
  ghost function LastCount(p: seq<Ballot>, x: int): nat {
    if |p| == 0 then 0
    else LastCount(p[..|p| - 1], x) + (if |p[|p| - 1].ranking| > 0 && Last(p[|p| - 1].ranking) == x then 1 else 0)
  }

  function Last(s: seq<int>): int
    requires |s| > 0
  {
    s[|s| - 1]
  }

  /** Under veto an alternative's total is the number of agents that do not rank it last. */
  lemma {:induction false} VetoScoreCountsNotLast(p: seq<Ballot>, i: int)
    requires forall k :: 0 <= k < |p| ==> Distinct(p[k].ranking) && i in p[k].ranking
    ensures Score(p, VetoScheme, i) == |p| - LastCount(p, i)
  {
    if |p| > 0 {
      var q := p[..|p| - 1];
      assert forall k :: 0 <= k < |q| ==> q[k] == p[k];
      VetoScoreCountsNotLast(q, i);
      var r := p[|p| - 1].ranking;
      var c := IndexOf(r, i);
      if c == |r| - 1 {
        assert Last(r) == i;
      } else {
        assert Last(r) != i by {
          assert r[|r| - 1] != r[c];
        }
      }
    }
  }
}

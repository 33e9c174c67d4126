/** The shared tie-break resolver `tiebreaker` of voting.py, and the
    `max`/`min` built-ins it and the rules rely on. */
module TieBreaking {
  import opened Wrappers
  import opened Ballots

  /** The `tieBreak` argument: a string such as 'max' or 'min', or an agent key. */
  datatype Policy = Name(name: string) | AgentKey(agent: int)

  ghost function SetMax(s: set<int>): (m: int)
    requires s != {}
    ensures m in s && forall x :: x in s ==> x <= m
  {
    NonEmptyHasMember(s);
    var x :| x in s;
    var rest := s - {x};
    assert forall y :: y in s ==> y == x || y in rest;
    if rest == {} then
      assert forall y :: y !in rest;
      x
    else
      var r := SetMax(rest);
      if x < r then r else x
  }

  ghost function SetMin(s: set<int>): (m: int)
    requires s != {}
    ensures m in s && forall x :: x in s ==> m <= x
  {
    NonEmptyHasMember(s);
    var x :| x in s;
    var rest := s - {x};
    assert forall y :: y in s ==> y == x || y in rest;
    if rest == {} then
      assert forall y :: y !in rest;
      x
    else
      var r := SetMin(rest);
      if r < x then r else x
  }

  /** Reference for the agent policy: scanning the agent's ranking from the top,
      the first alternative that is tied. */
  ghost function FirstIn(s: seq<int>, tied: set<int>): (r: int)
    requires tied != {}
    requires forall t :: t in tied ==> t in s
    ensures r in tied && r in s
    ensures forall j :: 0 <= j < IndexOf(s, r) ==> s[j] !in tied
  {
    NonEmptyHasMember(tied);
    if s[0] in tied then s[0] else FirstIn(s[1..], tied)
  }

  /** The agent policy on the agent's ranking `choice`: `choice.index` raises for a
      tied alternative the agent does not list, `min` raises on an empty tie. */
  ghost function ByRanking(choice: seq<int>, tied: set<int>): Result<int, Error> {
    if exists t :: t in tied && t !in choice then Failure(NotRanked)
    else if tied == {} then Failure(EmptyTie)
    else Success(FirstIn(choice, tied))
  }

  /** What `tiebreaker(tieBreak, tieData, preferences)` returns or raises, for the
      tied alternatives `tied` (the keys of `tieData`). */
  ghost function TieBreak(policy: Policy, tied: set<int>, p: Profile): Result<int, Error> {
    if policy == Name("max") then
      if tied == {} then Failure(EmptyTie) else Success(SetMax(tied))
    else if policy == Name("min") then
      if tied == {} then Failure(EmptyTie) else Success(SetMin(tied))
    else if policy.AgentKey? && policy.agent in Agents(p) then
      ByRanking(Lookup(p, policy.agent).value, tied)
    else Failure(UnknownPolicy)
  }

  /** Python's `max` over a non-empty set. */
  method MaxOf(s: set<int>) returns (m: int)
    requires s != {}
    ensures m == SetMax(s)
  {
    NonEmptyHasMember(s);
    m :| m in s;
    var rest := s - {m};
    while rest != {}
      invariant rest <= s && m in s
      invariant forall x :: x in s - rest ==> x <= m
      decreases rest
    {
      NonEmptyHasMember(rest);
      var x :| x in rest;
      if m < x { m := x; }
      assert forall y :: y in s - (rest - {x}) ==> y in s - rest || y == x;
      rest := rest - {x};
    }
    assert forall y :: y !in rest;
    assert SetMax(s) in s - rest;
  }

  /** Python's `min` over a non-empty set. */
  method MinOf(s: set<int>) returns (m: int)
    requires s != {}
    ensures m == SetMin(s)
  {
    NonEmptyHasMember(s);
    m :| m in s;
    var rest := s - {m};
    while rest != {}
      invariant rest <= s && m in s
      invariant forall x :: x in s - rest ==> m <= x
      decreases rest
    {
      NonEmptyHasMember(rest);
      var x :| x in rest;
      if x < m { m := x; }
      assert forall y :: y in s - (rest - {x}) ==> y in s - rest || y == x;
      rest := rest - {x};
    }
    assert forall y :: y !in rest;
    assert SetMin(s) in s - rest;
  }

  /** Python's `min` over a non-empty list. */
  method MinOfList(xs: seq<int>) returns (m: int)
    requires xs != []
    ensures m in xs && forall i :: 0 <= i < |xs| ==> m <= xs[i]
  {
    m := xs[0];
    for i := 1 to |xs|
      invariant m in xs[..i]
      invariant forall j :: 0 <= j < i ==> m <= xs[j]
    {
      if xs[i] < m { m := xs[i]; }
    }
  }

  /** The agent branch of `tiebreaker`: collect `agentChoice.index(i)` for every
      tied `i`, then take the alternative at the smallest index. */
  method EarliestRanked(agentChoice: seq<int>, tieData: set<int>) returns (r: Result<int, Error>)
    ensures r == ByRanking(agentChoice, tieData)
  {
    var agentList: seq<int> := [];
    ghost var listed: seq<int> := [];
    var rest := tieData;
    while rest != {}
      invariant rest <= tieData
      invariant |agentList| == |listed|
      invariant forall t :: t in listed <==> t in tieData - rest
      invariant forall i :: 0 <= i < |listed| ==> listed[i] in agentChoice && agentList[i] == IndexOf(agentChoice, listed[i])
      decreases rest
    {
      NonEmptyHasMember(rest);
      var t :| t in rest;
      if t !in agentChoice {
        return Failure(NotRanked);
      }
      agentList := agentList + [IndexOf(agentChoice, t)];
      listed := listed + [t];
      assert forall y :: y in tieData - (rest - {t}) ==> y in tieData - rest || y == t;
      rest := rest - {t};
    }
    assert forall y :: y !in rest;
    if agentList == [] {
      if tieData != {} {
        NonEmptyHasMember(tieData);
        assert false;
      }
      return Failure(EmptyTie);
    }
    var least := MinOfList(agentList);
    SmallestIndexIsFirst(agentChoice, tieData, listed, agentList, least);
    r := Success(agentChoice[least]);
  }

  /** The smallest of the collected indexes points at the first tied alternative
      of the ranking. */
  lemma SmallestIndexIsFirst(choice: seq<int>, tied: set<int>, listed: seq<int>, indexes: seq<int>, least: int)
    requires |indexes| == |listed| > 0
    requires forall t :: t in listed <==> t in tied
    requires forall i :: 0 <= i < |listed| ==> listed[i] in choice && indexes[i] == IndexOf(choice, listed[i])
    requires least in indexes && forall i :: 0 <= i < |indexes| ==> least <= indexes[i]
    ensures tied != {} && forall t :: t in tied ==> t in choice
    ensures 0 <= least < |choice| && choice[least] == FirstIn(choice, tied)
  {
    var i0 :| 0 <= i0 < |indexes| && indexes[i0] == least;
    var x := listed[i0];
    assert x in listed;
    assert x in tied && x in choice;
    assert choice[least] == x;
    forall t | t in tied ensures t in choice {
      var j :| 0 <= j < |listed| && listed[j] == t;
    }
    var first := FirstIn(choice, tied);
    assert first in listed;
    var j0 :| 0 <= j0 < |listed| && listed[j0] == first;
    assert least <= indexes[j0] == IndexOf(choice, first);
    NoTiedBeforeFirst(choice, tied, least);
  }

  /** A tied entry no later than the first tied entry is that entry. */
  lemma NoTiedBeforeFirst(choice: seq<int>, tied: set<int>, least: int)
    requires tied != {} && forall t :: t in tied ==> t in choice
    requires 0 <= least < |choice| && choice[least] in tied
    requires least <= IndexOf(choice, FirstIn(choice, tied))
    ensures choice[least] == FirstIn(choice, tied)
  {
  }

  /** `tiebreaker`: 'max' picks the largest tied id, 'min' the smallest, an agent key
      the tied alternative that agent ranks earliest; anything else raises. */
  method TieBreaker(policy: Policy, tieData: set<int>, preferences: Profile) returns (r: Result<int, Error>)
    ensures r == TieBreak(policy, tieData, preferences)
  {
    if policy == Name("max") {
      if tieData == {} { return Failure(EmptyTie); }
      var m := MaxOf(tieData);
      r := Success(m);
    } else if policy == Name("min") {
      if tieData == {} { return Failure(EmptyTie); }
      var m := MinOf(tieData);
      r := Success(m);
    } else if policy.AgentKey? && Lookup(preferences, policy.agent).Some? {
      r := EarliestRanked(Lookup(preferences, policy.agent).value, tieData);
    } else {
      r := Failure(UnknownPolicy);
    }
  }

  /** The agent policy picks, among the tied alternatives, the one of smallest index
      in the agent's ranking. */
  lemma ByRankingEarliest(choice: seq<int>, tied: set<int>)
    requires tied != {}
    requires forall t :: t in tied ==> t in choice
    ensures ByRanking(choice, tied).Success?
    ensures ByRanking(choice, tied).value in tied
    ensures forall t :: t in tied ==> IndexOf(choice, ByRanking(choice, tied).value) <= IndexOf(choice, t)
  {
    var r := FirstIn(choice, tied);
    forall t | t in tied ensures IndexOf(choice, r) <= IndexOf(choice, t) {
      assert choice[IndexOf(choice, t)] in tied;
    }
  }

  /** The tie-break fails only for the reasons `ByRanking` and the policy names give. */
  lemma TieBreakNeverEmptyTally(policy: Policy, tied: set<int>, p: Profile)
    ensures TieBreak(policy, tied, p) != Failure(EmptyTally)
  {
  }

  /** Whatever the resolver returns is one of the tied alternatives; 'max' and 'min'
      give the extreme tied id. It fails exactly for an empty tie, an unrecognised
      policy, or an agent that does not rank every tied alternative. */
  lemma TieBreakContract(policy: Policy, tied: set<int>, p: Profile)
    ensures TieBreak(policy, tied, p).Success? ==> TieBreak(policy, tied, p).value in tied
    ensures policy == Name("max") && tied != {} ==>
      TieBreak(policy, tied, p) == Success(SetMax(tied))
    ensures policy == Name("min") && tied != {} ==>
      TieBreak(policy, tied, p) == Success(SetMin(tied))
    ensures TieBreak(policy, tied, p).Failure? <==>
      || tied == {}
      || (&& policy != Name("max") && policy != Name("min")
          && (!policy.AgentKey? || Lookup(p, policy.agent).None?
              || exists t :: t in tied && t !in Lookup(p, policy.agent).value))
  {
  }
}

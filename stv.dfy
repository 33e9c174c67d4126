/** `STV` of voting.py: repeatedly strike, from every agent's list, the alternative
    ranked first by the fewest agents, until one alternative is left. The lists are
    struck in place: `STVPref` is the caller's own dictionary, and the tie-break of
    every round reads the same, already shortened, lists. */
module Stv {
  import opened Wrappers
  import opened Ballots
  import opened TieBreaking
  import opened Selection
  import opened Positional
  import opened Filtering

  /** What `STV` relies on: the agents are 1..n (it indexes `STVPref[r + 1]` and
      `STVPref[1]`), and every agent ranks the same alternatives, each once. */
  ghost predicate Uniform(p: Profile) {
    && |p| >= 1
    && Agents(p) == Range(|p|)
    && forall k :: 0 <= k < |p| ==>
         && Distinct(p[k].ranking)
         && |p[k].ranking| == |p[0].ranking|
         && (forall x :: x in p[k].ranking <==> x in p[0].ranking)
  }

  /** `len(STVPref[1])`: how many alternatives are left. */
  function Width1(p: Profile): nat
    requires 1 in Agents(p)
  {
    |Lookup(p, 1).value|
  }

  lemma WidthIsCommon(p: Profile, k: nat)
    requires Uniform(p) && k < |p|
    ensures 1 in Agents(p) && Width1(p) == |p[k].ranking|
  {
    assert 1 in Range(|p|);
    var j :| 0 <= j < |p| && p[j].agent == 1;
  }

  /** Every list with `w` struck out: `STVPref[s].remove(w)` for each agent `s`. */
  function RemoveAll(p: Profile, w: int): (r: Profile)
    requires forall k :: 0 <= k < |p| ==> w in p[k].ranking
    ensures |r| == |p|
    ensures forall k :: 0 <= k < |p| ==> r[k] == Ballot(p[k].agent, RemoveFirst(p[k].ranking, w))
    ensures Agents(r) == Agents(p)
    ensures forall k :: 0 <= k < |p| ==> |r[k].ranking| == |p[k].ranking| - 1
  {
    var r := seq(|p|, k requires 0 <= k < |p| => Ballot(p[k].agent, RemoveFirst(p[k].ranking, w)));
    assert forall k :: 0 <= k < |p| ==> r[k].agent == p[k].agent;
    SameAgents(r, p);
    r
  }

  /** The lists after `w` has been struck for the agents 1..r. */
  ghost function StruckUpTo(p: Profile, w: int, r: int): (q: Profile)
    requires forall k :: 0 <= k < |p| ==> w in p[k].ranking
    ensures |q| == |p|
    ensures forall k :: 0 <= k < |p| ==>
      q[k] == if p[k].agent <= r then Ballot(p[k].agent, RemoveFirst(p[k].ranking, w)) else p[k]
  {
    var q := seq(|p|, k requires 0 <= k < |p| =>
      if p[k].agent <= r then Ballot(p[k].agent, RemoveFirst(p[k].ranking, w)) else p[k]);
    assert forall k :: 0 <= k < |p| ==> q[k].agent == p[k].agent;
    q
  }

  lemma StruckStep(p: Profile, w: int, r: nat, at: nat)
    requires forall k :: 0 <= k < |p| ==> w in p[k].ranking
    requires at < |p| && p[at].agent == r + 1
    ensures StruckUpTo(p, w, r)[at] == p[at]
    ensures StruckUpTo(p, w, r)[at := Ballot(r + 1, RemoveFirst(p[at].ranking, w))] == StruckUpTo(p, w, r + 1)
  {
    var q := StruckUpTo(p, w, r);
    var next := q[at := Ballot(r + 1, RemoveFirst(p[at].ranking, w))];
    var q1 := StruckUpTo(p, w, r + 1);
    forall k | 0 <= k < |p| ensures next[k] == q1[k] {
      if k != at {
        assert p[k].agent != r + 1;
      }
    }
  }

  lemma StruckNone(p: Profile, w: int)
    requires Agents(p) == Range(|p|)
    requires forall k :: 0 <= k < |p| ==> w in p[k].ranking
    ensures StruckUpTo(p, w, 0) == p
  {
    forall k | 0 <= k < |p| ensures p[k].agent >= 1 {
      assert p[k].agent in Agents(p);
    }
  }

  lemma StruckAll(p: Profile, w: int)
    requires Agents(p) == Range(|p|)
    requires forall k :: 0 <= k < |p| ==> w in p[k].ranking
    ensures StruckUpTo(p, w, |p|) == RemoveAll(p, w)
  {
    forall k | 0 <= k < |p| ensures p[k].agent <= |p| {
      assert p[k].agent in Agents(p);
    }
  }

  lemma StruckAgents(p: Profile, w: int, r: int)
    requires forall k :: 0 <= k < |p| ==> w in p[k].ranking
    ensures Agents(StruckUpTo(p, w, r)) == Agents(p)
    ensures forall a :: a in Agents(p) ==> Find(StruckUpTo(p, w, r), a) == Find(p, a)
  {
    var q := StruckUpTo(p, w, r);
    assert forall k :: 0 <= k < |p| ==> q[k].agent == p[k].agent;
    SameAgents(q, p);
  }

  /** The preference profile `STV` shortens in place. */
  class PreferenceProfile {
    var ballots: Profile

    constructor (p: Profile)
      ensures ballots == p
    {
      ballots := p;
    }

    /** `for r in range(len(STVPref)): STVPref[r + 1].remove(w)`. */
    method RemoveEverywhere(w: int)
      requires Agents(ballots) == Range(|ballots|)
      requires forall k :: 0 <= k < |ballots| ==> w in ballots[k].ranking
      modifies this
      ensures ballots == RemoveAll(old(ballots), w)
    {
      ghost var start := ballots;
      StruckNone(start, w);
      for r := 0 to |ballots|
        invariant ballots == StruckUpTo(start, w, r)
      {
        var s := r + 1;
        assert s in Agents(start);
        StruckAgents(start, w, r);
        var found := Find(ballots, s);
        var at := found.value;
        StruckStep(start, w, r, at);
        ballots := ballots[at := Ballot(s, RemoveFirst(ballots[at].ranking, w))];
      }
      StruckAll(start, w);
    }
  }

  lemma RemoveFirstIndex(s: seq<int>, w: int)
    requires w in s
    ensures |RemoveFirst(s, w)| == |s| - 1
    ensures forall a :: 0 <= a < |s| - 1 ==>
      RemoveFirst(s, w)[a] == if a < IndexOf(s, w) then s[a] else s[a + 1]
  {
  }

  lemma DistinctCons(x: int, r: seq<int>)
    requires Distinct(r) && x !in r
    ensures Distinct([x] + r)
  {
    var q := [x] + r;
    forall a, b | 0 <= a < b < |q| ensures q[a] != q[b] {
      assert q[b] == r[b - 1];
      if a > 0 { assert q[a] == r[a - 1]; }
    }
  }

  lemma {:induction false} RemoveFirstMembers(s: seq<int>, w: int, x: int)
    requires Distinct(s) && w in s
    ensures x in RemoveFirst(s, w) <==> x in s && x != w
  {
    DistinctTail(s);
    assert s == [s[0]] + s[1..];
    if s[0] != w {
      assert w in s[1..];
      RemoveFirstMembers(s[1..], w, x);
    }
  }

  lemma {:induction false} RemoveFirstDistinct(s: seq<int>, w: int)
    requires Distinct(s) && w in s
    ensures Distinct(RemoveFirst(s, w))
  {
    DistinctTail(s);
    if s[0] != w {
      assert s == [s[0]] + s[1..];
      assert w in s[1..];
      RemoveFirstDistinct(s[1..], w);
      RemoveFirstMembers(s[1..], w, s[0]);
      DistinctCons(s[0], RemoveFirst(s[1..], w));
    }
  }

  lemma RemoveFirstShape(s: seq<int>, w: int)
    requires Distinct(s) && w in s
    ensures Distinct(RemoveFirst(s, w))
    ensures |RemoveFirst(s, w)| == |s| - 1
    ensures forall x :: x in RemoveFirst(s, w) <==> x in s && x != w
  {
    RemoveFirstIndex(s, w);
    RemoveFirstDistinct(s, w);
    forall x ensures x in RemoveFirst(s, w) <==> x in s && x != w {
      RemoveFirstMembers(s, w, x);
    }
  }

  /** Striking a listed alternative keeps the profile uniform, one alternative shorter. */
  lemma RemoveKeepsUniform(p: Profile, w: int)
    requires Uniform(p)
    requires forall k :: 0 <= k < |p| ==> w in p[k].ranking
    ensures Uniform(RemoveAll(p, w))
    ensures Width1(RemoveAll(p, w)) == Width1(p) - 1
  {
    var r := RemoveAll(p, w);
    forall k | 0 <= k < |p|
      ensures && Distinct(r[k].ranking)
              && |r[k].ranking| == |r[0].ranking|
              && (forall x :: x in r[k].ranking <==> x in r[0].ranking)
    {
      StruckListShape(p, w, k);
    }
    assert Uniform(r);
    StruckListShape(p, w, 0);
    WidthIsCommon(p, 0);
    WidthIsCommon(r, 0);
  }

  /** One agent's struck list has the shape of agent 0's struck list. */
  lemma StruckListShape(p: Profile, w: int, k: nat)
    requires Uniform(p) && k < |p|
    requires forall j :: 0 <= j < |p| ==> w in p[j].ranking
    ensures var r := RemoveAll(p, w);
      && Distinct(r[k].ranking)
      && |r[k].ranking| == |r[0].ranking| == |p[0].ranking| - 1
      && (forall x :: x in r[k].ranking <==> x in r[0].ranking)
  {
    var r := RemoveAll(p, w);
    RemoveFirstShape(p[0].ranking, w);
    RemoveFirstShape(p[k].ranking, w);
    assert r[0].ranking == RemoveFirst(p[0].ranking, w);
    assert r[k].ranking == RemoveFirst(p[k].ranking, w);
    forall x ensures x in r[k].ranking <==> x in r[0].ranking {
      assert x in p[k].ranking <==> x in p[0].ranking;
    }
  }

  ghost function Elems(s: seq<int>): set<int> {
    set x | x in s
  }

  /** The alternatives at the first `m` places of the lists of the first `i` agents:
      the keys `leastFreq` has been given by then. */
  ghost function ListedUpTo(p: seq<Ballot>, i: nat, m: nat): set<int>
    requires i <= |p|
    requires forall k :: 0 <= k < |p| ==> m <= |p[k].ranking|
  {
    if i == 0 then {} else ListedUpTo(p, i - 1, m) + Elems(p[i - 1].ranking[..m])
  }

  /** `leastFreq`: every listed alternative with the number of agents ranking it first. */
  ghost function LeastFreq(p: seq<Ballot>, m: nat): map<int, int>
    requires forall k :: 0 <= k < |p| ==> m <= |p[k].ranking|
  {
    map x | x in ListedUpTo(p, |p|, m) :: FirstCount(p, x)
  }

  /** A listed alternative is in some agent's list, and every alternative at the first
      `m` places of a list is listed. */
  lemma {:induction false} ListedMembers(p: seq<Ballot>, i: nat, m: nat)
    requires i <= |p|
    requires forall k :: 0 <= k < |p| ==> m <= |p[k].ranking|
    ensures forall x :: x in ListedUpTo(p, i, m) ==> exists k :: 0 <= k < i && x in p[k].ranking
    ensures forall k, j :: 0 <= k < i && 0 <= j < m ==> p[k].ranking[j] in ListedUpTo(p, i, m)
  {
    if i > 0 {
      ListedMembers(p, i - 1, m);
      var s := p[i - 1].ranking;
      forall x | x in Elems(s[..m]) ensures x in s {
        var j :| 0 <= j < m && s[..m][j] == x;
        assert s[j] == x;
      }
      forall j | 0 <= j < m ensures s[j] in Elems(s[..m]) {
        assert s[..m][j] == s[j];
      }
    }
  }

  /** `alt[x]` when `x` is a key of the first-place tally, and 0 otherwise. */
  lemma CountOrZero(p: seq<Ballot>, x: int)
    ensures FirstCount(p, x) == if x in FirstTally(p) then FirstTally(p)[x] else 0
  {
    if x !in FirstChoices(p) {
      FirstCountOutside(p, x);
    }
  }

  /** The second loop of an `STV` round: `leastFreq`. The lists must hold at least
      `m` alternatives (`value[k]` raises otherwise). */
  method LeastFrequencies(p: Profile, alt: map<int, int>, m: nat) returns (leastFreq: map<int, int>)
    requires alt == FirstTally(p)
    requires forall k :: 0 <= k < |p| ==> m <= |p[k].ranking|
    ensures leastFreq == LeastFreq(p, m)
  {
    leastFreq := map[];
    for i := 0 to |p|
      invariant leastFreq.Keys == ListedUpTo(p, i, m)
      invariant forall x :: x in leastFreq ==> leastFreq[x] == FirstCount(p, x)
    {
      var value := p[i].ranking;
      for k := 0 to m
        invariant leastFreq.Keys == ListedUpTo(p, i, m) + Elems(value[..k])
        invariant forall x :: x in leastFreq ==> leastFreq[x] == FirstCount(p, x)
      {
        CountOrZero(p, value[k]);
        assert value[..k + 1] == value[..k] + [value[k]];
        if value[k] in alt {
          leastFreq := leastFreq[value[k] := alt[value[k]]];
        } else {
          leastFreq := leastFreq[value[k] := 0];
        }
      }
      assert ListedUpTo(p, i + 1, m) == ListedUpTo(p, i, m) + Elems(value[..m]);
    }
  }

  /** Under a uniform profile the listed alternatives are those of any one list. */
  lemma ListedIsCommon(cur: Profile)
    requires Uniform(cur)
    ensures 1 in Agents(cur)
    ensures forall x :: x in ListedUpTo(cur, |cur|, Width1(cur)) <==> x in cur[0].ranking
  {
    WidthIsCommon(cur, 0);
    var m := Width1(cur);
    forall k | 0 <= k < |cur| ensures m <= |cur[k].ranking| {
      WidthIsCommon(cur, k);
    }
    ListedMembers(cur, |cur|, m);
    forall x ensures x in ListedUpTo(cur, |cur|, m) <==> x in cur[0].ranking {
      if x in cur[0].ranking {
        var j :| 0 <= j < |cur[0].ranking| && cur[0].ranking[j] == x;
        assert cur[0].ranking[j] in ListedUpTo(cur, |cur|, m);
      }
    }
  }

  /** A round's choice: the least frequent first-placed alternatives, tie-broken
      against `tieProfile`. */
  ghost function Eliminate(cur: Profile, policy: Policy, tieProfile: Profile): Result<int, Error>
    requires Uniform(cur)
    requires Width1(cur) >= 1
  {
    ListedIsCommon(cur);
    var m := Width1(cur);
    var y := cur[0].ranking[0];
    assert y in ListedUpTo(cur, |cur|, m);
    assert y in LeastFreq(cur, m);
    ExtremesExist(LeastFreq(cur, m));
    Pick(Losers(LeastFreq(cur, m)), policy, tieProfile)
  }

  /** The struck alternative is still in every list, and no remaining alternative is
      ranked first by fewer agents. */
  lemma EliminatedIsLeastFrequent(cur: Profile, policy: Policy, tieProfile: Profile)
    requires Uniform(cur)
    requires Width1(cur) >= 1
    ensures Eliminate(cur, policy, tieProfile).Success? ==>
      var w := Eliminate(cur, policy, tieProfile).value;
      && (forall k :: 0 <= k < |cur| ==> w in cur[k].ranking)
      && forall x :: x in cur[0].ranking ==> FirstCount(cur, w) <= FirstCount(cur, x)
  {
    ListedIsCommon(cur);
    var m := Width1(cur);
    var lf := LeastFreq(cur, m);
    var y := cur[0].ranking[0];
    assert y in ListedUpTo(cur, |cur|, m);
    assert y in lf;
    ExtremesExist(lf);
    var losers := Losers(lf);
    if Eliminate(cur, policy, tieProfile).Success? {
      var w := Eliminate(cur, policy, tieProfile).value;
      PickIsCandidate(losers, policy, tieProfile, w);
      assert w in lf;
      assert w in cur[0].ranking;
      forall x | x in cur[0].ranking ensures FirstCount(cur, w) <= FirstCount(cur, x) {
        assert x in lf;
      }
    }
  }

  /** The rounds of `STV` from the profile `cur`: the result (None when no alternative
      is left) and the lists as they are left. The tie-break of each round reads
      `tieAgainst`, or the current lists when it is None. */
  ghost function StvRun(cur: Profile, policy: Policy, tieAgainst: Option<Profile>): (Result<Option<int>, Error>, Profile)
    requires Uniform(cur)
    decreases Width1(cur)
  {
    WidthIsCommon(cur, 0);
    var top := Lookup(cur, 1).value;
    if |top| > 1 then
      var tieProfile := if tieAgainst.None? then cur else tieAgainst.value;
      EliminatedIsLeastFrequent(cur, policy, tieProfile);
      match Eliminate(cur, policy, tieProfile)
      case Failure(e) => (Failure(e), cur)
      case Success(w) =>
        RemoveKeepsUniform(cur, w);
        StvRun(RemoveAll(cur, w), policy, tieAgainst)
    else if |top| == 1 then (Success(Some(top[0])), cur)
    else (Success(None), cur)
  }

  /** One round of `STV` on the lists `preferences` holds: count, pick, strike. The
      tie-break reads the lists themselves. */
  method Round(preferences: PreferenceProfile, tieBreak: Policy, m: nat) returns (choice: Result<int, Error>)
    requires Uniform(preferences.ballots) && Width1(preferences.ballots) == m > 1
    modifies preferences
    ensures choice == Eliminate(old(preferences.ballots), tieBreak, old(preferences.ballots))
    ensures choice.Failure? ==> preferences.ballots == old(preferences.ballots)
    ensures choice.Success? ==>
      && (forall k :: 0 <= k < |old(preferences.ballots)| ==> choice.value in old(preferences.ballots)[k].ranking)
      && preferences.ballots == RemoveAll(old(preferences.ballots), choice.value)
  {
    var cur := preferences.ballots;
    ListedIsCommon(cur);
    forall k | 0 <= k < |cur| ensures m <= |cur[k].ranking| {
      WidthIsCommon(cur, k);
    }
    var alt := FirstPlaceTally(cur);
    var leastFreq := LeastFrequencies(cur, alt, m);
    var y := cur[0].ranking[0];
    assert y in ListedUpTo(cur, |cur|, m);
    assert y in leastFreq;
    var minOcc, minFilter := ExtremeFilter(leastFreq, false);
    choice := Resolve(minFilter, tieBreak, cur);
    EliminatedIsLeastFrequent(cur, tieBreak, cur);
    if choice.Success? {
      preferences.RemoveEverywhere(choice.value);
    }
  }

  lemma StvUnfold(cur: Profile, policy: Policy)
    requires Uniform(cur) && Width1(cur) > 1
    ensures Eliminate(cur, policy, cur).Failure? ==>
      StvRun(cur, policy, None) == (Failure(Eliminate(cur, policy, cur).error), cur)
    ensures Eliminate(cur, policy, cur).Success? ==>
      var w := Eliminate(cur, policy, cur).value;
      && (forall k :: 0 <= k < |cur| ==> w in cur[k].ranking)
      && Uniform(RemoveAll(cur, w))
      && StvRun(cur, policy, None) == StvRun(RemoveAll(cur, w), policy, None)
  {
    EliminatedIsLeastFrequent(cur, policy, cur);
    if Eliminate(cur, policy, cur).Success? {
      RemoveKeepsUniform(cur, Eliminate(cur, policy, cur).value);
    }
  }

  /** `STV(preferences, tieBreak)`: returns the winner, or None when the lists are
      empty; a failing tie-break raises. The caller's lists are left shortened. */
  method STV(preferences: PreferenceProfile, tieBreak: Policy) returns (r: Result<Option<int>, Error>)
    requires Uniform(preferences.ballots)
    modifies preferences
    ensures (r, preferences.ballots) == StvRun(old(preferences.ballots), tieBreak, None)
    ensures r == StvRun(old(preferences.ballots), tieBreak, Some(old(preferences.ballots))).0
  {
    ghost var start := preferences.ballots;
    StvTieBreakAliasFree(start, tieBreak);
    WidthIsCommon(start, 0);
    var first := Find(preferences.ballots, 1);
    var m0 := |preferences.ballots[first.value].ranking|;
    for i := 0 to m0
      invariant Uniform(preferences.ballots)
      invariant Width1(preferences.ballots) == m0 - i
      invariant StvRun(start, tieBreak, None) == StvRun(preferences.ballots, tieBreak, None)
    {
      ghost var cur := preferences.ballots;
      var top := Lookup(preferences.ballots, 1).value;
      var m := |top|;
      if m > 1 {
        StvUnfold(cur, tieBreak);
        var choice := Round(preferences, tieBreak, m);
        if choice.Failure? {
          return Failure(choice.error);
        }
        RemoveKeepsUniform(cur, choice.value);
      } else {
        assert m == 1;
        return Success(Some(top[0]));
      }
    }
    r := Success(None);
  }

  lemma EliminateRestricted(cur: Profile, orig: Profile, keep: set<int>, policy: Policy)
    requires Uniform(cur) && Restricted(cur, orig, keep) && Width1(cur) >= 1
    ensures Eliminate(cur, policy, cur) == Eliminate(cur, policy, orig)
  {
    var m := Width1(cur);
    ListedIsCommon(cur);
    var lf := LeastFreq(cur, m);
    var y := cur[0].ranking[0];
    assert y in ListedUpTo(cur, |cur|, m);
    assert y in lf;
    ExtremesExist(lf);
    var losers := Losers(lf);
    FilterMembers(orig[0].ranking, keep);
    forall x | x in losers ensures x in keep {
      assert x in lf;
      assert x in cur[0].ranking;
    }
    PickRestricted(losers, policy, cur, orig, keep);
  }

  lemma RestrictedAfterRemove(cur: Profile, orig: Profile, keep: set<int>, w: int)
    requires Restricted(cur, orig, keep)
    requires forall k :: 0 <= k < |orig| ==> Distinct(orig[k].ranking)
    requires forall k :: 0 <= k < |cur| ==> w in cur[k].ranking
    ensures Restricted(RemoveAll(cur, w), orig, keep - {w})
  {
    var next := RemoveAll(cur, w);
    forall k | 0 <= k < |cur| ensures next[k].ranking == Filter(orig[k].ranking, keep - {w}) {
      FilterMembers(orig[k].ranking, keep);
      assert w in cur[k].ranking;
      RemoveFiltered(orig[k].ranking, keep, w);
    }
  }

  /** While the lists are `orig` restricted to the alternatives `keep` still in the
      race, a run whose tie-breaks read the shortened lists makes the same choices as
      one whose tie-breaks read `orig`. */
  lemma {:induction false} AliasedRunAgrees(cur: Profile, orig: Profile, keep: set<int>, policy: Policy)
    requires Uniform(cur) && Restricted(cur, orig, keep)
    requires forall k :: 0 <= k < |orig| ==> Distinct(orig[k].ranking)
    ensures StvRun(cur, policy, None) == StvRun(cur, policy, Some(orig))
    decreases Width1(cur)
  {
    WidthIsCommon(cur, 0);
    if Width1(cur) > 1 {
      EliminateRestricted(cur, orig, keep, policy);
      EliminatedIsLeastFrequent(cur, policy, cur);
      if Eliminate(cur, policy, cur).Success? {
        var w := Eliminate(cur, policy, cur).value;
        RemoveKeepsUniform(cur, w);
        RestrictedAfterRemove(cur, orig, keep, w);
        AliasedRunAgrees(RemoveAll(cur, w), orig, keep - {w}, policy);
      }
    }
  }

  /** `STV` passes its own, shrinking, dictionary to `tiebreaker`; this is harmless:
      every result equals that of breaking ties against the lists as they were given. */
  lemma StvTieBreakAliasFree(p: Profile, policy: Policy)
    requires Uniform(p)
    ensures StvRun(p, policy, None) == StvRun(p, policy, Some(p))
  {
    var keep := Elems(p[0].ranking);
    forall k | 0 <= k < |p| ensures p[k].ranking == Filter(p[k].ranking, keep) {
      FilterKeepsAll(p[k].ranking, keep);
    }
    AliasedRunAgrees(p, p, keep, policy);
  }

  /** A uniform profile with one alternative left: every list is that alternative. */
  lemma SingleLeft(p: Profile)
    requires Uniform(p) && |p[0].ranking| == 1
    ensures forall k :: 0 <= k < |p| ==> p[k].ranking == [p[0].ranking[0]]
  {
    forall k | 0 <= k < |p| ensures p[k].ranking == [p[0].ranking[0]] {
      var x := p[k].ranking[0];
      assert x in p[k].ranking;
      assert x in p[0].ranking;
    }
  }

  /** What `STV` returns: None exactly when there are no alternatives; otherwise (when
      no tie-break fails) an alternative of the profile, and every list is left
      holding that winner alone. Every list that is left keeps only original
      alternatives. */
  lemma {:induction false} StvOutcome(p: Profile, policy: Policy)
    requires Uniform(p)
    ensures Uniform(StvRun(p, policy, None).1)
    ensures forall k, x :: 0 <= k < |StvRun(p, policy, None).1| && x in StvRun(p, policy, None).1[k].ranking ==> x in p[0].ranking
    ensures StvRun(p, policy, None).0 == Success(None) <==> p[0].ranking == []
    ensures StvRun(p, policy, None).0.Success? && StvRun(p, policy, None).0.value.Some? ==>
      var w := StvRun(p, policy, None).0.value.value;
      && w in p[0].ranking
      && forall k :: 0 <= k < |StvRun(p, policy, None).1| ==> StvRun(p, policy, None).1[k].ranking == [w]
    decreases Width1(p)
  {
    WidthIsCommon(p, 0);
    var m := Width1(p);
    if m == 1 {
      SingleLeft(p);
      var top := Lookup(p, 1).value;
      var k1 :| 0 <= k1 < |p| && p[k1].agent == 1;
      assert top == p[k1].ranking;
    } else if m > 1 {
      EliminatedIsLeastFrequent(p, policy, p);
      if Eliminate(p, policy, p).Success? {
        var w := Eliminate(p, policy, p).value;
        RemoveKeepsUniform(p, w);
        var next := RemoveAll(p, w);
        RemoveFirstShape(p[0].ranking, w);
        WidthIsCommon(next, 0);
        StvOutcome(next, policy);
      }
    }
  }

  /** A tie-break policy `STV` can always apply to the lists `p` holds: 'max', 'min',
      or the key of one of its agents. */
  ghost predicate KnownPolicy(policy: Policy, p: Profile) {
    policy == Name("max") || policy == Name("min") || (policy.AgentKey? && policy.agent in Agents(p))
  }

  /** Under a known policy every round finds an alternative to strike. */
  lemma EliminateSucceeds(cur: Profile, policy: Policy)
    requires Uniform(cur) && Width1(cur) >= 1 && KnownPolicy(policy, cur)
    ensures Eliminate(cur, policy, cur).Success?
  {
    ListedIsCommon(cur);
    var m := Width1(cur);
    var lf := LeastFreq(cur, m);
    var y := cur[0].ranking[0];
    assert y in ListedUpTo(cur, |cur|, m);
    assert y in lf;
    ExtremesExist(lf);
    var tied := Losers(lf);
    if policy.AgentKey? && policy.agent in Agents(cur) {
      var k :| 0 <= k < |cur| && cur[k].agent == policy.agent;
      assert Lookup(cur, policy.agent) == Some(cur[k].ranking);
      forall t | t in tied ensures t in cur[k].ranking {
        assert t in ListedUpTo(cur, |cur|, m);
      }
    }
    PickSucceeds(tied, policy, cur);
  }

  /** `STV` under a known policy always succeeds: when alternatives are listed it
      returns one of them, and every list is left holding that winner alone. */
  lemma {:induction false} StvSucceeds(p: Profile, policy: Policy)
    requires Uniform(p) && KnownPolicy(policy, p)
    ensures StvRun(p, policy, None).0.Success?
    ensures p[0].ranking != [] ==>
      && StvRun(p, policy, None).0.value.Some?
      && var w := StvRun(p, policy, None).0.value.value;
      && w in p[0].ranking
      && forall k :: 0 <= k < |StvRun(p, policy, None).1| ==> StvRun(p, policy, None).1[k].ranking == [w]
    decreases Width1(p)
  {
    WidthIsCommon(p, 0);
    if Width1(p) > 1 {
      EliminateSucceeds(p, policy);
      StvUnfold(p, policy);
      var w := Eliminate(p, policy, p).value;
      var next := RemoveAll(p, w);
      RemoveKeepsUniform(p, w);
      StvSucceeds(next, policy);
    }
    StvOutcome(p, policy);
  }
}

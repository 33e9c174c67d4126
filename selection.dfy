/** The tail every rule of voting.py shares: take the extreme value of a tally,
    filter the alternatives that reach it, and call the tie-break only when more
    than one does. */
module Selection {
  import opened Wrappers
  import opened Ballots
  import opened TieBreaking

  /** `maxFilter`: the alternatives whose tally is the maximum. */
  ghost function Winners(alt: map<int, int>): (w: set<int>)
    ensures forall k :: k in w <==> k in alt && forall j :: j in alt ==> alt[j] <= alt[k]
  {
    set k | k in alt && forall j :: j in alt ==> alt[j] <= alt[k]
  }

  /** `minFilter`: the alternatives whose tally is the minimum. */
  ghost function Losers(alt: map<int, int>): (w: set<int>)
    ensures forall k :: k in w <==> k in alt && forall j :: j in alt ==> alt[k] <= alt[j]
  {
    set k | k in alt && forall j :: j in alt ==> alt[k] <= alt[j]
  }

  /** `maxFilter` compares with `max(alt.values())`: the winners are exactly the keys
      whose tally equals the largest value. */
  lemma WinnersAtMax(alt: map<int, int>)
    requires alt != map[]
    ensures Winners(alt) == set k | k in alt && alt[k] == SetMax(alt.Values)
  {
    NonEmptyHasMember(alt.Keys);
    var k0 :| k0 in alt;
    assert alt[k0] in alt.Values;
    var hi := SetMax(alt.Values);
    ValueHasKey(alt, hi);
    var kh :| kh in alt && alt[kh] == hi;
    forall k | k in alt ensures (k in Winners(alt)) == (alt[k] == hi) {
      assert alt[k] in alt.Values;
      if alt[k] != hi {
        assert alt[kh] > alt[k];
      } else {
        forall j | j in alt ensures alt[j] <= alt[k] {
          assert alt[j] in alt.Values;
        }
      }
    }
  }

  /** `minFilter` compares with `min(leastFreq.values())`: the losers are exactly the
      keys whose tally equals the smallest value. */
  lemma LosersAtMin(alt: map<int, int>)
    requires alt != map[]
    ensures Losers(alt) == set k | k in alt && alt[k] == SetMin(alt.Values)
  {
    NonEmptyHasMember(alt.Keys);
    var k0 :| k0 in alt;
    assert alt[k0] in alt.Values;
    var lo := SetMin(alt.Values);
    ValueHasKey(alt, lo);
    var kl :| kl in alt && alt[kl] == lo;
    forall k | k in alt ensures (k in Losers(alt)) == (alt[k] == lo) {
      assert alt[k] in alt.Values;
      if alt[k] != lo {
        assert alt[kl] < alt[k];
      } else {
        forall j | j in alt ensures alt[k] <= alt[j] {
          assert alt[j] in alt.Values;
        }
      }
    }
  }

  /** A set with at most one element has no two different members. */
  lemma AtMostOne(s: set<int>, x: int, y: int)
    requires |s| <= 1 && x in s && y in s
    ensures x == y
  {
    var rest := s - {x};
    assert |rest| == |s| - 1;
    if x != y {
      assert false;
    }
  }

  /** Every value of a map is the value of some key. */
  lemma ValueHasKey(m: map<int, int>, v: int)
    requires v in m.Values
    ensures exists k :: k in m && m[k] == v
  {
    if forall k :: k in m ==> m[k] != v { assert false; }
  }

  /** `if len(filter) > 1: tiebreaker(...) else: int(filter[0])`. */
  ghost function Pick(tied: set<int>, policy: Policy, p: Profile): Result<int, Error>
    requires tied != {}
  {
    if |tied| > 1 then TieBreak(policy, tied, p) else Success(SetMax(tied))
  }

  /** The decision of a maximising rule on its tally `alt`; `max` of an empty tally raises. */
  ghost function Elect(alt: map<int, int>, policy: Policy, p: Profile): Result<int, Error> {
    if alt == map[] then Failure(EmptyTally)
    else
      ExtremesExist(alt);
      Pick(Winners(alt), policy, p)
  }

  lemma ExtremesExist(alt: map<int, int>)
    requires alt != map[]
    ensures Winners(alt) != {} && Losers(alt) != {}
  {
    NonEmptyHasMember(alt.Keys);
    var k :| k in alt;
    assert alt[k] in alt.Values;
    var hi := SetMax(alt.Values);
    var lo := SetMin(alt.Values);
    ValueHasKey(alt, hi);
    ValueHasKey(alt, lo);
    var kh :| kh in alt && alt[kh] == hi;
    var kl :| kl in alt && alt[kl] == lo;
    forall j | j in alt ensures lo <= alt[j] <= hi {
      assert alt[j] in alt.Values;
    }
    assert kh in Winners(alt);
    assert kl in Losers(alt);
  }

  /** The extreme value of a non-empty tally, and the alternatives that reach it. */
  method ExtremeFilter(alt: map<int, int>, maximum: bool) returns (best: int, filter: set<int>)
    requires alt != map[]
    ensures best in alt.Values
    ensures best == if maximum then SetMax(alt.Values) else SetMin(alt.Values)
    ensures filter == if maximum then Winners(alt) else Losers(alt)
    ensures filter != {}
  {
    NonEmptyHasMember(alt.Keys);
    var k :| k in alt;
    assert alt[k] in alt.Values;
    if maximum {
      best := MaxOf(alt.Values);
    } else {
      best := MinOf(alt.Values);
    }
    filter := set k | k in alt && alt[k] == best;
    forall j | j in alt ensures if maximum then alt[j] <= best else best <= alt[j] {
      assert alt[j] in alt.Values;
    }
    ValueHasKey(alt, best);
    ghost var kb :| kb in alt && alt[kb] == best;
    assert kb in filter;
  }

  /** The tie-break step: a unique candidate is returned as it is. */
  method Resolve(filter: set<int>, policy: Policy, p: Profile) returns (r: Result<int, Error>)
    requires filter != {}
    ensures r == Pick(filter, policy, p)
  {
    if |filter| > 1 {
      r := TieBreaker(policy, filter, p);
    } else {
      NonEmptyHasMember(filter);
      var w :| w in filter;
      AtMostOne(filter, w, SetMax(filter));
      r := Success(w);
    }
  }

  /** `max(alt.values())`, `maxFilter` and the tie-break. */
  method Decide(alt: map<int, int>, policy: Policy, p: Profile) returns (r: Result<int, Error>)
    ensures r == Elect(alt, policy, p)
  {
    if alt == map[] {
      return Failure(EmptyTally);
    }
    var best, maxFilter := ExtremeFilter(alt, true);
    r := Resolve(maxFilter, policy, p);
  }

  /** A key whose tally beats every other key's is the only maximal one. */
  lemma UniqueTop(alt: map<int, int>, w: int)
    requires w in alt && forall j :: j in alt && j != w ==> alt[j] < alt[w]
    ensures Winners(alt) == {w}
  {
    forall j | j in alt ensures alt[j] <= alt[w] {
    }
    assert w in Winners(alt);
    forall k | k in Winners(alt) ensures k == w {
      assert k in alt && alt[w] <= alt[k];
    }
  }

  /** A key whose tally is below every other key's is the only minimal one. */
  lemma UniqueBottom(alt: map<int, int>, w: int)
    requires w in alt && forall j :: j in alt && j != w ==> alt[w] < alt[j]
    ensures Losers(alt) == {w}
  {
    forall j | j in alt ensures alt[w] <= alt[j] {
    }
    assert w in Losers(alt);
    forall k | k in Losers(alt) ensures k == w {
      assert k in alt && alt[k] <= alt[w];
    }
  }

  /** What `Pick` returns is one of the candidates; with one candidate it is that one. */
  lemma PickIsCandidate(tied: set<int>, policy: Policy, p: Profile, x: int)
    requires tied != {}
    ensures Pick(tied, policy, p).Success? ==> Pick(tied, policy, p).value in tied
    ensures |tied| == 1 && x in tied ==> Pick(tied, policy, p) == Success(x)
  {
    TieBreakContract(policy, tied, p);
    if |tied| == 1 && x in tied {
      AtMostOne(tied, x, SetMax(tied));
    }
  }

  /** The pick succeeds under 'max', 'min', or the key of an agent whose list holds
      every candidate. */
  lemma PickSucceeds(tied: set<int>, policy: Policy, p: Profile)
    requires tied != {}
    requires || policy == Name("max") || policy == Name("min")
             || (&& policy.AgentKey? && Lookup(p, policy.agent).Some?
                 && forall t :: t in tied ==> t in Lookup(p, policy.agent).value)
    ensures Pick(tied, policy, p).Success?
  {
    TieBreakContract(policy, tied, p);
  }

  /** A maximising rule's winner has the largest tally; a unique maximum is returned
      without consulting the tie-break, and a shared one goes to the tie-break with
      exactly the set of maximal alternatives. */
  lemma ElectIsMaximal(alt: map<int, int>, policy: Policy, p: Profile)
    ensures Elect(alt, policy, p).Success? ==>
      var w := Elect(alt, policy, p).value;
      w in alt && forall j :: j in alt ==> alt[j] <= alt[w]
    ensures alt != map[] && |Winners(alt)| > 1 ==> Elect(alt, policy, p) == TieBreak(policy, Winners(alt), p)
    ensures forall w :: w in Winners(alt) && |Winners(alt)| == 1 ==> Elect(alt, policy, p) == Success(w)
    ensures Elect(alt, policy, p) == Failure(EmptyTally) <==> alt == map[]
  {
    if alt != map[] {
      ExtremesExist(alt);
      TieBreakNeverEmptyTally(policy, Winners(alt), p);
      forall x | x in Winners(alt) ensures Pick(Winners(alt), policy, p).Success? ==> Pick(Winners(alt), policy, p).value in Winners(alt)
      {
        PickIsCandidate(Winners(alt), policy, p, x);
      }
      NonEmptyHasMember(Winners(alt));
      var x :| x in Winners(alt);
      PickIsCandidate(Winners(alt), policy, p, x);
      forall w | w in Winners(alt) && |Winners(alt)| == 1 ensures Elect(alt, policy, p) == Success(w) {
        PickIsCandidate(Winners(alt), policy, p, w);
      }
    }
  }
}

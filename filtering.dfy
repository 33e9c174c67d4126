/** Lists restricted to a set of remaining alternatives, and why a tie-break among
    remaining alternatives cannot tell a restricted profile from the original. */
module Filtering {
  import opened Wrappers
  import opened Ballots
  import opened TieBreaking
  import opened Selection

  /** The entries of `s` that are in `keep`, in their order. */
  function Filter(s: seq<int>, keep: set<int>): seq<int> {
    if s == [] then [] else (if s[0] in keep then [s[0]] else []) + Filter(s[1..], keep)
  }

  lemma {:induction false} FilterMembers(s: seq<int>, keep: set<int>)
    ensures forall x :: x in Filter(s, keep) <==> x in s && x in keep
  {
    if s != [] {
      FilterMembers(s[1..], keep);
      assert forall x :: x in s <==> x == s[0] || x in s[1..];
    }
  }

  lemma {:induction false} FilterKeepsAll(s: seq<int>, keep: set<int>)
    requires forall x :: x in s ==> x in keep
    ensures Filter(s, keep) == s
  {
    if s != [] {
      var y := s[0];
      assert y in s;
      assert forall x :: x in s[1..] ==> x in s;
      FilterKeepsAll(s[1..], keep);
      assert s == [s[0]] + s[1..];
    }
  }

  /** Only the kept alternatives that `s` lists matter. */
  lemma {:induction false} FilterSame(s: seq<int>, k1: set<int>, k2: set<int>)
    requires forall x :: x in s ==> (x in k1 <==> x in k2)
    ensures Filter(s, k1) == Filter(s, k2)
  {
    if s != [] {
      var y := s[0];
      assert y in s;
      assert forall x :: x in s[1..] ==> x in s;
      FilterSame(s[1..], k1, k2);
    }
  }

  lemma DistinctTail(s: seq<int>)
    requires s != [] && Distinct(s)
    ensures Distinct(s[1..]) && s[0] !in s[1..]
  {
    var t := s[1..];
    forall j | 0 <= j < |t| ensures t[j] != s[0] {
      assert t[j] == s[j + 1];
    }
    forall i, j | 0 <= i < j < |t| ensures t[i] != t[j] {
      assert t[i] == s[i + 1] && t[j] == s[j + 1];
    }
  }

  lemma RemoveFirstCons(x: int, f: seq<int>, w: int)
    requires w == x || w in f
    ensures x == w ==> RemoveFirst([x] + f, w) == f
    ensures x != w ==> RemoveFirst([x] + f, w) == [x] + RemoveFirst(f, w)
  {
    assert ([x] + f)[0] == x && ([x] + f)[1..] == f;
  }

  lemma RemoveFilteredAtHead(s: seq<int>, keep: set<int>, w: int)
    requires Distinct(s) && s != [] && s[0] == w && w in keep
    ensures Filter(s, keep) == [w] + Filter(s[1..], keep)
    ensures RemoveFirst(Filter(s, keep), w) == Filter(s, keep - {w})
  {
    var t := s[1..];
    DistinctTail(s);
    RemoveFirstCons(w, Filter(t, keep), w);
    FilterSame(t, keep, keep - {w});
  }

  lemma RemoveFilteredPast(s: seq<int>, keep: set<int>, w: int)
    requires s != [] && s[0] != w && w in Filter(s[1..], keep)
    requires RemoveFirst(Filter(s[1..], keep), w) == Filter(s[1..], keep - {w})
    ensures w in Filter(s, keep)
    ensures RemoveFirst(Filter(s, keep), w) == Filter(s, keep - {w})
  {
    var t := s[1..];
    var f := Filter(t, keep);
    if s[0] in keep {
      assert Filter(s, keep) == [s[0]] + f;
      assert Filter(s, keep - {w}) == [s[0]] + Filter(t, keep - {w});
      RemoveFirstCons(s[0], f, w);
    } else {
      assert Filter(s, keep) == [] + f == f;
      assert Filter(s, keep - {w}) == [] + Filter(t, keep - {w});
    }
  }

  /** Python's `remove` on a restricted list of distinct alternatives is the same
      restriction with one alternative fewer kept. */
  lemma {:induction false} RemoveFiltered(s: seq<int>, keep: set<int>, w: int)
    requires Distinct(s) && w in s && w in keep
    ensures w in Filter(s, keep)
    ensures RemoveFirst(Filter(s, keep), w) == Filter(s, keep - {w})
  {
    if s[0] == w {
      RemoveFilteredAtHead(s, keep, w);
    } else {
      DistinctTail(s);
      assert s == [s[0]] + s[1..];
      assert w in s[1..];
      RemoveFiltered(s[1..], keep, w);
      FilterMembers(s[1..], keep);
      RemoveFilteredPast(s, keep, w);
    }
  }

  lemma FirstInCons(x: int, f: seq<int>, tied: set<int>)
    requires tied != {} && forall t :: t in tied ==> t in f
    ensures forall t :: t in tied ==> t in [x] + f
    ensures FirstIn([x] + f, tied) == if x in tied then x else FirstIn(f, tied)
  {
    assert ([x] + f)[0] == x && ([x] + f)[1..] == f;
  }

  lemma FirstInHead(x: int, f: seq<int>, tied: set<int>)
    requires x in tied && forall t :: t in tied ==> t in [x] + f
    ensures FirstIn([x] + f, tied) == x
  {
    assert ([x] + f)[0] == x;
  }

  lemma TiedInTail(s: seq<int>, tied: set<int>)
    requires s != [] && s[0] !in tied
    requires forall t :: t in tied ==> t in s
    ensures forall t :: t in tied ==> t in s[1..]
  {
    assert forall x :: x in s ==> x == s[0] || x in s[1..];
  }

  /** Dropping alternatives outside the tie does not change which tied alternative an
      agent lists first. */
  lemma {:induction false} FirstInFiltered(s: seq<int>, keep: set<int>, tied: set<int>)
    requires tied != {} && tied <= keep
    requires forall t :: t in tied ==> t in s
    ensures forall t :: t in tied ==> t in Filter(s, keep)
    ensures FirstIn(Filter(s, keep), tied) == FirstIn(s, tied)
  {
    FilterMembers(s, keep);
    TieIsListed(s, tied);
    if s[0] in tied {
      FilterHead(s, keep, tied);
    } else {
      TiedInTail(s, tied);
      FirstInFiltered(s[1..], keep, tied);
      FilterSkip(s, keep, tied);
    }
  }

  lemma TieIsListed(s: seq<int>, tied: set<int>)
    requires tied != {} && forall t :: t in tied ==> t in s
    ensures s != []
  {
    NonEmptyHasMember(tied);
    var t0 :| t0 in tied;
    assert t0 in s;
  }

  lemma FilterHead(s: seq<int>, keep: set<int>, tied: set<int>)
    requires s != [] && s[0] in tied && tied <= keep
    requires forall t :: t in tied ==> t in s
    requires forall t :: t in tied ==> t in Filter(s, keep)
    ensures FirstIn(Filter(s, keep), tied) == s[0] == FirstIn(s, tied)
  {
    var f := Filter(s[1..], keep);
    assert Filter(s, keep) == [s[0]] + f;
    FirstInHead(s[0], f, tied);
  }

  lemma FilterSkip(s: seq<int>, keep: set<int>, tied: set<int>)
    requires s != [] && s[0] !in tied && tied != {}
    requires forall t :: t in tied ==> t in s[1..]
    requires forall t :: t in tied ==> t in Filter(s[1..], keep)
    ensures forall t :: t in tied ==> t in Filter(s, keep)
    ensures FirstIn(Filter(s, keep), tied) == FirstIn(Filter(s[1..], keep), tied)
    ensures FirstIn(s, tied) == FirstIn(s[1..], tied)
  {
    var f := Filter(s[1..], keep);
    if s[0] in keep {
      assert Filter(s, keep) == [s[0]] + f;
      FirstInCons(s[0], f, tied);
    } else {
      assert Filter(s, keep) == f;
    }
  }

  lemma ByRankingFiltered(s: seq<int>, keep: set<int>, tied: set<int>)
    requires tied <= keep
    ensures ByRanking(Filter(s, keep), tied) == ByRanking(s, tied)
  {
    FilterMembers(s, keep);
    if tied != {} && forall t :: t in tied ==> t in s {
      FirstInFiltered(s, keep, tied);
    }
  }

  /** `cur` is `orig` with every list restricted to `keep`, agents in the same order. */
  ghost predicate Restricted(cur: Profile, orig: Profile, keep: set<int>) {
    && |cur| == |orig|
    && forall k :: 0 <= k < |cur| ==> cur[k].agent == orig[k].agent && cur[k].ranking == Filter(orig[k].ranking, keep)
  }

  /** A tie among kept alternatives is broken alike against the restricted and the
      original profile. */
  lemma TieBreakRestricted(policy: Policy, tied: set<int>, cur: Profile, orig: Profile, keep: set<int>)
    requires Restricted(cur, orig, keep) && tied <= keep
    ensures TieBreak(policy, tied, cur) == TieBreak(policy, tied, orig)
  {
    assert Agents(cur) == Agents(orig) by {
      forall a ensures a in Agents(cur) <==> a in Agents(orig) {
        if a in Agents(cur) {
          var k :| 0 <= k < |cur| && cur[k].agent == a;
        }
        if a in Agents(orig) {
          var k :| 0 <= k < |orig| && orig[k].agent == a;
          assert cur[k].agent == a;
        }
      }
    }
    if policy.AgentKey? && policy.agent in Agents(orig) {
      var k :| 0 <= k < |orig| && orig[k].agent == policy.agent;
      assert cur[k].agent == policy.agent;
      assert Lookup(cur, policy.agent).value == Filter(Lookup(orig, policy.agent).value, keep);
      ByRankingFiltered(Lookup(orig, policy.agent).value, keep, tied);
    }
  }

  lemma PickRestricted(tied: set<int>, policy: Policy, cur: Profile, orig: Profile, keep: set<int>)
    requires tied != {} && Restricted(cur, orig, keep) && tied <= keep
    ensures Pick(tied, policy, cur) == Pick(tied, policy, orig)
  {
    TieBreakRestricted(policy, tied, cur, orig, keep);
  }
}

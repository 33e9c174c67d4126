/** Preference profiles: the dictionary from agent to ranked list of
    alternatives that every rule of voting.py consumes, and the list and
    dictionary operations the rules apply to it. */
module Ballots {
  import opened Wrappers

  /** What the rules raise (or, where the source catches it, report). */
  datatype Error =
    | UnknownPolicy  // tie-break policy is not 'max', 'min' or an agent: `tieWin` stays unbound
    | NotRanked      // the policy's agent does not list some tied alternative: `list.index` raises
    | EmptyTie       // `max`/`min` of an empty collection inside the tie-break
    | EmptyTally     // `max` of an empty tally
    | NoAgent        // a row without cells before any agent was read: `dicts[[]]` is unhashable

  /** One entry of the profile dictionary: an agent and its ranking, rank 0 first. */
  datatype Ballot = Ballot(agent: int, ranking: seq<int>)

  /** A Python dictionary from agents to rankings, in insertion order: keys are distinct. */
  type Profile = p: seq<Ballot> | forall i, j :: 0 <= i < j < |p| ==> p[i].agent != p[j].agent
    witness []

  function Agents(p: Profile): (r: set<int>)
    ensures forall a :: a in r <==> exists k :: 0 <= k < |p| && p[k].agent == a
  {
    set k | 0 <= k < |p| :: p[k].agent
  }

  /** Position of agent `a` in the dictionary, if it is a key. */
  function Find(p: Profile, a: int): (r: Option<nat>)
    ensures r.Some? ==> r.value < |p| && p[r.value].agent == a
    ensures r.None? <==> a !in Agents(p)
  {
    if |p| == 0 then None
    else if p[0].agent == a then Some(0)
    else match Find(p[1..], a)
      case None => None
      case Some(k) => Some(k + 1)
  }

  /** `p[a]`, or None when `a` is not a key. */
  function Lookup(p: Profile, a: int): (r: Option<seq<int>>)
    ensures r.Some? <==> a in Agents(p)
    ensures forall k :: 0 <= k < |p| && p[k].agent == a ==> r == Some(p[k].ranking)
  {
    match Find(p, a)
    case None => None
    case Some(k) => Some(p[k].ranking)
  }

  /** Dictionary assignment `p[a] = s`: an existing key keeps its place, a new one is appended. */
  function Assign(p: Profile, a: int, s: seq<int>): (r: Profile)
    ensures Agents(r) == Agents(p) + {a}
    ensures Lookup(r, a) == Some(s)
    ensures forall b :: b != a ==> Lookup(r, b) == Lookup(p, b)
  {
    match Find(p, a)
    case Some(k) =>
      var r := p[k := Ballot(a, s)];
      assert forall j :: 0 <= j < |p| ==> r[j].agent == p[j].agent;
      r
    case None =>
      var r := p + [Ballot(a, s)];
      assert r[|p|].agent == a;
      assert forall j :: 0 <= j < |p| ==> r[j].agent == p[j].agent;
      r
  }

  /** Two profiles with the same agents in the same places find every agent alike. */
  lemma {:induction false} SameAgentsFind(p: Profile, q: Profile, a: int)
    requires |p| == |q| && forall k :: 0 <= k < |p| ==> p[k].agent == q[k].agent
    ensures Find(p, a) == Find(q, a)
  {
    if |p| > 0 {
      SameAgentsFind(p[1..], q[1..], a);
    }
  }

  lemma SameAgents(p: Profile, q: Profile)
    requires |p| == |q| && forall k :: 0 <= k < |p| ==> p[k].agent == q[k].agent
    ensures Agents(p) == Agents(q)
    ensures forall a :: Find(p, a) == Find(q, a)
  {
    forall a ensures Find(p, a) == Find(q, a) {
      SameAgentsFind(p, q, a);
    }
  }

  /** A non-empty set has a member (stated so that `:|` can pick one). */
  lemma NonEmptyHasMember(s: set<int>)
    requires s != {}
    ensures exists x :: x in s
  {
    if forall x :: x !in s { assert false; }
  }

  predicate Distinct(s: seq<int>) {
    forall i, j :: 0 <= i < j < |s| ==> s[i] != s[j]
  }

  /** Python's `s.index(x)`: the first position holding `x`. */
  function IndexOf(s: seq<int>, x: int): (i: nat)
    requires x in s
    ensures i < |s| && s[i] == x
    ensures forall j :: 0 <= j < i ==> s[j] != x
  {
    if s[0] == x then 0 else 1 + IndexOf(s[1..], x)
  }

  /** Python's `s.remove(x)` for an `x` that `s` holds: drops its first occurrence. */
  function RemoveFirst(s: seq<int>, x: int): (r: seq<int>)
    requires x in s
    ensures r == s[..IndexOf(s, x)] + s[IndexOf(s, x) + 1..]
  {
    if s[0] == x then s[1..] else [s[0]] + RemoveFirst(s[1..], x)
  }

  /** Number of alternatives per ranking, read off the first entry. */
  function Width(p: Profile): nat {
    if |p| == 0 then 0 else |p[0].ranking|
  }

  /** `s` lists each of the alternatives 1..m exactly once. */
  predicate IsPermutationOfRange(s: seq<int>, m: nat) {
    && |s| == m
    && Distinct(s)
    && (forall i :: 0 <= i < |s| ==> 1 <= s[i] <= m)
    && (forall x :: 1 <= x <= m ==> x in s)
  }

  /** Every agent ranks the alternatives 1..m, each once: what the positional
      rules assume when they add up `value[j + 1]` for `j` in `range(m)`. */
  predicate WellFormed(p: Profile) {
    forall k :: 0 <= k < |p| ==> IsPermutationOfRange(p[k].ranking, Width(p))
  }

  function Range(m: nat): (r: set<int>)
    ensures forall x :: x in r <==> 1 <= x <= m
  {
    if m == 0 then {} else Range(m - 1) + {m}
  }
}

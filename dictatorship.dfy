/** `dictatorship` of voting.py: the winner is what the chosen agent ranks first. */
module Dictatorship {
  import opened Wrappers
  import opened Ballots

  /** `dictatorship(preferenceProfile, agent)`: the agent's rank-0 alternative. An
      unknown agent (`ValueError`) or an empty list (`IndexError`) is caught and
      printed, and the call returns None. */
  method Dictatorship(preferenceProfile: Profile, agent: int) returns (r: Option<int>)
    ensures r.Some? <==> Lookup(preferenceProfile, agent).Some? && Lookup(preferenceProfile, agent).value != []
    ensures r.Some? ==> r.value == Lookup(preferenceProfile, agent).value[0]
  {
    if Find(preferenceProfile, agent).None? {
      return None;
    }
    var profile: seq<int> := [];
    for k := 0 to |preferenceProfile|
      invariant forall j :: 0 <= j < k && preferenceProfile[j].agent == agent ==>
        profile == Lookup(preferenceProfile, agent).value
    {
      if preferenceProfile[k].agent == agent {
        profile := preferenceProfile[k].ranking;
      }
    }
    ghost var k :| 0 <= k < |preferenceProfile| && preferenceProfile[k].agent == agent;
    if profile == [] {
      return None;
    }
    r := Some(profile[0]);
  }
}

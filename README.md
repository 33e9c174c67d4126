# Voting rules over preference profiles

A Dafny model of `voting.py`, a small set of social-choice rules. A *preference
profile* maps each agent to its ranked list of alternatives (rank 0 first). The
rules are:

- `dictatorship`;
- the positional rules: `scoringRule`, `plurality`, `veto` and `borda`;
- the elimination rule `STV`;
- `rangeVoting`, which sums raw valuations.

Every rule except `dictatorship` ends the same way. It takes the extreme value of a
tally and filters the alternatives that reach it. When more than one does, it calls
the shared resolver `tiebreaker`. A policy of `'max'` or `'min'` picks the largest or
smallest tied id. An agent key picks the tied alternative that agent ranks earliest.
`generatePreferences` turns a worksheet of valuations into a profile.

## How the model is laid out

- `wrappers.dfy`: `Option` and `Result`.
- `ballots.dfy`: the profile, written as a sequence of `Ballot(agent, ranking)` entries. It keeps the dictionary's insertion order, and agents are distinct. The file also holds the dictionary and list operations the rules use (`keys`, lookup, assignment, `index`, `remove`) and the error kinds.
- `tiebreak.dfy`: `tiebreaker`, and the `max`/`min` built-ins as loops over a set.
- `selection.dfy`: the shared tail of every rule: extreme value, filter, tie-break.
- `positional.dfy`:
  - one positional engine, parameterised by a position-weight scheme, written as the source's two loops;
  - `scoringRule`, `veto` and `borda` as instances of that engine, and `plurality` on its own first-place tally;
  - lemmas showing that Borda and veto are scoring rules with their usual vectors.
- `preferences.dfy`:
  - `generatePreferences` on a worksheet abstracted as rows of `Cell(row, column, value)`;
  - the per-cell re-sort, proved equal to one sort of the whole row.
- `dictatorship.dfy`: `dictatorship`.
- `range_voting.dfy`: `rangeVoting`.
- `stv.dfy`:
  - `STV` on a `PreferenceProfile` object whose lists are struck in place;
  - its round-by-round specification;
  - the lemma that breaking ties against the shrinking lists gives the same result as breaking them against untouched lists.
- `filtering.dfy`: order-preserving filtering of a ranking. It is the tool for that tie-break lemma.
- `scenarios.dfy`: worked elections (Borda, plurality, STV, range voting, the tie-break).

Loops in the source are methods with loop invariants. Most methods are proved equal to a ghost specification function, and the lemmas are stated about those functions. `Dictatorship.Dictatorship`, `TieBreaking.MinOfList`, `Positional.AddAgent` and `Selection.ExtremeFilter` instead state their properties directly. The source raises exceptions, and some rules catch them; these become a `Result` with an `Error` or, where caught, an `Option`.

### Two behaviours of the code worth knowing

The model follows the code in both cases.

- **STV's profile.** `STV` does not work on a private copy. `STVPref = preferences` (voting.py:277) aliases the caller's dictionary, so the caller's lists are shortened, and the tie-break at voting.py:307 reads the shortened lists. The model mutates a `PreferenceProfile` object and breaks ties against its current lists. `Stv.StvTieBreakAliasFree` proves that the result equals the one obtained against the original lists. The reason is that removal keeps the relative order and never removes a tied alternative.
- **Errors.** `dictatorship` and `scoringRule` swallow their errors. They print, then return `None` and `False`, which the model writes as `None`. An unknown tie-break policy leaves `tieWin` unbound, and the model gives `UnknownPolicy`.

## Model

| member | source | states |
|---|---|---|
| TieBreaking.SetMax | voting.py:367 | the largest element of a non-empty set: a member, and no member exceeds it |
| TieBreaking.SetMin | voting.py:369 | the smallest element of a non-empty set: a member, and no member is below it |
| TieBreaking.FirstIn | voting.py:370-374 | the first alternative of a ranking that is tied: it is tied, listed, and every earlier entry is untied |
| TieBreaking.MaxOf | voting.py:367 | the loop over the keys returns the maximum of the set |
| TieBreaking.MinOf | voting.py:369 | the loop over the keys returns the minimum of the set |
| TieBreaking.MinOfList | voting.py:374 | `min` of a non-empty list is one of its entries and no entry is smaller |
| TieBreaking.SmallestIndexIsFirst | voting.py:372-374 | the least of the collected `index` values points at the tied alternative listed first |
| TieBreaking.EarliestRanked | voting.py:370-374 | the agent branch: fails when the agent does not list a tied alternative, or when the tie is empty; otherwise returns the first tied alternative of the agent's ranking |
| TieBreaking.TieBreaker | voting.py:355-375 | `tiebreaker` agrees with the resolver's specification for every policy: 'max', 'min', an agent key, or an unknown policy |
| TieBreaking.ByRankingEarliest | voting.py:370-374 | when the agent lists every tied alternative, the agent policy succeeds with a tied alternative whose index in the agent's list is the smallest |
| TieBreaking.TieBreakContract | voting.py:355-375 | the resolver's result is always tied; 'max' and 'min' give the extreme tied id; it fails exactly for an empty tie, an unknown policy, or an agent missing a tied alternative |
| Selection.WinnersAtMax | voting.py:89-90 | `maxFilter` of a non-empty tally is exactly the keys whose value equals `max(alt.values())` |
| Selection.LosersAtMin | voting.py:299-300 | `minFilter` of a non-empty tally is exactly the keys whose value equals `min(leastFreq.values())` |
| Selection.ExtremeFilter | voting.py:89-90 | `best` is the largest (or smallest) value of a non-empty tally, and `filter` is the non-empty set of keys that reach it |
| Selection.Resolve | voting.py:93-99 | a sole candidate is returned as it is; several go to the tie-break |
| Selection.Decide | voting.py:89-99 | the shared tail: an empty tally fails, otherwise the maximal keys are resolved |
| Selection.PickIsCandidate | voting.py:93-99 | the chosen alternative is a candidate, and a sole candidate is the one chosen |
| Selection.PickSucceeds | voting.py:93-99 | the pick succeeds under 'max', 'min', or an agent key whose list holds every candidate |
| Selection.ElectIsMaximal | voting.py:89-99 | the winner has the largest tally; a unique maximum is returned without a tie-break; a shared one goes to the tie-break with exactly the maximal keys; only an empty tally fails with `EmptyTally` |
| Ballots.Find | voting.py:40-45 | where an agent's entry is, or None exactly when the agent is not a key |
| Ballots.Lookup | voting.py:43-45 | an agent's list, present exactly when the agent is a key, and equal to the list of any entry for that agent |
| Ballots.Assign | voting.py:27 | dictionary assignment: one key more at most, that key maps to the new list, no other key changes |
| Ballots.IndexOf | voting.py:373 | `list.index`: an index holding the value, with no earlier occurrence |
| Ballots.RemoveFirst | voting.py:314 | `list.remove`: the list without its first occurrence of the value |
| Ballots.Range | voting.py:84 | the alternative ids 1..m that the tally loops address |
| Positional.WeightsShape | voting.py:74-79 | after `b` positions, the per-agent dictionary has exactly the first `b` alternatives as keys, each with the weight of its position |
| Positional.AssignWeights | voting.py:74-79 | one dictionary per agent, mapping each ranked alternative to the weight of its rank |
| Positional.AddAgent | voting.py:83-88 | adding one agent's dictionary keeps the keys 1..m and adds the weight of each alternative's rank to its running total |
| Positional.SumWeights | voting.py:82-88 | the summing loop yields, per alternative, the total weight over all agents |
| Positional.Tally | voting.py:74-88 | both loops together compute the tally specification |
| Positional.SortDescending | voting.py:71 | `sorted(..., reverse=True)`: non-increasing and a permutation of the input |
| Positional.SortDescendingSorted | voting.py:71 | sorting an already non-increasing vector leaves it unchanged |
| Positional.ElectTalliesMaximal | voting.py:89-100 | a positional winner is an alternative 1..m whose total is at least every alternative's total |
| Positional.ScoringRule | voting.py:65-103 | no agent 1 or a length mismatch gives None (the source's `False`); otherwise it is the elected maximum for the sorted vector, or None when the tie-break raises; a winner's total is maximal |
| Positional.Veto | voting.py:150-181 | the elected maximum of the veto tally, and the winner's points are maximal |
| Positional.Borda | voting.py:194-222 | the elected maximum of the Borda tally, and the winner's score is maximal |
| Positional.FirstPlaceTally | voting.py:117-124 | the tally counts, for each alternative ranked first by some agent, how many agents rank it first; empty lists take no part |
| Positional.Plurality | voting.py:117-136 | the elected maximum of the first-place tally; the winner is ranked first by some agent and by at least as many agents as any other alternative |
| Positional.PluralityMaximal | voting.py:125-136 | the plurality winner is a first choice with the largest first-place count of all alternatives |
| Positional.BordaIsScoringRule | voting.py:196-201 | Borda's tally equals the scoring rule's for the vector (m-1, ..., 0) |
| Positional.VetoIsScoringRule | voting.py:152-160 | veto's tally equals the scoring rule's for the vector (1, ..., 1, 0) |
| Positional.VetoScoreCountsNotLast | voting.py:152-169 | an alternative's veto points are the number of agents that do not rank it last |
| Preferences.InsertRanked | voting.py:24 | inserting into a ranked list keeps it ranked, one longer, with the new key added |
| Preferences.SortByScore | voting.py:24-25 | the keys sorted by score descending, with equal scores ordered by id descending; same keys, same length |
| Preferences.RowKeysShape | voting.py:19-23 | the row's dictionary has each cell's column once, and no other key |
| Preferences.RowRankingRanks | voting.py:19-25 | an agent's list is its row's columns, each once, ordered by score and then by id, both descending |
| Preferences.RankingUnique | voting.py:24-25 | two lists ranked by the same scores with the same elements are equal, so the sort order does not depend on insertion order |
| Preferences.RankRow | voting.py:19-25 | after re-sorting at every cell, the row's list equals one sort of the whole row; the agent is the last cell's row, or the previous agent for a row without cells |
| Preferences.GeneratePreferences | voting.py:11-28 | the loop over rows builds the profile the row-by-row specification gives |
| Preferences.DeriveFailsOnlyForAgent | voting.py:14-27 | the only error is the missing agent |
| Preferences.DeriveFailsIffFirstRowEmpty | voting.py:14-27 | the construction fails exactly when the first row has no cells |
| Preferences.DerivedListsAreRowRankings | voting.py:14-27 | every agent's list in the result is the ranking of the last row after which that agent is the one held, since `dicts[agent] = agentSel` overwrites |
| Preferences.RowAgentsAreKeys | voting.py:14-27 | conversely, the agent held after each row is a key of the result |
| Dictatorship.Dictatorship | voting.py:39-51 | the agent's rank-0 alternative exactly when the agent is a key and its list is non-empty; otherwise None |
| RangeVoting.ColumnTotals | voting.py:331-340 | `maxSum` maps each column of the sheet to the sum of its cells' values |
| RangeVoting.RangeVoting | voting.py:330-353 | `rangeVoting` agrees with its specification; a profile is derived only on a tie |
| RangeVoting.RangeWinnerMaximal | voting.py:341-352 | the winner is a column of the sheet whose total is at least every column's total |
| RangeVoting.RangeEmptySheet | voting.py:341 | `max` raises on an empty tally exactly when the sheet has no cells |
| RangeVoting.MaxColumnsAreWinners | voting.py:341-342 | `maxScore` is exactly the set of columns of largest total |
| RangeVoting.RangeTieSet | voting.py:341-352 | a tie goes to the tie-break with exactly the columns of largest total, against the derived profile; a unique maximum is returned as it is |
| Stv.WidthIsCommon | voting.py:279-283 | every agent's list has the length of agent 1's |
| Stv.RemoveAll | voting.py:312-314 | each agent's list loses the first occurrence of the struck alternative and becomes one shorter; the set of agents is unchanged |
| Stv.PreferenceProfile.constructor | voting.py:277 | the object holds the caller's profile |
| Stv.PreferenceProfile.RemoveEverywhere | voting.py:312-314 | the loop over agents 1..n strikes the alternative from every list, in place |
| Stv.RemoveFirstShape | voting.py:314 | removing a listed alternative from a repetition-free list leaves it repetition-free, one shorter, with exactly the other elements |
| Stv.RemoveKeepsUniform | voting.py:312-314 | after a strike every agent still ranks the same alternatives, each once, and the lists are one shorter |
| Stv.LeastFrequencies | voting.py:293-298 | `leastFreq` maps every remaining alternative to its first-place count, 0 when it is never first |
| Stv.ListedIsCommon | voting.py:293-298 | the keys of `leastFreq` are exactly the alternatives left in agent 1's list |
| Stv.EliminatedIsLeastFrequent | voting.py:286-310 | the struck alternative is in every list, and no remaining alternative is first for fewer agents |
| Stv.Round | voting.py:282-314 | one round: choose the alternative to strike; on success it is struck from every list; on failure nothing changes |
| Stv.StvUnfold | voting.py:279-317 | a round that fails ends the run with that error; one that strikes `w` continues from the struck lists |
| Stv.STV | voting.py:277-317 | the final result and lists are the run's specification, and the result equals the run in which ties use the original lists |
| Stv.AliasedRunAgrees | voting.py:303-314 | breaking ties against any profile that, on the remaining alternatives, ranks as the current one does gives the same run |
| Stv.StvTieBreakAliasFree | voting.py:277-307 | breaking ties against the shrinking lists gives the same run as breaking them against the untouched original |
| Stv.SingleLeft | voting.py:315-316 | when one alternative is left, every agent's list is exactly that alternative |
| Stv.StvOutcome | voting.py:279-317 | the run keeps the lists uniform and within the original alternatives; it returns None exactly for empty lists; a winner is an original alternative and is all that is left in every list |
| Stv.StvSucceeds | voting.py:279-317 | under 'max', 'min' or the key of one of its agents, `STV` always succeeds; with alternatives listed it returns one of them and every list is left holding that winner alone |
| Stv.EliminateSucceeds | voting.py:281-309 | under such a policy every round finds an alternative to strike |
| Filtering.RemoveFiltered | voting.py:314 | striking a kept alternative from a filtered list equals filtering with it dropped from the kept set |
| Filtering.FirstInFiltered | voting.py:370-374 | the first tied alternative is the same in a ranking and in its restriction to any superset of the tie |
| Filtering.ByRankingFiltered | voting.py:370-374 | the agent policy gives the same result on a ranking and on its restriction to a superset of the tie |
| Filtering.TieBreakRestricted | voting.py:355-375 | the tie-break gives the same result on two profiles that agree on the kept alternatives |
| Filtering.PickRestricted | voting.py:303-309 | the minimum filter's resolution is the same on two such profiles |
| Scenarios.BordaExample | voting.py:194-222 | on {1: [1,2,3], 2: [2,1,3], 3: [1,3,2]} the Borda totals are 5, 3 and 1, and 1 wins |
| Scenarios.PluralityExample | voting.py:117-136 | on the same profile the first-place counts are 1: 2 and 2: 1, and 1 wins |
| Scenarios.RoundOne | voting.py:282-314 | on {1: [1,2,3], 2: [2,3,1], 3: [3,1,2]} with 'min', all three tie at one first place and 1 is struck |
| Scenarios.RoundTwo | voting.py:282-314 | then 3 is first once against 2's twice and is struck |
| Scenarios.StvExample | voting.py:277-317 | STV on that profile with 'min' returns 2 and leaves every list as [2] |
| Scenarios.RangeExample | voting.py:330-353 | with columns 1 and 2 tied at 10 and tie-break 'max', range voting returns 2 |
| Scenarios.TieBreakExample | voting.py:366-369 | the tie {2, 5, 7} gives 7 under 'max' and 2 under 'min' |

## Left out

- `harmonic` (voting.py:224-263) is not part of this model. Its weights `1 / (b + 1)` are floating-point, and ties are found by exact float equality, which exact `real` arithmetic would not reproduce.
- Reading the worksheet (openpyxl's `cell.row`, `cell.column`, `cell.value`) is replaced by a sequence of rows of integer `Cell` triples. Valuations are integers.
- The `print` of a caught exception (voting.py:51, 102) is not modelled; only the returned `None`/`False` is.
- Python's exceptions are collapsed into one `Error` datatype. The kinds are an unknown policy, an unlisted tied alternative, an empty tie, an empty tally and a row without an agent. The model does not distinguish exception classes beyond these.
- The `tieBreak` argument is dynamically typed in the source. The model splits it into a name (`Name("max")`, `Name("min")`, any other string) and an integer agent key.
- Positional.ScoringRule: requires a well-formed profile: every list is a permutation of 1..m, with m the length of the first entry's list. The source does not check this. On some other profiles it still returns a result. On others it raises inside its `try` and returns `False`: a `KeyError` when an alternative is missing from a list (voting.py:86-88), or an `IndexError` when a list is longer than the vector (voting.py:78). None of these profiles is modelled.
- Positional.Veto: has the same requirement. The source never checks it. The summing loop (voting.py:163-169) reads `value[1]` up to `value[len(value)]`, so a shorter partial list still gives a result. For example, on `{1: [1, 2, 3], 2: [2, 1]}` it returns 2. An alternative missing from a list raises `KeyError`. Veto never raises `IndexError`. None of these profiles is modelled.
- Positional.Borda: has the same requirement, for the same reason. On `{1: [1, 2, 3], 2: [2, 1]}` the source reads only `value[1]` and `value[2]` of the second list and ends in a tie. A missing alternative raises `KeyError`. None of these profiles is modelled.
- Positional.Tally: has the same requirement as the three rules above.
- Stv.STV: requires agents 1..n whose lists are equal-length orderings of the same alternatives, each listed once. The source does not check this. It raises `KeyError` when an agent `r + 1` is missing (voting.py:311-314), and `ValueError` when a struck alternative is absent from a list. On some excluded profiles it still returns a result. For example, on `{1: [1, 2], 2: [1, 2, 3]}` with 'min' it strikes 2 and returns 1 (voting.py:315-317). None of these profiles is modelled.
- Stv.STV: one list object shared by several agents (`l = [1, 2]` in `{1: l, 2: l}`) is struck once per agent in the source, and the second `remove` raises `ValueError` (voting.py:311-314). The model treats each list as a separate value, so on that input it returns 1.
- Stv.STV: the profile is a sequence of entries, not a hash map. Struck lists keep their order, and the dictionary's key order plays no part in any result.
- Plurality, veto, borda, STV and range voting let their exceptions propagate. In the model they return `Failure`; nothing is printed or caught.

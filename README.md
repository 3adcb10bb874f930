# Badminton match scheduler — a verified Dafny model

This project models the pairing engine of the match scheduler: the class
`BadmintonSchedulerGraph` in `match_scheduler/match_scheduler.py`. The engine
keeps a roster of players, each active or inactive, and a number of courts.
Round after round it builds matches:

- it shuffles the active players;
- it seats them four at a time as 2-vs-2 doubles matches while courts remain;
- if a court is still free and at least two players are left, it adds one
  1-vs-1 singles match.

Every match played is recorded in an encounter store, which keeps for each
pair of players an opponent counter and a partner counter (how each rises is
spelled out below). From the second round on, the candidate matches are
ordered by a cost computed from those counters. The cost is a weighted count of repeated encounters:

- each past opposition of two players who would face each other again adds 1;
- each past doubles partnership of two players who would be partners again
  adds 4, because the partner counter rose by 2 and the cost reads the pair in
  both orders;
- each past singles match of a player who would play singles again adds 1.

The model has six modules, one file each:

| file | module | what it holds |
|---|---|---|
| `teams.dfy` | `Teams` | players, teams, matches; the players of a round (`Flatten`); distinctness and occurrence counts |
| `encounters.dfy` | `Encounters` | the encounter store as a `map` from an unordered pair to two counters, where a missing pair reads as zero; the update loops as folds; the exact gain of every counter |
| `costs.dfy` | `Costs` | `match_cost` and `teammate_cost` as functions; a stable sort by cost; Python's `[:n]` slice |
| `generation.dfy` | `Generation` | `Deal`, the reference definition of the greedy cut of the shuffled active list, and its properties |
| `roster.dfy` | `Roster` | `list.remove`, moving a player between the lists, Python negative indexing, and the resting players |
| `scheduler.dfy` | `Scheduler` | the class itself |

The class `Scheduler.BadmintonScheduler` has the source's fields:

- `players`, `activePlayers` and `inactivePlayers`, as sequences;
- `courts`;
- `graph`, the encounter map.

Its methods change these fields in place, as the source does, and each method's
new state or result is given exactly, mostly through a function of
`Encounters`, `Costs`, `Generation` or `Roster`. The random shuffle is the
one nondeterministic step. Each generator takes the shuffled order as a
parameter `order`, which must be a permutation of the active list.

The model proves, among other things:

- A round never has more matches than courts, and at most one singles match,
  built last.
- A round's matches take consecutive positions of the shuffle. When the
  active list has no repeated player, no player appears twice in a round.
- The cost ordering never drops a candidate. When the shuffle repeats no
  player, it never changes who rests either: the resting players are exactly
  the unseated tail of the shuffle, whatever the counters say.
- Recording a well-formed match (which every match of a round is when the
  shuffle repeats no player) raises the counters by exact amounts, changes no
  other counter and lowers none:
  - every cross-team pair's opponent counter by one;
  - a doubles pair's partner counter by two, because the nested loop visits
    the undirected edge in both orders;
  - a singles player's self-loop by one.
- Toggling players, and adding a player with a new id, preserve the partition
  of the known players into the active and the inactive list. Adding an id
  that is already known appends it again, as the source does, and the lists
  then no longer partition the players.

## Model

| member | source | states |
|---|---|---|
| Scheduler.BadmintonScheduler.constructor | match_scheduler/match_scheduler.py:13-25 | all players start active, none inactive, no encounter recorded; three courts unless another number is given; the lists balance the known players, and partition them when those are distinct |
| Scheduler.BadmintonScheduler.GenerateInitialMatches | match_scheduler/match_scheduler.py:27-48 | the active list becomes the given permutation and stays balanced with the inactive list; the round is exactly `Deal(order, courts)`; with distinct players the resting players are the unseated tail of the shuffle |
| Scheduler.BadmintonScheduler.FindNewMatches | match_scheduler/match_scheduler.py:101-123 | the round is the stable cost-sort of `Deal(order, courts)`: a permutation of the candidates, non-decreasing in `MatchCost`, at most `courts` long; with distinct players the resting players are the unseated tail of the shuffle |
| Scheduler.BadmintonScheduler.UpdateGraphWithMatches | match_scheduler/match_scheduler.py:50-62 | the new store is the fold `RecordMatches` of the old store over the matches, each match recording both teams' partners and then the opponents |
| Scheduler.BadmintonScheduler.AddTeammateEdges | match_scheduler/match_scheduler.py:64-85 | the new store is `RecordTeammates` of the old: the self-loop for a singles team, every ordered pair of distinct members otherwise |
| Scheduler.BadmintonScheduler.AddOpponentEdges | match_scheduler/match_scheduler.py:87-99 | the new store is `RecordOpponents` of the old: every (team 1 member, team 2 member) pair in loop order |
| Scheduler.BadmintonScheduler.CostOfMatch | match_scheduler/match_scheduler.py:125-143 | the accumulated cost equals `MatchCost`: opponent weights over every cross pair that has an edge, plus both teams' costs |
| Scheduler.BadmintonScheduler.CostOfTeam | match_scheduler/match_scheduler.py:145-162 | the accumulated cost equals `TeammateCost`: the self-loop for one player, otherwise every ordered pair of distinct members that has an edge |
| Scheduler.BadmintonScheduler.TogglePlayer | match_scheduler/match_scheduler.py:164-179 | the lists become `Toggle` of the old lists; they stay balanced, and a partition stays a partition |
| Scheduler.BadmintonScheduler.AddPlayer | match_scheduler/match_scheduler.py:181-190 | the player is appended to the known players and to the active list; a fresh id keeps the partition |
| Scheduler.BadmintonScheduler.DropPlayers | match_scheduler/match_scheduler.py:192-200 | the players at the given indices, read before any move and with negative indices counting from the end, are toggled one after the other; balance and partition are kept |
| Scheduler.BadmintonScheduler.RestingPlayers | match_scheduler/match_scheduler.py:202-210 | a player is in the result if and only if they are active and in no team of the round; no repetition when the active list has none; never longer than the active list |
| Scheduler.SortedRoundFits | match_scheduler/match_scheduler.py:122-123 | cutting the sorted candidates to `courts` keeps all of them, and there are at most `courts` of them |
| Scheduler.SortedRoundRests | match_scheduler/match_scheduler.py:122-123 | with distinct players, sorting the candidates by cost does not change who rests: the unseated tail of the shuffle |
| Encounters.Key | match_scheduler/match_scheduler.py:96-97 | an edge is addressed by its unordered pair: the key is normalised (smaller id first) and holds exactly the two players |
| Encounters.AddOpponent | match_scheduler/match_scheduler.py:96-99 | the opponent counter of exactly the pair {a, b} rises by one (a new edge starts at weight 1, teammate weight 0); no partner counter changes |
| Encounters.AddTeammate | match_scheduler/match_scheduler.py:73-76 | the partner counter of exactly the pair {a, b} rises by one (a new edge starts at weight 0, teammate weight 1); no opponent counter changes |
| Encounters.OpponentRowEffect | match_scheduler/match_scheduler.py:95-99 | one player against a team: each opponent counter rises by the number of times its pair is visited; no partner counter changes |
| Encounters.RecordOpponentsEffect | match_scheduler/match_scheduler.py:94-99 | both opponent loops: the counter of {a, b} rises by `OpponentGain`, the product of occurrence counts across the two teams; no partner counter changes |
| Encounters.TeammateRowEffect | match_scheduler/match_scheduler.py:80-85 | one player with a team: each partner counter of a distinct pair rises by the number of times it is visited; no opponent counter changes |
| Encounters.TeammateGridEffect | match_scheduler/match_scheduler.py:79-85 | both partner loops: the counter of distinct {a, b} rises by `Count(a)*Count(b)` taken in both orders; the self-loop never changes |
| Encounters.RecordTeammatesEffect | match_scheduler/match_scheduler.py:64-85 | a team's update raises each partner counter by `TeammateGain`, which is one for a singles self-loop and twice the product of counts for a pair of distinct members; opponent counters stay |
| Encounters.RecordMatchEffect | match_scheduler/match_scheduler.py:56-62 | one match raises every counter by exactly its gain from the two team updates and the opponent update |
| Encounters.OpponentGainWellFormed | match_scheduler/match_scheduler.py:94-99 | in a well-formed match the opponent gain of {a, b} is 1 when they are on opposite sides and 0 otherwise |
| Encounters.TeammateGainWellFormed | match_scheduler/match_scheduler.py:71-85 | in a well-formed match the partner gain is 2 for doubles partners, 1 for a singles player's self-loop, 0 otherwise |
| Encounters.WellFormedMatchEffect | match_scheduler/match_scheduler.py:56-99 | recording a well-formed match: opponent +1 for cross pairs exactly, partner +2 for doubles partners, +1 for a singles self-loop, every other counter unchanged |
| Encounters.RecordRoundEffect | match_scheduler/match_scheduler.py:50-62 | recording a round of well-formed matches raises each opponent counter by the number of its matches in which the pair was opposed, and each partner counter by its partner points |
| Encounters.RecordMatchesMonotone | match_scheduler/match_scheduler.py:50-99 | recording any matches never lowers any counter |
| Encounters.RecordMatchesUntouched | match_scheduler/match_scheduler.py:50-99 | a player in no match of the round keeps every counter of every pair they belong to |
| Costs.TeamCost | match_scheduler/match_scheduler.py:152-161 | a singles team costs its self-loop teammate weight; a doubles team of two distinct players costs twice their pair's teammate weight |
| Costs.OpponentCostPairs | match_scheduler/match_scheduler.py:136-139 | the opponent cost of two doubles teams is the sum of the four cross pairs' opponent weights |
| Costs.WellFormedMatchCost | match_scheduler/match_scheduler.py:132-143 | the cost of a well-formed match written out pair by pair, for doubles and for singles |
| Costs.MatchCostMonotone | match_scheduler/match_scheduler.py:125-143 | when every counter of one store is at least that of another, every match costs at least as much there |
| Costs.RepeatCostRises | match_scheduler/match_scheduler.py:125-143 | after recording a well-formed match, the same match costs exactly 12 more for doubles and 3 more for singles |
| Costs.Insert | match_scheduler/match_scheduler.py:122 | inserting a match into a list adds exactly that match to its multiset |
| Costs.InsertSorted | match_scheduler/match_scheduler.py:122 | inserting into a sorted list by key keeps it sorted |
| Costs.SortBy | match_scheduler/match_scheduler.py:122 | the sort returns a permutation of its input, non-decreasing by key |
| Costs.SortByStable | match_scheduler/match_scheduler.py:122 | the sort is stable: the matches of any one cost keep their relative order |
| Costs.Truncate | match_scheduler/match_scheduler.py:123 | Python's `s[:n]` slice: a prefix of the list, of length `n` capped at the list's length, with a negative `n` counting from the end |
| Costs.TruncateKeepsAll | match_scheduler/match_scheduler.py:123 | cutting to `courts` a permutation of a candidate list that fits the courts leaves it whole |
| Generation.DealCapacity | match_scheduler/match_scheduler.py:38-46 | never more matches than courts; no match when there is no court |
| Generation.DealShape | match_scheduler/match_scheduler.py:38-46 | every match is 2-vs-2 or 1-vs-1, and only the last one can be 1-vs-1 |
| Generation.DealSeatsPrefix | match_scheduler/match_scheduler.py:39-46 | the seated players, match after match, are a prefix of the shuffled order |
| Generation.DealSize | match_scheduler/match_scheduler.py:38-46 | the number of matches and of seated players in closed form, from the number of active players and of courts |
| Generation.DealGreedy | match_scheduler/match_scheduler.py:38-46 | while a court is left free, at most one active player is left out |
| Generation.DealNoRepeats | match_scheduler/match_scheduler.py:39-46 | with distinct players, no player appears twice in a round and every match is well formed |
| Generation.RestingAfterDeal | match_scheduler/match_scheduler.py:209-210 | with distinct players, the players left out of the round are exactly the unseated tail of the shuffle, in order |
| Generation.ThirteenAndFourteenOnThreeCourts | tests/test_rest.py:14-31 | with 13 or 14 players on 3 courts a round is three doubles matches seating 12, so one or two players rest |
| Roster.RemoveFirst | match_scheduler/match_scheduler.py:172 | `list.remove`: for a present id, the multiset loses exactly one copy and the first occurrence is the one cut out; an absent id leaves the list as it is |
| Roster.Toggle | match_scheduler/match_scheduler.py:170-179 | an active id leaves the active list and is appended to the inactive one; an inactive id is the reverse; an unknown id changes nothing; the union is kept |
| Roster.PartitionMeaning | match_scheduler/match_scheduler.py:20-22 | a partition means: no list repeats a player, no player is both active and inactive, and the lists hold exactly the known players |
| Roster.ToggleTwice | match_scheduler/match_scheduler.py:170-179 | toggling keeps the partition, and toggling the same id twice restores both lists' contents |
| Roster.ToggleAllPartition | match_scheduler/match_scheduler.py:198-200 | any sequence of toggles keeps the partition |
| Roster.AddPlayerPartition | match_scheduler/match_scheduler.py:187-188 | appending a fresh id to the known players and to the active list keeps the partition |
| Roster.PyIndex | match_scheduler/match_scheduler.py:198 | Python indexing: a negative index counts from the end, and the position is in range |
| Roster.Pick | match_scheduler/match_scheduler.py:198 | the players at the given indices, one per index, in the order of the indices |
| Roster.WithoutMeaning | match_scheduler/match_scheduler.py:210 | the comprehension `Without`: an element is kept if and only if it is outside the excluded set; no repetition is introduced; never longer than the input |
| Roster.WithoutSingle | match_scheduler/match_scheduler.py:210 | the comprehension decides each element on its own: a single element is kept exactly when it is not excluded |
| Roster.WithoutAppend | match_scheduler/match_scheduler.py:210 | the comprehension is an order-preserving filter: filtering a concatenation is concatenating the filtered parts, so the kept elements keep their order and their repeats |
| Teams.FlattenMembership | match_scheduler/match_scheduler.py:209 | a player appears in the round if and only if they are in the lineup of one of its matches |
| Teams.MatchedSetReorder | match_scheduler/match_scheduler.py:209 | reordering the matches of a round does not change the set of players who play |

## Left out

- The console loop `prompt_player_actions` and `main` (match_scheduler/match_scheduler.py:221-273), and `print_current_status` (match_scheduler/match_scheduler.py:212-218): input and output only.
- The `print` calls inside `toggle_player` and `add_player`: output only.
- `main.py` is process start-up and a logging wrapper. `setup_logging`, which it imports, is not part of this model.
- `random.shuffle` is not modelled as a random generator. Each generator takes the shuffled order as a parameter that must be a permutation of the active list. The shuffle happens in place, and the model assigns the permutation to the field.
- The graph library's nodes (`add_nodes_from` in the constructor, `add_node` in `add_player`) are not modelled. They never affect a counter, and a pair without an edge reads as zero on both counters.
- The library sort `list.sort(key=...)` is modelled by a stable insertion sort on values, `Costs.SortBy`. It is keyed by the cost function `Costs.MatchCost`, which `CostOfMatch` is proved to compute.
- Aliasing: the source stores the caller's `players` list itself, so `add_player` also appends to the caller's list. The model keeps the sequence by value.
- Scheduler.BadmintonScheduler.DropPlayers: an index out of Python's range makes the source raise `IndexError` before anything moves. The model requires every index to be in range instead of modelling the exception.
- Scheduler.BadmintonScheduler.RestingPlayers: its own contract states membership, absence of repetition and length, but not the order of the result. The order (the unseated tail of the shuffle) is stated by the generators' postconditions and by `Generation.RestingAfterDeal`, for an active list without repeated players.
- The rest-distribution assertions of tests/test_rest.py, "no player rests more than once" and "player 14 never rests", are not proved. Who rests depends only on the random shuffle: `Scheduler.SortedRoundRests` shows the cost ordering has no influence on it.

/** The round-by-round pairing engine: the roster lists, the court count and
    the encounter store, with the operations that change them in place. */
module Scheduler {
  import opened Teams
  import opened Encounters
  import opened Costs
  import opened Roster
  import opened Generation

  /** Ordering a round by cost never changes who rests: still the unseated
      suffix of the shuffle. */
  lemma SortedRoundRests(key: Match -> nat, order: seq<Player>, courts: int)
    requires NoDuplicates(order)
    ensures Without(order, MatchedSet(SortBy(key, Deal(order, courts)))) == order[Seated(|order|, courts)..]
  {
    MatchedSetReorder(SortBy(key, Deal(order, courts)), Deal(order, courts));
    RestingAfterDeal(order, courts);
  }

  /** Cutting a sorted round to the number of courts keeps every match, since a
      round never holds more matches than courts. */
  lemma SortedRoundFits(key: Match -> nat, order: seq<Player>, courts: int)
    ensures Truncate(SortBy(key, Deal(order, courts)), courts) == SortBy(key, Deal(order, courts))
    ensures courts >= 0 ==> |SortBy(key, Deal(order, courts))| <= courts
  {
    var sorted := SortBy(key, Deal(order, courts));
    DealCapacity(order, courts);
    TruncateKeepsAll(sorted, Deal(order, courts), courts);
    assert |sorted| == |multiset(sorted)| == |multiset(Deal(order, courts))| == |Deal(order, courts)|;
  }

  class BadmintonScheduler {
    var players: seq<Player>
    var activePlayers: seq<Player>
    var inactivePlayers: seq<Player>
    const courts: int
    var graph: Graph

    /** Every known player is counted once across the two lists. */
    ghost predicate Valid()
      reads this
    {
      multiset(activePlayers) + multiset(inactivePlayers) == multiset(players)
    }

    /** With distinct known players, the lists partition them. */
    ghost predicate Partitioned()
      reads this
    {
      Partition(players, Lists(activePlayers, inactivePlayers))
    }

    /** All players start active; no encounters are recorded yet. Three courts
        unless told otherwise. */
    constructor (players: seq<Player>, courts: int := 3)
      ensures this.players == players && activePlayers == players && inactivePlayers == []
      ensures this.courts == courts && graph == map[]
      ensures Valid()
      ensures NoDuplicates(players) ==> Partitioned()
    {
      this.players := players;
      activePlayers := players;
      inactivePlayers := [];
      this.courts := courts;
      graph := map[];
    }

    /** First round: `order` stands for the shuffle of the active list. The
        candidates are used as they are. */
    method GenerateInitialMatches(order: seq<Player>) returns (matches: seq<Match>)
      requires Valid()
      requires multiset(order) == multiset(activePlayers)
      modifies this`activePlayers
      ensures Valid()
      ensures activePlayers == order
      ensures matches == Deal(order, courts)
      ensures NoDuplicates(order) ==> RestingPlayers(matches) == order[Seated(|order|, courts)..]
    {
      activePlayers := order;
      assert Valid();
      matches := [];
      var i := 0;
      while i + 3 < |activePlayers| && |matches| < courts
        invariant activePlayers == order
        invariant i == 4 * |matches| <= |order|
        invariant DealtUpTo(order, courts, i, matches)
      {
        var pair1 := activePlayers[i..i + 2];
        var pair2 := activePlayers[i + 2..i + 4];
        DealStep(order, i, courts, matches, Match(pair1, pair2));
        matches := matches + [Match(pair1, pair2)];
        i := i + 4;
      }
      DealTail(order, i, courts, matches);
      if |matches| < courts && |activePlayers| - i >= 2 {
        matches := matches + [Match([activePlayers[i]], [activePlayers[i + 1]])];
      }
      if NoDuplicates(order) {
        RestingAfterDeal(order, courts);
      }
    }

    /** Later rounds: `order` stands for the shuffle of the active list. The
        candidates are sorted by cost (stably) and cut to the number of courts,
        which keeps all of them. */
    method FindNewMatches(order: seq<Player>) returns (matches: seq<Match>)
      requires Valid()
      requires multiset(order) == multiset(activePlayers)
      modifies this`activePlayers
      ensures Valid()
      ensures activePlayers == order
      ensures matches == SortBy(CostKey(graph), Deal(order, courts))
      ensures multiset(matches) == multiset(Deal(order, courts))
      ensures SortedBy(CostKey(graph), matches)
      ensures courts >= 0 ==> |matches| <= courts
      ensures NoDuplicates(order) ==> RestingPlayers(matches) == order[Seated(|order|, courts)..]
    {
      activePlayers := order;
      assert Valid();
      var candidates := [];
      var i := 0;
      while i + 3 < |activePlayers| && |candidates| < courts
        invariant activePlayers == order
        invariant i == 4 * |candidates| <= |order|
        invariant DealtUpTo(order, courts, i, candidates)
      {
        var pair1 := [activePlayers[i], activePlayers[i + 1]];
        var pair2 := [activePlayers[i + 2], activePlayers[i + 3]];
        DealStep(order, i, courts, candidates, Match(pair1, pair2));
        candidates := candidates + [Match(pair1, pair2)];
        i := i + 4;
      }
      DealTail(order, i, courts, candidates);
      if |candidates| < courts && |activePlayers| - i >= 2 {
        candidates := candidates + [Match([activePlayers[i]], [activePlayers[i + 1]])];
      }
      assert candidates == Deal(order, courts);
      var sorted := SortBy(CostKey(graph), candidates);
      SortedRoundFits(CostKey(graph), order, courts);
      matches := Truncate(sorted, courts);
      if NoDuplicates(order) {
        SortedRoundRests(CostKey(graph), order, courts);
      }
    }

    /** Records one round: for each match, both teams' partners and then the
        opponents. */
    method UpdateGraphWithMatches(matches: seq<Match>)
      modifies this`graph
      ensures graph == RecordMatches(old(graph), matches)
    {
      for k := 0 to |matches|
        invariant graph == RecordMatches(old(graph), matches[..k])
      {
        var m := matches[k];
        AddTeammateEdges(m.team1);
        AddTeammateEdges(m.team2);
        AddOpponentEdges(m.team1, m.team2);
        assert matches[..k + 1][..k] == matches[..k];
      }
      assert matches[..|matches|] == matches;
    }

    method AddTeammateEdges(team: Team)
      modifies this`graph
      ensures graph == RecordTeammates(old(graph), team)
    {
      if |team| == 1 {
        var player := team[0];
        graph := AddTeammate(graph, player, player);
      } else {
        for i := 0 to |team|
          invariant graph == TeammateGrid(old(graph), team[..i], team)
        {
          var p1 := team[i];
          for j := 0 to |team|
            invariant graph == TeammateRow(TeammateGrid(old(graph), team[..i], team), p1, team[..j])
          {
            var p2 := team[j];
            if p1 != p2 {
              graph := AddTeammate(graph, p1, p2);
            }
            assert team[..j + 1][..j] == team[..j];
          }
          assert team[..|team|] == team;
          assert team[..i + 1][..i] == team[..i];
        }
        assert team[..|team|] == team;
      }
    }

    method AddOpponentEdges(pair1: Team, pair2: Team)
      modifies this`graph
      ensures graph == RecordOpponents(old(graph), pair1, pair2)
    {
      for i := 0 to |pair1|
        invariant graph == RecordOpponents(old(graph), pair1[..i], pair2)
      {
        var p1 := pair1[i];
        for j := 0 to |pair2|
          invariant graph == OpponentRow(RecordOpponents(old(graph), pair1[..i], pair2), p1, pair2[..j])
        {
          graph := AddOpponent(graph, p1, pair2[j]);
          assert pair2[..j + 1][..j] == pair2[..j];
        }
        assert pair2[..|pair2|] == pair2;
        assert pair1[..i + 1][..i] == pair1[..i];
      }
      assert pair1[..|pair1|] == pair1;
    }

    /** The cost of a candidate match under the current counters: the opponent
        weight of every cross pair that has an edge, plus both teams' costs. */
    method CostOfMatch(m: Match) returns (cost: nat)
      ensures cost == MatchCost(graph, m)
    {
      var pair1, pair2 := m.team1, m.team2;
      cost := 0;
      for i := 0 to |pair1|
        invariant cost + OpponentCost(graph, pair1[i..], pair2) == OpponentCost(graph, pair1, pair2)
      {
        var p1 := pair1[i];
        assert pair1[i..][1..] == pair1[i + 1..];
        for j := 0 to |pair2|
          invariant cost + OpponentRowCost(graph, p1, pair2[j..]) + OpponentCost(graph, pair1[i + 1..], pair2) ==
            OpponentCost(graph, pair1, pair2)
        {
          var p2 := pair2[j];
          assert pair2[j..][1..] == pair2[j + 1..];
          if Key(p1, p2) in graph {
            cost := cost + graph[Key(p1, p2)].opponent;
          }
        }
      }
      var cost1 := CostOfTeam(pair1);
      var cost2 := CostOfTeam(pair2);
      cost := cost + cost1 + cost2;
    }

    /** The cost of a team: a singles player's self-loop teammate weight, or
        the teammate weight of every ordered pair of distinct members that has
        an edge. */
    method CostOfTeam(team: Team) returns (cost: nat)
      ensures cost == TeammateCost(graph, team)
    {
      cost := 0;
      if |team| == 1 {
        var player := team[0];
        if Key(player, player) in graph {
          cost := cost + graph[Key(player, player)].teammate;
        }
      } else {
        for i := 0 to |team|
          invariant cost + PartnerCost(graph, team[i..], team) == PartnerCost(graph, team, team)
        {
          var p1 := team[i];
          assert team[i..][1..] == team[i + 1..];
          for j := 0 to |team|
            invariant cost + PartnerRowCost(graph, p1, team[j..]) + PartnerCost(graph, team[i + 1..], team) ==
              PartnerCost(graph, team, team)
          {
            var p2 := team[j];
            assert team[j..][1..] == team[j + 1..];
            if p1 != p2 && Key(p1, p2) in graph {
              cost := cost + graph[Key(p1, p2)].teammate;
            }
          }
        }
      }
    }

    /** Moves an active player to the end of the inactive list, or an inactive
        one to the end of the active list; an unknown id changes nothing. */
    method TogglePlayer(player: Player)
      requires Valid()
      modifies this`activePlayers, this`inactivePlayers
      ensures Valid()
      ensures Lists(activePlayers, inactivePlayers) == Toggle(old(Lists(activePlayers, inactivePlayers)), player)
      ensures old(Partitioned()) ==> Partitioned()
    {
      ghost var before := Lists(activePlayers, inactivePlayers);
      if player in activePlayers {
        activePlayers := RemoveFirst(activePlayers, player);
        inactivePlayers := inactivePlayers + [player];
      } else if player in inactivePlayers {
        inactivePlayers := RemoveFirst(inactivePlayers, player);
        activePlayers := activePlayers + [player];
      }
      assert Lists(activePlayers, inactivePlayers) == Toggle(before, player);
      if old(Partitioned()) {
        ToggleTwice(players, before, player);
      }
    }

    /** Appends a player to the known players and to the active list. */
    method AddPlayer(newPlayer: Player)
      requires Valid()
      modifies this`players, this`activePlayers
      ensures Valid()
      ensures players == old(players) + [newPlayer]
      ensures activePlayers == old(activePlayers) + [newPlayer]
      ensures old(Partitioned()) && newPlayer !in old(players) ==> Partitioned()
    {
      ghost var before := Lists(activePlayers, inactivePlayers);
      ghost var known := players;
      players := players + [newPlayer];
      activePlayers := activePlayers + [newPlayer];
      if old(Partitioned()) && newPlayer !in known {
        AddPlayerPartition(known, before, newPlayer);
      }
    }

    /** Toggles the active players found at the given positions (read before
        any of them moves). */
    method DropPlayers(droppedIndices: seq<int>)
      requires Valid()
      requires forall k :: 0 <= k < |droppedIndices| ==>
        0 <= |activePlayers| + droppedIndices[k] && droppedIndices[k] < |activePlayers|
      modifies this`activePlayers, this`inactivePlayers
      ensures Valid()
      ensures Lists(activePlayers, inactivePlayers) ==
        ToggleAll(old(Lists(activePlayers, inactivePlayers)), Pick(old(activePlayers), droppedIndices))
      ensures old(Partitioned()) ==> Partitioned()
    {
      ghost var before := Lists(activePlayers, inactivePlayers);
      var droppedPlayers := Pick(activePlayers, droppedIndices);
      for k := 0 to |droppedPlayers|
        invariant Valid()
        invariant Lists(activePlayers, inactivePlayers) == ToggleAll(before, droppedPlayers[..k])
        invariant old(Partitioned()) ==> Partitioned()
      {
        ToggleAllStep(before, droppedPlayers, k);
        TogglePlayer(droppedPlayers[k]);
      }
      assert droppedPlayers[..|droppedPlayers|] == droppedPlayers;
    }

    /** The active players in no team of `matches`, in active-list order. */
    function RestingPlayers(matches: seq<Match>): (r: seq<Player>)
      reads this
      ensures forall p :: p in r <==> p in activePlayers && p !in Flatten(matches)
      ensures NoDuplicates(activePlayers) ==> NoDuplicates(r)
      ensures |r| <= |activePlayers|
    {
      WithoutMeaning(activePlayers, MatchedSet(matches));
      Without(activePlayers, MatchedSet(matches))
    }
  }
}

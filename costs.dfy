/** The cost model: how much a candidate match would repeat past encounters,
    and the stable ordering of candidates by that cost. */
module Costs {
  import opened Teams
  import opened Encounters

  /** Opponent weight of `p` against each member of `t`, summed. */
  function OpponentRowCost(g: Graph, p: Player, t: Team): nat
  {
    if t == [] then 0 else Opponent(g, p, t[0]) + OpponentRowCost(g, p, t[1..])
  }

  /** Opponent weight summed over every (member of `t1`, member of `t2`) pair. */
  function OpponentCost(g: Graph, t1: Team, t2: Team): nat
  {
    if t1 == [] then 0 else OpponentRowCost(g, t1[0], t2) + OpponentCost(g, t1[1..], t2)
  }

  /** Teammate weight of `p` with each other member of `t`, summed. */
  function PartnerRowCost(g: Graph, p: Player, t: Team): nat
  {
    if t == [] then 0
    else (if p != t[0] then Teammate(g, p, t[0]) else 0) + PartnerRowCost(g, p, t[1..])
  }

  /** Teammate weight summed over the ordered pairs (p in `ps`, q in `t`), p != q. */
  function PartnerCost(g: Graph, ps: Team, t: Team): nat
  {
    if ps == [] then 0 else PartnerRowCost(g, ps[0], t) + PartnerCost(g, ps[1..], t)
  }

  /** The cost of a team: a singles player's self-loop weight, or the teammate
      weight of every ordered pair of distinct members. */
  function TeammateCost(g: Graph, t: Team): nat
  {
    if |t| == 1 then Teammate(g, t[0], t[0]) else PartnerCost(g, t, t)
  }

  /** The cost of a match: its opponent cost plus both teams' teammate cost. */
  function MatchCost(g: Graph, m: Match): nat
  {
    OpponentCost(g, m.team1, m.team2) + TeammateCost(g, m.team1) + TeammateCost(g, m.team2)
  }

  /** A singles team costs its self-loop; a doubles team visits its partner
      pair in both orders and so costs twice the pair's teammate weight. */
  lemma TeamCost(g: Graph, t: Team)
    requires |t| == 1 || |t| == 2
    ensures |t| == 1 ==> TeammateCost(g, t) == Teammate(g, t[0], t[0])
    ensures |t| == 2 ==> TeammateCost(g, t) == if t[0] != t[1] then 2 * Teammate(g, t[0], t[1]) else 0
  {
    if |t| == 2 {
      var u, v := t[0], t[1];
      assert t == [u, v] && t[1..] == [v] && [v][1..] == [];
      assert PartnerRowCost(g, u, [v]) == (if u != v then Teammate(g, u, v) else 0);
      assert PartnerRowCost(g, v, [v]) == 0;
      assert PartnerRowCost(g, u, t) == (if u != v then Teammate(g, u, v) else 0);
      assert PartnerRowCost(g, v, t) == (if v != u then Teammate(g, v, u) else 0);
      assert Key(v, u) == Key(u, v);
      assert PartnerCost(g, [v], t) == PartnerRowCost(g, v, t);
    }
  }

  lemma OpponentCostPairs(g: Graph, w: Player, x: Player, y: Player, z: Player)
    ensures OpponentCost(g, [w, x], [y, z]) ==
      Opponent(g, w, y) + Opponent(g, w, z) + Opponent(g, x, y) + Opponent(g, x, z)
  {
    assert [w, x][1..] == [x] && [y, z][1..] == [z] && [x][1..] == [] && [z][1..] == [];
    assert OpponentRowCost(g, w, [z]) == Opponent(g, w, z);
    assert OpponentRowCost(g, x, [z]) == Opponent(g, x, z);
    assert OpponentRowCost(g, w, [y, z]) == Opponent(g, w, y) + Opponent(g, w, z);
    assert OpponentRowCost(g, x, [y, z]) == Opponent(g, x, y) + Opponent(g, x, z);
    assert OpponentCost(g, [x], [y, z]) == OpponentRowCost(g, x, [y, z]);
  }

  /** The cost of a match as the generator builds it, written out pair by pair. */
  lemma WellFormedMatchCost(g: Graph, m: Match)
    requires WellFormed(m)
    ensures IsDoubles(m) ==> (MatchCost(g, m) ==
      Opponent(g, m.team1[0], m.team2[0]) + Opponent(g, m.team1[0], m.team2[1]) +
      Opponent(g, m.team1[1], m.team2[0]) + Opponent(g, m.team1[1], m.team2[1]) +
      2 * Teammate(g, m.team1[0], m.team1[1]) + 2 * Teammate(g, m.team2[0], m.team2[1]))
    ensures IsSingles(m) ==> (MatchCost(g, m) ==
      Opponent(g, m.team1[0], m.team2[0]) +
      Teammate(g, m.team1[0], m.team1[0]) + Teammate(g, m.team2[0], m.team2[0]))
  {
    var t1, t2 := m.team1, m.team2;
    TeamCost(g, t1);
    TeamCost(g, t2);
    if IsDoubles(m) {
      assert t1 == [t1[0], t1[1]] && t2 == [t2[0], t2[1]];
      assert Lineup(m)[0] == t1[0] && Lineup(m)[1] == t1[1];
      assert Lineup(m)[2] == t2[0] && Lineup(m)[3] == t2[1];
      OpponentCostPairs(g, t1[0], t1[1], t2[0], t2[1]);
    } else {
      assert t1[1..] == [] && t2[1..] == [];
      assert OpponentRowCost(g, t1[0], t2) == Opponent(g, t1[0], t2[0]);
      assert OpponentCost(g, t1, t2) == OpponentRowCost(g, t1[0], t2);
    }
  }

  lemma {:induction false} OpponentRowCostMonotone(h: Graph, g: Graph, p: Player, t: Team)
    requires Dominates(h, g)
    ensures OpponentRowCost(h, p, t) >= OpponentRowCost(g, p, t)
  {
    if t != [] {
      OpponentRowCostMonotone(h, g, p, t[1..]);
    }
  }

  lemma {:induction false} OpponentCostMonotone(h: Graph, g: Graph, t1: Team, t2: Team)
    requires Dominates(h, g)
    ensures OpponentCost(h, t1, t2) >= OpponentCost(g, t1, t2)
  {
    if t1 != [] {
      OpponentRowCostMonotone(h, g, t1[0], t2);
      OpponentCostMonotone(h, g, t1[1..], t2);
    }
  }

  lemma {:induction false} PartnerRowCostMonotone(h: Graph, g: Graph, p: Player, t: Team)
    requires Dominates(h, g)
    ensures PartnerRowCost(h, p, t) >= PartnerRowCost(g, p, t)
  {
    if t != [] {
      PartnerRowCostMonotone(h, g, p, t[1..]);
    }
  }

  lemma {:induction false} PartnerCostMonotone(h: Graph, g: Graph, ps: Team, t: Team)
    requires Dominates(h, g)
    ensures PartnerCost(h, ps, t) >= PartnerCost(g, ps, t)
  {
    if ps != [] {
      PartnerRowCostMonotone(h, g, ps[0], t);
      PartnerCostMonotone(h, g, ps[1..], t);
    }
  }

  /** Costs only grow as the encounter counters grow. */
  lemma MatchCostMonotone(h: Graph, g: Graph, m: Match)
    requires Dominates(h, g)
    ensures MatchCost(h, m) >= MatchCost(g, m)
  {
    OpponentCostMonotone(h, g, m.team1, m.team2);
    PartnerCostMonotone(h, g, m.team1, m.team1);
    PartnerCostMonotone(h, g, m.team2, m.team2);
  }

  /** Playing a match makes the same match dearer next time: by 12 for doubles
      (four opponent pairs plus two partner pairs counted twice, each raised by
      two) and by 3 for singles (one opponent pair, two self-loops). */
  lemma RepeatCostRises(g: Graph, m: Match)
    requires WellFormed(m)
    ensures MatchCost(RecordMatch(g, m), m) == MatchCost(g, m) + (if IsDoubles(m) then 12 else 3)
  {
    var h := RecordMatch(g, m);
    WellFormedMatchCost(g, m);
    WellFormedMatchCost(h, m);
    var t1, t2 := m.team1, m.team2;
    assert Lineup(m)[0] == t1[0];
    assert |t1| == 2 ==> Lineup(m)[1] == t1[1] && Lineup(m)[2] == t2[0] && Lineup(m)[3] == t2[1];
    assert |t1| == 1 ==> Lineup(m)[1] == t2[0];
    WellFormedMatchEffect(g, m, t1[0], t2[0]);
    WellFormedMatchEffect(g, m, t1[0], t1[0]);
    WellFormedMatchEffect(g, m, t2[0], t2[0]);
    if IsDoubles(m) {
      WellFormedMatchEffect(g, m, t1[0], t2[1]);
      WellFormedMatchEffect(g, m, t1[1], t2[0]);
      WellFormedMatchEffect(g, m, t1[1], t2[1]);
      WellFormedMatchEffect(g, m, t1[0], t1[1]);
      WellFormedMatchEffect(g, m, t2[0], t2[1]);
    }
  }

  // ---------------------------------------------------------------------------
  // Ordering the candidates: `list.sort(key=...)`, a stable ascending sort.
  // ---------------------------------------------------------------------------

  /** The sort key the scheduler passes: the cost of a match in graph `g`. */
  function CostKey(g: Graph): Match -> nat
  {
    m => MatchCost(g, m)
  }

  ghost predicate SortedBy(key: Match -> nat, ms: seq<Match>)
  {
    forall i, j :: 0 <= i < j < |ms| ==> key(ms[i]) <= key(ms[j])
  }

  /** Places `m` before the first element whose key is at least as large. */
  function Insert(key: Match -> nat, m: Match, ms: seq<Match>): (r: seq<Match>)
    ensures multiset(r) == multiset(ms) + multiset{m}
  {
    if ms == [] || key(m) <= key(ms[0]) then [m] + ms
    else
      assert ms == [ms[0]] + ms[1..];
      [ms[0]] + Insert(key, m, ms[1..])
  }

  lemma {:induction false} InsertSorted(key: Match -> nat, m: Match, ms: seq<Match>)
    requires SortedBy(key, ms)
    ensures SortedBy(key, Insert(key, m, ms))
  {
    if ms != [] && key(m) > key(ms[0]) {
      var rest := Insert(key, m, ms[1..]);
      InsertSorted(key, m, ms[1..]);
      assert forall x :: x in rest ==> key(ms[0]) <= key(x) by {
        forall x | x in rest ensures key(ms[0]) <= key(x) {
          assert x in multiset(rest);
          if x != m {
            assert x in multiset(ms[1..]);
            var k :| 0 <= k < |ms[1..]| && ms[1..][k] == x;
            assert ms[k + 1] == x;
          }
        }
      }
      SortedCons(key, ms[0], rest);
    }
  }

  /** A sorted list stays sorted under a new head no larger than any of it. */
  lemma SortedCons(key: Match -> nat, x: Match, rest: seq<Match>)
    requires SortedBy(key, rest)
    requires forall y :: y in rest ==> key(x) <= key(y)
    ensures SortedBy(key, [x] + rest)
  {
    var r := [x] + rest;
    forall i, j | 0 <= i < j < |r| ensures key(r[i]) <= key(r[j]) {
      assert r[j] == rest[j - 1];
      if i > 0 {
        assert r[i] == rest[i - 1];
      }
    }
  }

  /** Insertion sort by `key`: ascending, and a permutation of its input. */
  function SortBy(key: Match -> nat, ms: seq<Match>): (r: seq<Match>)
    ensures multiset(r) == multiset(ms)
    ensures SortedBy(key, r)
  {
    if ms == [] then []
    else
      assert ms == [ms[0]] + ms[1..];
      var rest := SortBy(key, ms[1..]);
      InsertSorted(key, ms[0], rest);
      Insert(key, ms[0], rest)
  }

  /** The elements of `ms` whose key is `c`, in their order. */
  function WithKey(key: Match -> nat, ms: seq<Match>, c: nat): seq<Match>
  {
    if ms == [] then []
    else (if key(ms[0]) == c then [ms[0]] else []) + WithKey(key, ms[1..], c)
  }

  lemma {:induction false} InsertWithKey(key: Match -> nat, m: Match, ms: seq<Match>, c: nat)
    ensures WithKey(key, Insert(key, m, ms), c) == (if key(m) == c then [m] else []) + WithKey(key, ms, c)
  {
    if ms == [] || key(m) <= key(ms[0]) {
      assert ([m] + ms)[1..] == ms;
    } else {
      var rest := Insert(key, m, ms[1..]);
      InsertWithKey(key, m, ms[1..], c);
      assert Insert(key, m, ms) == [ms[0]] + rest;
      assert ([ms[0]] + rest)[1..] == rest;
    }
  }

  /** Stability: the elements of any one key keep their relative order. */
  lemma {:induction false} SortByStable(key: Match -> nat, ms: seq<Match>, c: nat)
    ensures WithKey(key, SortBy(key, ms), c) == WithKey(key, ms, c)
  {
    if ms != [] {
      SortByStable(key, ms[1..], c);
      InsertWithKey(key, ms[0], SortBy(key, ms[1..]), c);
    }
  }

  /** Python's prefix slice `s[:n]`: a negative `n` counts from the end. */
  function Truncate(s: seq<Match>, n: int): (r: seq<Match>)
    ensures r <= s
    ensures 0 <= n ==> |r| == if n < |s| then n else |s|
    ensures n < 0 ==> |r| == if |s| + n < 0 then 0 else |s| + n
  {
    if 0 <= n then (if n < |s| then s[..n] else s)
    else if |s| + n < 0 then []
    else s[..|s| + n]
  }

  /** Cutting the sorted candidates to the number of courts keeps them all,
      since there are never more candidates than courts. */
  lemma TruncateKeepsAll(sorted: seq<Match>, candidates: seq<Match>, courts: int)
    requires multiset(sorted) == multiset(candidates)
    requires courts <= 0 ==> candidates == []
    requires courts >= 0 ==> |candidates| <= courts
    ensures Truncate(sorted, courts) == sorted
  {
    assert |sorted| == |multiset(sorted)| == |multiset(candidates)| == |candidates|;
  }
}

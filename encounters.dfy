/** The encounter store: for every unordered pair of players, how often the two
    have been opponents and how often partners. A pair of a player with itself
    carries, in its partner counter, the number of singles matches played.
    A pair without an entry reads as zero on both counters. */
module Encounters {
  import opened Teams

  /** An unordered pair of players, stored with the smaller identifier first. */
  datatype Pair = Pair(lo: Player, hi: Player)

  function Key(a: Player, b: Player): (k: Pair)
    ensures k.lo <= k.hi
    ensures (k.lo == a && k.hi == b) || (k.lo == b && k.hi == a)
  {
    if a <= b then Pair(a, b) else Pair(b, a)
  }

  /** The two counters of one edge: `opponent` is the edge's `weight`,
      `teammate` its `teammate_weight`. */
  datatype Weights = Weights(opponent: nat, teammate: nat)

  type Graph = map<Pair, Weights>

  /** Times `a` and `b` have been on opposite sides; zero when no edge exists. */
  function Opponent(g: Graph, a: Player, b: Player): nat
  {
    if Key(a, b) in g then g[Key(a, b)].opponent else 0
  }

  /** Times `a` and `b` have been partners (for `a == b`: singles played). */
  function Teammate(g: Graph, a: Player, b: Player): nat
  {
    if Key(a, b) in g then g[Key(a, b)].teammate else 0
  }

  /** Every counter of `h` is at least the matching counter of `g`. */
  ghost predicate Dominates(h: Graph, g: Graph)
  {
    forall a, b :: Opponent(h, a, b) >= Opponent(g, a, b) && Teammate(h, a, b) >= Teammate(g, a, b)
  }

  lemma KeyMatch(a: Player, b: Player, x: Player, y: Player)
    ensures Key(a, b) == Key(x, y) <==> (a == x && b == y) || (a == y && b == x)
  {
  }

  /** One increment of an edge's `weight`; a missing edge is created with
      `weight` 1 and `teammate_weight` 0. */
  function AddOpponent(g: Graph, a: Player, b: Player): (h: Graph)
    ensures forall x, y :: Opponent(h, x, y) == Opponent(g, x, y) + (if Key(x, y) == Key(a, b) then 1 else 0)
    ensures forall x, y :: Teammate(h, x, y) == Teammate(g, x, y)
  {
    var k := Key(a, b);
    if k in g then g[k := Weights(g[k].opponent + 1, g[k].teammate)]
    else g[k := Weights(1, 0)]
  }

  /** One increment of an edge's `teammate_weight`; a missing edge is created
      with `weight` 0 and `teammate_weight` 1. */
  function AddTeammate(g: Graph, a: Player, b: Player): (h: Graph)
    ensures forall x, y :: Teammate(h, x, y) == Teammate(g, x, y) + (if Key(x, y) == Key(a, b) then 1 else 0)
    ensures forall x, y :: Opponent(h, x, y) == Opponent(g, x, y)
  {
    var k := Key(a, b);
    if k in g then g[k := Weights(g[k].opponent, g[k].teammate + 1)]
    else g[k := Weights(0, 1)]
  }

  // ---------------------------------------------------------------------------
  // The nested loops of the update, as folds over prefixes (last element last).
  // ---------------------------------------------------------------------------

  /** Inner loop of the opponent update: `p` against every member of `t`. */
  function OpponentRow(g: Graph, p: Player, t: Team): Graph
    decreases |t|
  {
    if t == [] then g else AddOpponent(OpponentRow(g, p, t[..|t| - 1]), p, t[|t| - 1])
  }

  /** Both loops of the opponent update: every member of `ps` against every
      member of `t`. */
  function RecordOpponents(g: Graph, ps: Team, t: Team): Graph
    decreases |ps|
  {
    if ps == [] then g else OpponentRow(RecordOpponents(g, ps[..|ps| - 1], t), ps[|ps| - 1], t)
  }

  /** Inner loop of the partner update: `p` with every other member of `t`. */
  function TeammateRow(g: Graph, p: Player, t: Team): Graph
    decreases |t|
  {
    if t == [] then g
    else
      var g' := TeammateRow(g, p, t[..|t| - 1]);
      if p != t[|t| - 1] then AddTeammate(g', p, t[|t| - 1]) else g'
  }

  /** Both loops of the partner update over the ordered pairs of `ps` and `t`. */
  function TeammateGrid(g: Graph, ps: Team, t: Team): Graph
    decreases |ps|
  {
    if ps == [] then g else TeammateRow(TeammateGrid(g, ps[..|ps| - 1], t), ps[|ps| - 1], t)
  }

  /** The partner update of one team: a singles player's self-loop, or every
      ordered pair of distinct members. */
  function RecordTeammates(g: Graph, t: Team): Graph
  {
    if |t| == 1 then AddTeammate(g, t[0], t[0]) else TeammateGrid(g, t, t)
  }

  /** The whole update for one match: both teams' partners, then the opponents. */
  function RecordMatch(g: Graph, m: Match): Graph
  {
    RecordOpponents(RecordTeammates(RecordTeammates(g, m.team1), m.team2), m.team1, m.team2)
  }

  /** The update for a round, match after match. */
  function RecordMatches(g: Graph, ms: seq<Match>): Graph
    decreases |ms|
  {
    if ms == [] then g else RecordMatch(RecordMatches(g, ms[..|ms| - 1]), ms[|ms| - 1])
  }

  // ---------------------------------------------------------------------------
  // Exact gains, counted by occurrences.
  // ---------------------------------------------------------------------------

  /** How much the opponent counter of {a, b} grows when `t1` meets `t2`. */
  function OpponentGain(t1: Team, t2: Team, a: Player, b: Player): nat
  {
    if a == b then Count(t1, a) * Count(t2, a)
    else Count(t1, a) * Count(t2, b) + Count(t1, b) * Count(t2, a)
  }

  /** How much the partner counter of {a, b} grows when team `t` plays. */
  function TeammateGain(t: Team, a: Player, b: Player): nat
  {
    if |t| == 1 then (if a == t[0] && b == t[0] then 1 else 0)
    else if a == b then 0
    else 2 * Count(t, a) * Count(t, b)
  }

  lemma Distribute(c: nat, d: nat, t: nat)
    ensures (c + d) * t == c * t + d * t
  {
  }

  lemma CountSnoc(t: Team, q: Player, a: Player)
    ensures Count(t + [q], a) == Count(t, a) + (if q == a then 1 else 0)
  {
    assert multiset(t + [q]) == multiset(t) + multiset{q};
  }

  lemma {:induction false} OpponentRowEffect(g: Graph, p: Player, t: Team, a: Player, b: Player)
    ensures Teammate(OpponentRow(g, p, t), a, b) == Teammate(g, a, b)
    ensures Opponent(OpponentRow(g, p, t), a, b) == Opponent(g, a, b) +
      (if a == b then (if p == a then Count(t, a) else 0)
       else (if p == a then Count(t, b) else 0) + (if p == b then Count(t, a) else 0))
  {
    if t != [] {
      var t', q := t[..|t| - 1], t[|t| - 1];
      assert t == t' + [q];
      OpponentRowEffect(g, p, t', a, b);
      CountSnoc(t', q, a);
      CountSnoc(t', q, b);
      KeyMatch(a, b, p, q);
    }
  }

  lemma {:induction false} RecordOpponentsEffect(g: Graph, ps: Team, t: Team, a: Player, b: Player)
    ensures Teammate(RecordOpponents(g, ps, t), a, b) == Teammate(g, a, b)
    ensures Opponent(RecordOpponents(g, ps, t), a, b) == Opponent(g, a, b) + OpponentGain(ps, t, a, b)
  {
    if ps != [] {
      var ps', p := ps[..|ps| - 1], ps[|ps| - 1];
      assert ps == ps' + [p];
      RecordOpponentsEffect(g, ps', t, a, b);
      OpponentRowEffect(RecordOpponents(g, ps', t), p, t, a, b);
      CountSnoc(ps', p, a);
      CountSnoc(ps', p, b);
      var ca, cb, ta, tb := Count(ps', a), Count(ps', b), Count(t, a), Count(t, b);
      var da, db := if p == a then 1 else 0, if p == b then 1 else 0;
      assert Count(ps, a) == ca + da && Count(ps, b) == cb + db;
      Distribute(ca, da, tb);
      Distribute(cb, db, ta);
      Distribute(ca, da, ta);
    }
  }

  lemma {:induction false} TeammateRowEffect(g: Graph, p: Player, t: Team, a: Player, b: Player)
    ensures Opponent(TeammateRow(g, p, t), a, b) == Opponent(g, a, b)
    ensures Teammate(TeammateRow(g, p, t), a, b) == Teammate(g, a, b) +
      (if a == b then 0
       else (if p == a then Count(t, b) else 0) + (if p == b then Count(t, a) else 0))
  {
    if t != [] {
      var t', q := t[..|t| - 1], t[|t| - 1];
      assert t == t' + [q];
      TeammateRowEffect(g, p, t', a, b);
      CountSnoc(t', q, a);
      CountSnoc(t', q, b);
      KeyMatch(a, b, p, q);
    }
  }

  lemma {:induction false} TeammateGridEffect(g: Graph, ps: Team, t: Team, a: Player, b: Player)
    ensures Opponent(TeammateGrid(g, ps, t), a, b) == Opponent(g, a, b)
    ensures Teammate(TeammateGrid(g, ps, t), a, b) == Teammate(g, a, b) +
      (if a == b then 0 else Count(ps, a) * Count(t, b) + Count(ps, b) * Count(t, a))
  {
    if ps != [] {
      var ps', p := ps[..|ps| - 1], ps[|ps| - 1];
      assert ps == ps' + [p];
      TeammateGridEffect(g, ps', t, a, b);
      TeammateRowEffect(TeammateGrid(g, ps', t), p, t, a, b);
      if a != b {
        CountSnoc(ps', p, a);
        CountSnoc(ps', p, b);
        var ca, cb, ta, tb := Count(ps', a), Count(ps', b), Count(t, a), Count(t, b);
        var da, db := if p == a then 1 else 0, if p == b then 1 else 0;
        assert Count(ps, a) == ca + da && Count(ps, b) == cb + db;
        Distribute(ca, da, tb);
        Distribute(cb, db, ta);
      }
    }
  }

  /** The partner update of one team raises {a, b} by exactly its gain: one for
      a singles player's self-loop, two per pair of distinct partners (both
      orders of the nested loop hit the same undirected edge). */
  lemma RecordTeammatesEffect(g: Graph, t: Team, a: Player, b: Player)
    ensures Opponent(RecordTeammates(g, t), a, b) == Opponent(g, a, b)
    ensures Teammate(RecordTeammates(g, t), a, b) == Teammate(g, a, b) + TeammateGain(t, a, b)
  {
    if |t| == 1 {
      KeyMatch(a, b, t[0], t[0]);
    } else {
      TeammateGridEffect(g, t, t, a, b);
    }
  }

  /** One match changes each counter by exactly its gain and nothing else. */
  lemma RecordMatchEffect(g: Graph, m: Match, a: Player, b: Player)
    ensures Opponent(RecordMatch(g, m), a, b) == Opponent(g, a, b) + OpponentGain(m.team1, m.team2, a, b)
    ensures Teammate(RecordMatch(g, m), a, b) ==
      Teammate(g, a, b) + TeammateGain(m.team1, a, b) + TeammateGain(m.team2, a, b)
  {
    var g1 := RecordTeammates(g, m.team1);
    var g2 := RecordTeammates(g1, m.team2);
    RecordTeammatesEffect(g, m.team1, a, b);
    RecordTeammatesEffect(g1, m.team2, a, b);
    RecordOpponentsEffect(g2, m.team1, m.team2, a, b);
  }

  lemma CountPair(x: Player, y: Player, a: Player)
    ensures Count([x, y], a) == (if x == a then 1 else 0) + (if y == a then 1 else 0)
  {
    assert multiset([x, y]) == multiset{x} + multiset{y};
  }

  /** For a match as the generator builds it: every cross-team pair's opponent
      counter rises by exactly one; a doubles pair's partner counter by two; a
      singles player's self-loop by one; every other counter stays put. */
  lemma WellFormedMatchEffect(g: Graph, m: Match, a: Player, b: Player)
    requires WellFormed(m)
    ensures Opponent(RecordMatch(g, m), a, b) == Opponent(g, a, b) + (if Opposed(m, a, b) then 1 else 0)
    ensures Teammate(RecordMatch(g, m), a, b) == Teammate(g, a, b) +
      (if IsDoubles(m) && Partnered(m, a, b) then 2
       else if IsSingles(m) && a == b && a in Lineup(m) then 1
       else 0)
  {
    RecordMatchEffect(g, m, a, b);
    OpponentGainWellFormed(m, a, b);
    TeammateGainWellFormed(m, a, b);
  }

  /** The four players of a well-formed doubles match are distinct. */
  lemma DoublesDistinct(m: Match)
    requires WellFormed(m) && IsDoubles(m)
    ensures m.team1 == [m.team1[0], m.team1[1]] && m.team2 == [m.team2[0], m.team2[1]]
    ensures m.team1[0] != m.team1[1] && m.team2[0] != m.team2[1]
    ensures m.team1[0] != m.team2[0] && m.team1[0] != m.team2[1]
    ensures m.team1[1] != m.team2[0] && m.team1[1] != m.team2[1]
  {
    assert Lineup(m)[0] == m.team1[0] && Lineup(m)[1] == m.team1[1];
    assert Lineup(m)[2] == m.team2[0] && Lineup(m)[3] == m.team2[1];
  }

  /** The two players of a well-formed singles match are distinct. */
  lemma SinglesDistinct(m: Match)
    requires WellFormed(m) && IsSingles(m)
    ensures m.team1 == [m.team1[0]] && m.team2 == [m.team2[0]] && m.team1[0] != m.team2[0]
    ensures Lineup(m) == [m.team1[0], m.team2[0]]
  {
    assert Lineup(m)[0] == m.team1[0] && Lineup(m)[1] == m.team2[0];
  }

  /** In a well-formed match, the pair {a, b} gains one opponent encounter
      exactly when its players face each other. */
  lemma OpponentGainWellFormed(m: Match, a: Player, b: Player)
    requires WellFormed(m)
    ensures OpponentGain(m.team1, m.team2, a, b) == (if Opposed(m, a, b) then 1 else 0)
  {
    var t1, t2 := m.team1, m.team2;
    if IsDoubles(m) {
      DoublesDistinct(m);
      CountPair(t1[0], t1[1], a);
      CountPair(t1[0], t1[1], b);
      CountPair(t2[0], t2[1], a);
      CountPair(t2[0], t2[1], b);
    } else {
      SinglesDistinct(m);
      assert Count(t1, a) == (if a == t1[0] then 1 else 0);
      assert Count(t2, a) == (if a == t2[0] then 1 else 0);
      assert Count(t1, b) == (if b == t1[0] then 1 else 0);
      assert Count(t2, b) == (if b == t2[0] then 1 else 0);
    }
  }

  /** In a well-formed match, the pair {a, b} gains two partner points when
      they are doubles partners, and a singles player gains one on the
      self-loop; nobody else gains. */
  lemma TeammateGainWellFormed(m: Match, a: Player, b: Player)
    requires WellFormed(m)
    ensures TeammateGain(m.team1, a, b) + TeammateGain(m.team2, a, b) ==
      (if IsDoubles(m) && Partnered(m, a, b) then 2
       else if IsSingles(m) && a == b && a in Lineup(m) then 1
       else 0)
  {
    var t1, t2 := m.team1, m.team2;
    if IsDoubles(m) {
      DoublesDistinct(m);
      CountPair(t1[0], t1[1], a);
      CountPair(t1[0], t1[1], b);
      CountPair(t2[0], t2[1], a);
      CountPair(t2[0], t2[1], b);
    } else {
      SinglesDistinct(m);
    }
  }

  /** Number of matches of a round in which `a` and `b` were opponents. */
  function TimesOpposed(ms: seq<Match>, a: Player, b: Player): nat
    decreases |ms|
  {
    if ms == [] then 0
    else TimesOpposed(ms[..|ms| - 1], a, b) + (if Opposed(ms[|ms| - 1], a, b) then 1 else 0)
  }

  /** What one round of well-formed matches adds to a partner counter: two per
      doubles partnership, one per singles match for the self-loop. */
  function PartnerPoints(ms: seq<Match>, a: Player, b: Player): nat
    decreases |ms|
  {
    if ms == [] then 0
    else
      var m := ms[|ms| - 1];
      PartnerPoints(ms[..|ms| - 1], a, b) +
      (if IsDoubles(m) && Partnered(m, a, b) then 2
       else if IsSingles(m) && a == b && a in Lineup(m) then 1
       else 0)
  }

  /** Updating with a round of well-formed matches raises each opponent counter
      by one per match in which the two were opponents, and each partner
      counter by the partner points of the round. */
  lemma {:induction false} RecordRoundEffect(g: Graph, ms: seq<Match>, a: Player, b: Player)
    requires forall k :: 0 <= k < |ms| ==> WellFormed(ms[k])
    ensures Opponent(RecordMatches(g, ms), a, b) == Opponent(g, a, b) + TimesOpposed(ms, a, b)
    ensures Teammate(RecordMatches(g, ms), a, b) == Teammate(g, a, b) + PartnerPoints(ms, a, b)
  {
    if ms != [] {
      var ms' := ms[..|ms| - 1];
      RecordRoundEffect(g, ms', a, b);
      WellFormedMatchEffect(RecordMatches(g, ms'), ms[|ms| - 1], a, b);
    }
  }

  /** No counter ever decreases, whatever matches are recorded. */
  lemma {:induction false} RecordMatchesMonotone(g: Graph, ms: seq<Match>)
    ensures Dominates(RecordMatches(g, ms), g)
  {
    if ms != [] {
      var ms' := ms[..|ms| - 1];
      RecordMatchesMonotone(g, ms');
      forall a, b
        ensures Opponent(RecordMatches(g, ms), a, b) >= Opponent(g, a, b)
        ensures Teammate(RecordMatches(g, ms), a, b) >= Teammate(g, a, b)
      {
        RecordMatchEffect(RecordMatches(g, ms'), ms[|ms| - 1], a, b);
      }
    }
  }

  /** A player who is in no match of the round keeps all of their counters. */
  lemma {:induction false} RecordMatchesUntouched(g: Graph, ms: seq<Match>, a: Player, b: Player)
    requires a !in Flatten(ms)
    ensures Opponent(RecordMatches(g, ms), a, b) == Opponent(g, a, b)
    ensures Teammate(RecordMatches(g, ms), a, b) == Teammate(g, a, b)
  {
    if ms != [] {
      var ms', m := ms[..|ms| - 1], ms[|ms| - 1];
      FlattenMembership(ms, a);
      FlattenMembership(ms', a);
      assert a !in Flatten(ms') by {
        forall k | 0 <= k < |ms'| ensures a !in Lineup(ms'[k]) {
          assert ms'[k] == ms[k];
        }
      }
      assert a !in Lineup(m);
      RecordMatchesUntouched(g, ms', a, b);
      RecordMatchEffect(RecordMatches(g, ms'), m, a, b);
      assert Count(m.team1, a) == 0 && Count(m.team2, a) == 0;
      if |m.team1| == 1 {
        assert a != m.team1[0];
      }
      if |m.team2| == 1 {
        assert a != m.team2[0];
      }
    }
  }
}

/** Players, teams and matches: the values the scheduler builds in a round and
    hands to the encounter store and the resting computation. */
module Teams {

  /** A player is an opaque integer identifier. */
  type Player = int

  /** One side of a match: one player (singles) or two (doubles). */
  type Team = seq<Player>

  /** Two opposing teams sharing one court for one round. */
  datatype Match = Match(team1: Team, team2: Team)

  /** The 2-vs-2 match the generator builds from four consecutive players. */
  function Doubles(a: Player, b: Player, c: Player, d: Player): Match
  {
    Match([a, b], [c, d])
  }

  /** The 1-vs-1 match the generator builds from two consecutive players. */
  function Singles(a: Player, b: Player): Match
  {
    Match([a], [b])
  }

  predicate IsDoubles(m: Match)
  {
    |m.team1| == 2 && |m.team2| == 2
  }

  predicate IsSingles(m: Match)
  {
    |m.team1| == 1 && |m.team2| == 1
  }

  /** The players of one match, team 1 first. */
  function Lineup(m: Match): seq<Player>
  {
    m.team1 + m.team2
  }

  /** Every player of a round, match after match, in the order they were seated. */
  function Flatten(ms: seq<Match>): seq<Player>
  {
    if ms == [] then [] else Lineup(ms[0]) + Flatten(ms[1..])
  }

  /** The set of players who appear in some team of some match. */
  function MatchedSet(ms: seq<Match>): set<Player>
  {
    set p | p in Flatten(ms)
  }

  predicate NoDuplicates(s: seq<Player>)
  {
    forall i, j :: 0 <= i < j < |s| ==> s[i] != s[j]
  }

  /** How many times `a` occurs in `s`. */
  function Count(s: seq<Player>, a: Player): nat
  {
    multiset(s)[a]
  }

  /** Both sides of one size (one or two) and no player listed twice: what the
      generator builds from a shuffle without repeated ids
      (`Generation.DealNoRepeats`). */
  predicate WellFormed(m: Match)
  {
    (IsDoubles(m) || IsSingles(m)) && NoDuplicates(Lineup(m))
  }

  /** `a` and `b` stand on opposite sides of `m`. */
  predicate Opposed(m: Match, a: Player, b: Player)
  {
    (a in m.team1 && b in m.team2) || (a in m.team2 && b in m.team1)
  }

  /** `a` and `b` are two different players on the same side of `m`. */
  predicate Partnered(m: Match, a: Player, b: Player)
  {
    a != b && ((a in m.team1 && b in m.team1) || (a in m.team2 && b in m.team2))
  }

  /** A sequence without repetitions counts each element at most once, and
      conversely. */
  lemma {:induction false} NoDuplicatesCount(s: seq<Player>)
    ensures NoDuplicates(s) <==> forall a :: Count(s, a) <= 1
  {
    if s != [] {
      NoDuplicatesCount(s[1..]);
      NoDuplicatesCons(s);
      assert s == [s[0]] + s[1..];
      assert multiset(s) == multiset{s[0]} + multiset(s[1..]);
      if NoDuplicates(s) {
        assert s[0] !in multiset(s[1..]);
        forall a ensures Count(s, a) <= 1 {
          assert Count(s, a) == multiset{s[0]}[a] + Count(s[1..], a);
        }
      } else if s[0] in s[1..] {
        assert Count(s, s[0]) == 1 + Count(s[1..], s[0]);
      } else {
        var a :| Count(s[1..], a) > 1;
        assert Count(s, a) >= Count(s[1..], a);
      }
    }
  }

  /** A non-empty sequence has no repetitions exactly when its head does not
      recur and its tail has none. */
  lemma NoDuplicatesCons(s: seq<Player>)
    requires s != []
    ensures NoDuplicates(s) <==> s[0] !in s[1..] && NoDuplicates(s[1..])
  {
    if NoDuplicates(s) {
      forall j | 0 <= j < |s[1..]| ensures s[1..][j] != s[0] {
        assert s[1..][j] == s[j + 1];
      }
      assert s == [s[0]] + (s[1..] + []);
      NoDuplicatesPart([s[0]], s[1..], []);
    }
    if s[0] !in s[1..] && NoDuplicates(s[1..]) {
      forall i, j | 0 <= i < j < |s| ensures s[i] != s[j] {
        assert s[j] == s[1..][j - 1];
        if i > 0 {
          assert s[i] == s[1..][i - 1];
        }
      }
    }
  }

  /** A stretch of a sequence without repetitions has none either. */
  lemma NoDuplicatesPart(a: seq<Player>, b: seq<Player>, c: seq<Player>)
    requires NoDuplicates(a + (b + c))
    ensures NoDuplicates(b)
  {
    forall i, j | 0 <= i < j < |b| ensures b[i] != b[j] {
      assert b[i] == (a + (b + c))[|a| + i] && b[j] == (a + (b + c))[|a| + j];
    }
  }

  /** The players of two stretches of a round, one after the other. */
  lemma {:induction false} FlattenAppend(a: seq<Match>, b: seq<Match>)
    ensures Flatten(a + b) == Flatten(a) + Flatten(b)
  {
    if a == [] {
      assert a + b == b;
    } else {
      calc {
        Flatten(a + b);
      == { assert (a + b)[0] == a[0] && (a + b)[1..] == a[1..] + b; }
        Lineup(a[0]) + Flatten(a[1..] + b);
      == { FlattenAppend(a[1..], b); }
        Lineup(a[0]) + (Flatten(a[1..]) + Flatten(b));
      ==
        (Lineup(a[0]) + Flatten(a[1..])) + Flatten(b);
      }
    }
  }

  lemma {:induction false} FlattenMembership(ms: seq<Match>, p: Player)
    ensures p in Flatten(ms) <==> exists k :: 0 <= k < |ms| && p in Lineup(ms[k])
  {
    if ms != [] {
      FlattenMembership(ms[1..], p);
      if p in Flatten(ms[1..]) {
        var k :| 0 <= k < |ms[1..]| && p in Lineup(ms[1..][k]);
        assert ms[k + 1] == ms[1..][k];
      }
      if exists k :: 0 <= k < |ms| && p in Lineup(ms[k]) {
        var k :| 0 <= k < |ms| && p in Lineup(ms[k]);
        if k > 0 {
          assert ms[1..][k - 1] == ms[k];
        }
      }
    }
  }

  /** Reordering the matches of a round does not change who plays in it. */
  lemma MatchedSetReorder(ms: seq<Match>, ns: seq<Match>)
    requires multiset(ms) == multiset(ns)
    ensures MatchedSet(ms) == MatchedSet(ns)
  {
    forall p | p in Flatten(ms) ensures p in Flatten(ns) {
      InFlattenReorder(ms, ns, p);
    }
    forall p | p in Flatten(ns) ensures p in Flatten(ms) {
      InFlattenReorder(ns, ms, p);
    }
  }

  lemma InFlattenReorder(ms: seq<Match>, ns: seq<Match>, p: Player)
    requires multiset(ms) == multiset(ns)
    requires p in Flatten(ms)
    ensures p in Flatten(ns)
  {
    FlattenMembership(ms, p);
    FlattenMembership(ns, p);
    var k :| 0 <= k < |ms| && p in Lineup(ms[k]);
    assert ms[k] in multiset(ns);
    var j :| 0 <= j < |ns| && ns[j] == ms[k];
  }
}

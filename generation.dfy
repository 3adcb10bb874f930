/** Match generation: the greedy cut of the shuffled active list into doubles
    matches, four players at a time, with at most one singles match after them. */
module Generation {
  import opened Teams
  import opened Roster

  /** Reference definition of one round's candidates: while a court is free and
      at least four players remain, seat the next four as `[p0, p1]` against
      `[p2, p3]`; then, if a court is still free and two or three players
      remain, seat the next two as a singles match. */
  function Deal(order: seq<Player>, courts: int): seq<Match>
    decreases |order|
  {
    if courts <= 0 || |order| < 2 then []
    else if |order| >= 4 then [Doubles(order[0], order[1], order[2], order[3])] + Deal(order[4..], courts - 1)
    else [Singles(order[0], order[1])]
  }

  /** After `done` matches the loop stands at position `i`, and the matches
      still to come are those the reference definition deals from there. */
  ghost predicate DealtUpTo(order: seq<Player>, courts: int, i: nat, done: seq<Match>)
  {
    i <= |order| && done + Deal(order[i..], courts - |done|) == Deal(order, courts)
  }

  /** One turn of the doubles loop at position `i`, after `done` matches: the
      next four players form the next match of the round. */
  lemma DealStep(order: seq<Player>, i: nat, courts: int, done: seq<Match>, m: Match)
    requires i + 3 < |order| && |done| < courts
    requires DealtUpTo(order, courts, i, done)
    requires m == Match([order[i], order[i + 1]], [order[i + 2], order[i + 3]])
    ensures DealtUpTo(order, courts, i + 4, done + [m])
  {
    assert order[i..][4..] == order[i + 4..];
    assert Deal(order[i..], courts - |done|) == [m] + Deal(order[i + 4..], courts - |done| - 1);
    assert (done + [m]) + Deal(order[i + 4..], courts - |done| - 1) ==
      done + ([m] + Deal(order[i + 4..], courts - |done| - 1));
  }

  lemma DealTail(order: seq<Player>, i: nat, courts: int, done: seq<Match>)
    requires i + 3 >= |order| || |done| >= courts
    requires DealtUpTo(order, courts, i, done)
    ensures |done| < courts && |order| - i >= 2 ==> done + [Match([order[i]], [order[i + 1]])] == Deal(order, courts)
    ensures !(|done| < courts && |order| - i >= 2) ==> done == Deal(order, courts)
  {
  }

  /** Number of players a round seats, in closed form. */
  function Seated(n: nat, courts: int): (r: nat)
    ensures r <= n
  {
    if courts <= 0 then 0
    else if n / 4 >= courts then 4 * courts
    else 4 * (n / 4) + (if n % 4 >= 2 then 2 else 0)
  }

  /** Number of matches a round builds, in closed form. */
  function MatchCount(n: nat, courts: int): nat
  {
    if courts <= 0 then 0
    else if n / 4 >= courts then courts
    else n / 4 + (if n % 4 >= 2 then 1 else 0)
  }

  /** Never more matches than courts; no court means no match. */
  lemma {:induction false} DealCapacity(order: seq<Player>, courts: int)
    ensures courts <= 0 ==> Deal(order, courts) == []
    ensures courts >= 0 ==> |Deal(order, courts)| <= courts
  {
    if courts > 0 && |order| >= 4 {
      DealCapacity(order[4..], courts - 1);
    }
  }

  /** Every match is 2-vs-2 or 1-vs-1, and only the last one built can be
      1-vs-1, so a round holds at most one singles match. */
  lemma {:induction false} DealShape(order: seq<Player>, courts: int)
    ensures forall k :: 0 <= k < |Deal(order, courts)| ==>
      IsDoubles(Deal(order, courts)[k]) || IsSingles(Deal(order, courts)[k])
    ensures forall k :: 0 <= k < |Deal(order, courts)| - 1 ==> IsDoubles(Deal(order, courts)[k])
  {
    if courts > 0 && |order| >= 4 {
      var rest := Deal(order[4..], courts - 1);
      DealShape(order[4..], courts - 1);
      assert forall k :: 0 < k < |Deal(order, courts)| ==> Deal(order, courts)[k] == rest[k - 1];
    }
  }

  /** The seated players are a prefix of the shuffled order, taken in order:
      each match takes the next consecutive positions. */
  lemma {:induction false} DealSeatsPrefix(order: seq<Player>, courts: int)
    ensures Flatten(Deal(order, courts)) <= order
  {
    var r := Deal(order, courts);
    if courts > 0 && |order| >= 4 {
      DealSeatsPrefix(order[4..], courts - 1);
      assert r[1..] == Deal(order[4..], courts - 1);
      assert Lineup(r[0]) == order[..4];
      assert order == order[..4] + order[4..];
    } else if courts > 0 && |order| >= 2 {
      assert r[1..] == [];
      assert Lineup(r[0]) == order[..2];
      assert order == order[..2] + order[2..];
    }
  }

  /** The size of a round in closed form: how many matches and how many seated
      players. */
  lemma {:induction false} DealSize(order: seq<Player>, courts: int)
    ensures |Deal(order, courts)| == MatchCount(|order|, courts)
    ensures |Flatten(Deal(order, courts))| == Seated(|order|, courts)
  {
    var n := |order|;
    var r := Deal(order, courts);
    if courts > 0 && n >= 4 {
      DealSize(order[4..], courts - 1);
      assert r[1..] == Deal(order[4..], courts - 1);
      assert (n - 4) / 4 == n / 4 - 1 && (n - 4) % 4 == n % 4;
    } else if courts > 0 && n >= 2 {
      assert r[1..] == [];
    }
  }

  /** Greed: while a court is left free, at most one active player is left out. */
  lemma DealGreedy(order: seq<Player>, courts: int)
    requires |Deal(order, courts)| < courts
    ensures |order| - |Flatten(Deal(order, courts))| <= 1
  {
    DealSize(order, courts);
  }

  /** With a shuffle of distinct players, no player appears twice in a round and
      every match is well formed. */
  lemma DealNoRepeats(order: seq<Player>, courts: int)
    requires NoDuplicates(order)
    ensures NoDuplicates(Flatten(Deal(order, courts)))
    ensures forall k :: 0 <= k < |Deal(order, courts)| ==> WellFormed(Deal(order, courts)[k])
  {
    var r := Deal(order, courts);
    var f := Flatten(r);
    DealSeatsPrefix(order, courts);
    DealShape(order, courts);
    assert order == [] + (f + order[|f|..]);
    NoDuplicatesPart([], f, order[|f|..]);
    forall k | 0 <= k < |r| ensures WellFormed(r[k]) {
      FlattenSlice(r, k);
      NoDuplicatesPart(Flatten(r[..k]), Lineup(r[k]), Flatten(r[k + 1..]));
    }
  }

  /** A match sits inside the round's lineup at the position after the matches
      before it. */
  lemma FlattenSlice(ms: seq<Match>, k: nat)
    requires k < |ms|
    ensures Flatten(ms) == Flatten(ms[..k]) + (Lineup(ms[k]) + Flatten(ms[k + 1..]))
  {
    calc {
      Flatten(ms);
    == { assert ms == ms[..k] + ms[k..]; }
      Flatten(ms[..k] + ms[k..]);
    == { FlattenAppend(ms[..k], ms[k..]); }
      Flatten(ms[..k]) + Flatten(ms[k..]);
    == { assert ms[k..][0] == ms[k] && ms[k..][1..] == ms[k + 1..]; }
      Flatten(ms[..k]) + (Lineup(ms[k]) + Flatten(ms[k + 1..]));
    }
  }

  /** With a shuffle of distinct players, those left out of the round are
      exactly the unseated suffix of the shuffle, in order. */
  lemma RestingAfterDeal(order: seq<Player>, courts: int)
    requires NoDuplicates(order)
    ensures Without(order, MatchedSet(Deal(order, courts))) == order[Seated(|order|, courts)..]
  {
    var f := Flatten(Deal(order, courts));
    DealSeatsPrefix(order, courts);
    DealSize(order, courts);
    assert f == order[..|f|];
    forall i | 0 <= i < |f| ensures order[i] in MatchedSet(Deal(order, courts)) {
      assert order[i] == f[i];
    }
    forall i | |f| <= i < |order| ensures order[i] !in MatchedSet(Deal(order, courts)) {
    }
    WithoutPrefix(order, |f|, MatchedSet(Deal(order, courts)));
  }

  /** The session of the test suite: 13 players on 3 courts play three doubles
      matches and leave exactly one player resting; with a 14th player, two. */
  lemma ThirteenAndFourteenOnThreeCourts(order: seq<Player>)
    requires |order| == 13 || |order| == 14
    ensures |Deal(order, 3)| == 3
    ensures forall k :: 0 <= k < 3 ==> IsDoubles(Deal(order, 3)[k])
    ensures |Flatten(Deal(order, 3))| == 12
  {
    DealSize(order, 3);
    DealShape(order, 3);
    var r := Deal(order, 3);
    assert IsDoubles(r[2]) by {
      assert r == [r[0]] + Deal(order[4..], 2);
      assert Deal(order[4..], 2) == [r[1]] + Deal(order[8..], 1);
      assert |order[8..]| >= 4;
    }
  }
}

/** Roster bookkeeping: the active and inactive lists, moving a player between
    them, and the players left out of a round. */
module Roster {
  import opened Teams

  /** The active and the inactive list, in their current order. */
  datatype Lists = Lists(active: seq<Player>, inactive: seq<Player>)

  /** Every known player sits in exactly one of the two lists, once. */
  ghost predicate Partition(players: seq<Player>, l: Lists)
  {
    NoDuplicates(players) && multiset(l.active) + multiset(l.inactive) == multiset(players)
  }

  /** Position of the first occurrence of `x`. */
  function FirstIndex(s: seq<Player>, x: Player): (i: nat)
    requires x in s
    ensures i < |s| && s[i] == x && x !in s[..i]
  {
    if s[0] == x then 0
    else
      var i := FirstIndex(s[1..], x);
      assert s[1..][..i] == s[1..i + 1];
      assert s[..i + 1] == [s[0]] + s[1..][..i];
      1 + i
  }

  /** Python's `list.remove`: drops the first occurrence of `x`, keeping the
      order of the rest; a list without `x` is returned as it is. */
  function RemoveFirst(s: seq<Player>, x: Player): (r: seq<Player>)
    ensures x in s ==> multiset(r) + multiset{x} == multiset(s)
    ensures x !in s ==> r == s
    ensures x in s ==> exists i :: 0 <= i < |s| && s[i] == x && x !in s[..i] && r == s[..i] + s[i + 1..]
  {
    if x in s then
      var i := FirstIndex(s, x);
      assert s == s[..i] + [x] + s[i + 1..];
      s[..i] + s[i + 1..]
    else
      s
  }

  /** Toggling a player: an active player goes to the end of the inactive list,
      an inactive one to the end of the active list, an unknown id changes
      nothing. */
  function Toggle(l: Lists, p: Player): (r: Lists)
    ensures multiset(r.active) + multiset(r.inactive) == multiset(l.active) + multiset(l.inactive)
    ensures p in l.active ==>
      multiset(r.active) + multiset{p} == multiset(l.active) && r.inactive == l.inactive + [p]
    ensures p !in l.active && p in l.inactive ==>
      r.active == l.active + [p] && multiset(r.inactive) + multiset{p} == multiset(l.inactive)
    ensures p !in l.active && p !in l.inactive ==> r == l
  {
    if p in l.active then
      Lists(RemoveFirst(l.active, p), l.inactive + [p])
    else if p in l.inactive then
      Lists(l.active + [p], RemoveFirst(l.inactive, p))
    else l
  }

  /** Toggling the players of `ps` one after the other. */
  function ToggleAll(l: Lists, ps: seq<Player>): Lists
    decreases |ps|
  {
    if ps == [] then l else Toggle(ToggleAll(l, ps[..|ps| - 1]), ps[|ps| - 1])
  }

  /** One more toggle extends the run of toggles by one. */
  lemma ToggleAllStep(l: Lists, ps: seq<Player>, k: nat)
    requires k < |ps|
    ensures ToggleAll(l, ps[..k + 1]) == Toggle(ToggleAll(l, ps[..k]), ps[k])
  {
    assert ps[..k + 1][..k] == ps[..k];
  }

  /** What the partition means: no list repeats a player, no player is both
      active and inactive, and together the lists hold exactly the known
      players. */
  lemma PartitionMeaning(players: seq<Player>, l: Lists)
    requires Partition(players, l)
    ensures NoDuplicates(l.active) && NoDuplicates(l.inactive)
    ensures forall p :: p in l.active ==> p !in l.inactive
    ensures forall p :: p in players <==> p in l.active || p in l.inactive
  {
    NoDuplicatesCount(players);
    forall a ensures Count(l.active, a) <= 1 && Count(l.inactive, a) <= 1 {
      assert Count(players, a) == Count(l.active, a) + Count(l.inactive, a);
    }
    NoDuplicatesCount(l.active);
    NoDuplicatesCount(l.inactive);
    forall p | p in l.active ensures p !in l.inactive {
      assert Count(players, p) == Count(l.active, p) + Count(l.inactive, p);
      assert p in multiset(l.active);
    }
    forall p ensures p in players <==> p in l.active || p in l.inactive {
      assert p in players <==> p in multiset(players);
      assert p in l.active <==> p in multiset(l.active);
      assert p in l.inactive <==> p in multiset(l.inactive);
    }
  }

  /** Taking the same player out of two equal counts leaves equal counts. */
  lemma Cancel(a: multiset<Player>, b: multiset<Player>, p: Player)
    requires a + multiset{p} == b + multiset{p}
    ensures a == b
  {
    assert forall x :: a[x] == (a + multiset{p})[x] - multiset{p}[x];
  }

  /** Toggling keeps the partition, and toggling a known player twice puts them
      back in the list they started in. */
  lemma ToggleTwice(players: seq<Player>, l: Lists, p: Player)
    requires Partition(players, l)
    ensures Partition(players, Toggle(l, p))
    ensures multiset(Toggle(Toggle(l, p), p).active) == multiset(l.active)
    ensures multiset(Toggle(Toggle(l, p), p).inactive) == multiset(l.inactive)
  {
    var r := Toggle(l, p);
    var r2 := Toggle(r, p);
    NoDuplicatesCount(players);
    assert Count(players, p) == Count(l.active, p) + Count(l.inactive, p) <= 1;
    if p in l.active {
      assert p in multiset(l.active);
      assert p !in multiset(l.inactive);
      assert p !in multiset(r.active);
      assert p !in r.active && p in r.inactive;
      Cancel(multiset(r2.inactive), multiset(l.inactive), p);
    } else if p in l.inactive {
      assert p in multiset(l.inactive);
      assert p !in multiset(r.inactive);
      assert p in r.active;
      Cancel(multiset(r2.active), multiset(l.active), p);
    } else {
      assert r == l && r2 == l;
    }
  }

  /** Any sequence of toggles keeps the partition. */
  lemma {:induction false} ToggleAllPartition(players: seq<Player>, l: Lists, ps: seq<Player>)
    requires Partition(players, l)
    ensures Partition(players, ToggleAll(l, ps))
  {
    if ps != [] {
      ToggleAllPartition(players, l, ps[..|ps| - 1]);
      ToggleTwice(players, ToggleAll(l, ps[..|ps| - 1]), ps[|ps| - 1]);
    }
  }

  /** Adding a fresh player to the session (appended to both the known players
      and the active list) keeps the partition. */
  lemma AddPlayerPartition(players: seq<Player>, l: Lists, p: Player)
    requires Partition(players, l)
    requires p !in players
    ensures Partition(players + [p], Lists(l.active + [p], l.inactive))
  {
    NoDuplicatesCount(players);
    forall a ensures Count(players + [p], a) <= 1 {
      assert multiset(players + [p]) == multiset(players) + multiset{p};
      assert Count(players + [p], a) == Count(players, a) + (if a == p then 1 else 0);
      if a == p {
        assert p !in multiset(players);
      }
    }
    NoDuplicatesCount(players + [p]);
  }

  /** Python indexing into a list of length `n`: a negative index counts from
      the end. */
  function PyIndex(i: int, n: nat): (k: nat)
    requires 0 <= n + i && i < n
    ensures k < n && (k == i || k == n + i)
  {
    if i < 0 then n + i else i
  }

  /** The players at the given indices, in the order of the indices. */
  function Pick(s: seq<Player>, indices: seq<int>): (r: seq<Player>)
    requires forall k :: 0 <= k < |indices| ==> 0 <= |s| + indices[k] && indices[k] < |s|
    ensures |r| == |indices|
    ensures forall k :: 0 <= k < |r| ==> r[k] == s[PyIndex(indices[k], |s|)]
  {
    if indices == [] then []
    else [s[PyIndex(indices[0], |s|)]] + Pick(s, indices[1..])
  }

  /** The elements of `s` outside `excluded`, in their order. */
  function Without(s: seq<Player>, excluded: set<Player>): seq<Player>
  {
    if s == [] then []
    else (if s[0] in excluded then [] else [s[0]]) + Without(s[1..], excluded)
  }

  /** What the filter keeps: exactly the elements outside `excluded`; it
      introduces no repetition and never grows the list. */
  lemma {:induction false} WithoutMeaning(s: seq<Player>, excluded: set<Player>)
    ensures forall p :: p in Without(s, excluded) <==> p in s && p !in excluded
    ensures |Without(s, excluded)| <= |s|
    ensures NoDuplicates(s) ==> NoDuplicates(Without(s, excluded))
  {
    if s != [] {
      var rest := Without(s[1..], excluded);
      WithoutMeaning(s[1..], excluded);
      NoDuplicatesCons(s);
      assert forall p :: p in s <==> p == s[0] || p in s[1..] by {
        assert s == [s[0]] + s[1..];
      }
      if s[0] !in excluded {
        var r := [s[0]] + rest;
        assert r[1..] == rest;
        if NoDuplicates(s) {
          NoDuplicatesCons(r);
        }
      }
    }
  }

  /** One step of the filter: the head is kept exactly when it is not
      excluded. */
  lemma WithoutCons(s: seq<Player>, excluded: set<Player>)
    requires s != []
    ensures Without(s, excluded) == (if s[0] in excluded then [] else [s[0]]) + Without(s[1..], excluded)
  {
  }

  /** A single element is kept exactly when it is not excluded. */
  lemma WithoutSingle(excluded: set<Player>)
    ensures forall x :: Without([x], excluded) == if x in excluded then [] else [x]
  {
    forall x ensures Without([x], excluded) == if x in excluded then [] else [x] {
      WithoutCons([x], excluded);
      assert [x][1..] == [];
    }
  }

  /** `Without` keeps order and repeats: filtering a concatenation is
      concatenating the filtered parts. */
  lemma {:induction false} WithoutAppend(s: seq<Player>, t: seq<Player>, excluded: set<Player>)
    ensures Without(s + t, excluded) == Without(s, excluded) + Without(t, excluded)
  {
    if s == [] {
      assert s + t == t;
    } else {
      var u := s + t;
      assert u[0] == s[0] && u[1..] == s[1..] + t;
      WithoutAppend(s[1..], t, excluded);
      WithoutCons(u, excluded);
      WithoutCons(s, excluded);
      if s[0] in excluded {
        assert Without(u, excluded) == Without(s[1..] + t, excluded);
      } else {
        assert Without(u, excluded) == [s[0]] + (Without(s[1..], excluded) + Without(t, excluded));
      }
    }
  }

  /** When the excluded players are exactly a prefix of a list without
      repetitions, what remains is the rest of the list. */
  lemma {:induction false} WithoutPrefix(s: seq<Player>, k: nat, excluded: set<Player>)
    requires NoDuplicates(s) && k <= |s|
    requires forall i :: 0 <= i < k ==> s[i] in excluded
    requires forall i :: k <= i < |s| ==> s[i] !in excluded
    ensures Without(s, excluded) == s[k..]
  {
    if s != [] {
      NoDuplicatesCons(s);
      var k' := if k == 0 then 0 else k - 1;
      WithoutPrefix(s[1..], k', excluded);
      if k == 0 {
        assert s == [s[0]] + s[1..];
      }
    }
  }
}

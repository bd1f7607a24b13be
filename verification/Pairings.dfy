/** The three pairing generators: src/models/brackets.rs. A pair lists player 1, then player 2. */
module Pairings {
  import opened Wrappers
  import opened Sequences

  type Pair = (int, int)

  datatype PairingError = OddPlayerCount | WrongPairCount(expected: nat, got: nat) | CannotFindPlayer(id: int) | CountOverflow

  function Flatten(pairs: seq<Pair>): seq<int> {
    if pairs == [] then [] else [pairs[0].0, pairs[0].1] + Flatten(pairs[1..])
  }

  /** No player occurs twice, in one pair or in two. */
  ghost predicate Matching(pairs: seq<Pair>) {
    Distinct(Flatten(pairs))
  }

  lemma {:induction false} FlattenAppend(a: seq<Pair>, b: seq<Pair>)
    ensures Flatten(a + b) == Flatten(a) + Flatten(b)
  {
    if a == [] {
      assert a + b == b;
    } else {
      assert (a + b)[1..] == a[1..] + b;
      FlattenAppend(a[1..], b);
    }
  }

  lemma {:induction false} FlattenAt(pairs: seq<Pair>, k: nat)
    requires k < |pairs|
    ensures |Flatten(pairs)| == 2 * |pairs|
    ensures Flatten(pairs)[2 * k] == pairs[k].0 && Flatten(pairs)[2 * k + 1] == pairs[k].1
  {
    if |pairs| == 1 {
      assert pairs[1..] == [];
    } else {
      FlattenAt(pairs[1..], if k == 0 then 0 else k - 1);
    }
  }

  // ----- round robin

  function SortPair(p: Pair): Pair {
    if p.0 < p.1 then p else (p.1, p.0)
  }

  function Product(a: seq<int>, b: seq<int>): seq<Pair> {
    if a == [] then [] else seq(|b|, k requires 0 <= k < |b| => (a[0], b[k])) + Product(a[1..], b)
  }

  function Unequal(pairs: seq<Pair>): seq<Pair> {
    if pairs == [] then []
    else (if pairs[0].0 != pairs[0].1 then [pairs[0]] else []) + Unequal(pairs[1..])
  }

  function SortPairs(pairs: seq<Pair>): seq<Pair> {
    seq(|pairs|, k requires 0 <= k < |pairs| => SortPair(pairs[k]))
  }

  function RoundRobinPairs(players: seq<int>): seq<Pair> {
    Unique(SortPairs(Unequal(Product(players, players))))
  }

  /** The generated pairs, checked against the expected count. With no players the count is
      `0 - 1` in an unsigned type, which aborts the command in a build with overflow checks. */
  function CheckedRoundRobin(players: seq<int>): Result<seq<Pair>, PairingError> {
    if players == [] then Failure(CountOverflow)
    else
      var pairs := RoundRobinPairs(players);
      var expected := |players| * (|players| - 1) / 2;
      if |pairs| != expected then Failure(WrongPairCount(expected, |pairs|)) else Success(pairs)
  }

  lemma {:induction false} ProductMembers(a: seq<int>, b: seq<int>, p: Pair)
    ensures p in Product(a, b) <==> p.0 in a && p.1 in b
  {
    if a != [] {
      ProductMembers(a[1..], b, p);
      var row := seq(|b|, k requires 0 <= k < |b| => (a[0], b[k]));
      if p.0 == a[0] && p.1 in b {
        var k :| 0 <= k < |b| && b[k] == p.1;
        assert row[k] == p;
      }
    }
  }

  lemma {:induction false} UnequalMembers(pairs: seq<Pair>, p: Pair)
    ensures p in Unequal(pairs) <==> p in pairs && p.0 != p.1
  {
    if pairs != [] {
      UnequalMembers(pairs[1..], p);
    }
  }

  /** Every unordered pair of different ids occurs exactly once, lower id first. */
  lemma RoundRobinMembers(players: seq<int>)
    ensures Distinct(RoundRobinPairs(players))
    ensures forall p :: p in RoundRobinPairs(players) <==> p.0 < p.1 && p.0 in players && p.1 in players
  {
    var filtered := Unequal(Product(players, players));
    UniqueMembers(SortPairs(filtered));
    forall p: Pair
      ensures p in SortPairs(filtered) <==> p.0 < p.1 && p.0 in players && p.1 in players
    {
      SortedMembers(players, filtered, p);
    }
  }

  lemma SortedMembers(players: seq<int>, filtered: seq<Pair>, p: Pair)
    requires filtered == Unequal(Product(players, players))
    ensures p in SortPairs(filtered) <==> p.0 < p.1 && p.0 in players && p.1 in players
  {
    forall q: Pair
      ensures q in filtered <==> q.0 != q.1 && q.0 in players && q.1 in players
    {
      ProductMembers(players, players, q);
      UnequalMembers(Product(players, players), q);
    }
    var sorted := SortPairs(filtered);
    if p in filtered && p.0 < p.1 {
      var k :| 0 <= k < |filtered| && filtered[k] == p;
      assert sorted[k] == p;
    }
    if p in sorted {
      var k :| 0 <= k < |sorted| && sorted[k] == p;
      assert filtered[k] in filtered;
    }
  }

  /** The pairs of a list of ids, one row for each id against the ids after it: an independent
      definition, easy to count. */
  function AllPairs(ids: seq<int>): seq<Pair> {
    if ids == [] then [] else Row(ids[0], ids[1..]) + AllPairs(ids[1..])
  }

  function Row(id: int, others: seq<int>): (r: seq<Pair>)
    ensures |r| == |others|
    ensures forall k | 0 <= k < |others| :: r[k] == SortPair((id, others[k]))
  {
    seq(|others|, k requires 0 <= k < |others| => SortPair((id, others[k])))
  }

  lemma RowMembers(id: int, others: seq<int>, p: Pair)
    requires id !in others
    ensures p in Row(id, others) <==> p.0 < p.1 && ((p.0 == id && p.1 in others) || (p.1 == id && p.0 in others))
  {
    var row := Row(id, others);
    if p.0 < p.1 && ((p.0 == id && p.1 in others) || (p.1 == id && p.0 in others)) {
      var other := if p.0 == id then p.1 else p.0;
      var k :| 0 <= k < |others| && others[k] == other;
      assert row[k] == p;
    }
  }

  lemma {:induction false} AllPairsMembers(ids: seq<int>, p: Pair)
    requires Distinct(ids)
    ensures p in AllPairs(ids) <==> p.0 < p.1 && p.0 in ids && p.1 in ids
  {
    if ids != [] {
      RowMembers(ids[0], ids[1..], p);
      AllPairsMembers(ids[1..], p);
      assert ids == [ids[0]] + ids[1..];
    }
  }

  lemma {:induction false} AllPairsDistinct(ids: seq<int>)
    requires Distinct(ids)
    ensures Distinct(AllPairs(ids))
  {
    if ids != [] {
      var row, rest := Row(ids[0], ids[1..]), AllPairs(ids[1..]);
      AllPairsDistinct(ids[1..]);
      forall i, j | 0 <= i < |row| && 0 <= j < |rest|
        ensures row[i] != rest[j]
      {
        assert rest[j] in rest;
        AllPairsMembers(ids[1..], rest[j]);
      }
    }
  }

  lemma {:induction false} AllPairsCount(ids: seq<int>)
    ensures 2 * |AllPairs(ids)| == |ids| * (|ids| - 1)
  {
    if ids != [] {
      AllPairsCount(ids[1..]);
      var n := |ids|;
      assert 2 * |AllPairs(ids)| == 2 * (n - 1) + (n - 1) * (n - 2);
    }
  }

  lemma RoundRobinIsAllPairs(ids: seq<int>)
    requires Distinct(ids)
    ensures multiset(RoundRobinPairs(ids)) == multiset(AllPairs(ids))
    ensures 2 * |RoundRobinPairs(ids)| == |ids| * (|ids| - 1)
  {
    RoundRobinMembers(ids);
    AllPairsDistinct(ids);
    forall p
      ensures p in RoundRobinPairs(ids) <==> p in AllPairs(ids)
    {
      AllPairsMembers(ids, p);
    }
    SameMembersSameMultiset(RoundRobinPairs(ids), AllPairs(ids));
    AllPairsCount(ids);
  }

  /** The number of pairs is that of the distinct entries. */
  lemma RoundRobinCount(players: seq<int>)
    ensures var d := |Unique(players)|; 2 * |RoundRobinPairs(players)| == d * (d - 1)
  {
    var ids := Unique(players);
    UniqueMembers(players);
    RoundRobinMembers(players);
    RoundRobinMembers(ids);
    SameMembersSameMultiset(RoundRobinPairs(players), RoundRobinPairs(ids));
    RoundRobinIsAllPairs(ids);
  }

  lemma MorePairs(d: nat, n: nat)
    requires 1 <= d < n
    ensures d * (d - 1) <= n * (n - 1) - 2
  {
    assert d * (d - 1) <= (n - 1) * (d - 1) <= (n - 1) * (n - 2);
    assert (n - 1) * (n - 2) == (n - 1) * n - 2 * (n - 1);
  }

  lemma Halves(count: nat, expected: int)
    ensures 2 * count == expected ==> expected / 2 == count
    ensures 2 * count <= expected - 2 ==> expected / 2 != count
  {
  }

  /** The count check accepts exactly the entry lists without repetition. */
  lemma RoundRobinAcceptsIffDistinct(players: seq<int>)
    requires players != []
    ensures CheckedRoundRobin(players).Success? <==> Distinct(players)
    ensures CheckedRoundRobin(players).Success? ==> CheckedRoundRobin(players).value == RoundRobinPairs(players)
  {
    var n, d := |players|, |Unique(players)|;
    assert n == d <==> Distinct(players) by {
      UniqueMembers(players);
      if Distinct(players) {
        SameMembersSameMultiset(players, Unique(players));
      }
    }
    assert 1 <= d <= n by {
      UniqueMembers(players);
      assert players[0] in Unique(players);
    }
    var count := |RoundRobinPairs(players)|;
    RoundRobinCount(players);
    Halves(count, n * (n - 1));
    if d < n {
      MorePairs(d, n);
    }
  }

  // ----- Swiss, first round

  function PairOff(shuffled: seq<int>): seq<Pair> {
    var n := |shuffled|;
    if n <= 1 then [] else [(shuffled[n - 1], shuffled[n - 2])] + PairOff(shuffled[..n - 2])
  }

  /** Pops two players at a time from the shuffled list. */
  method PopPairs(shuffled: seq<int>) returns (r: Result<seq<Pair>, PairingError>)
    ensures r.Success? <==> |shuffled| % 2 == 0
    ensures r == if |shuffled| % 2 == 0 then Success(PairOff(shuffled)) else Failure(OddPlayerCount)
  {
    var players := shuffled;
    var pairs := [];
    while |players| > 1
      invariant |players| <= |shuffled| && |players| % 2 == |shuffled| % 2
      invariant pairs + PairOff(players) == PairOff(shuffled)
    {
      ghost var was, done := players, pairs;
      var p1 := players[|players| - 1];
      players := players[..|players| - 1];
      var p2 := players[|players| - 1];
      players := players[..|players| - 1];
      pairs := pairs + [(p1, p2)];
      assert players == was[..|was| - 2];
      assert pairs + PairOff(players) == done + ([(p1, p2)] + PairOff(players)) == done + PairOff(was);
    }
    assert pairs + PairOff(players) == pairs;
    if players != [] {
      return Failure(OddPlayerCount);
    }
    return Success(pairs);
  }

  /** Whatever the shuffle, every entry is paired exactly as often as it was entered, so the round
      is a perfect matching exactly when no entry is repeated. */
  lemma {:induction false} PairOffIsPerfect(shuffled: seq<int>)
    requires |shuffled| % 2 == 0
    ensures multiset(Flatten(PairOff(shuffled))) == multiset(shuffled)
    ensures 2 * |PairOff(shuffled)| == |shuffled|
    ensures Matching(PairOff(shuffled)) <==> Distinct(shuffled)
  {
    PairOffReverses(shuffled);
    PermutationDistinct(Flatten(PairOff(shuffled)), shuffled);
  }

  lemma {:induction false} PairOffReverses(shuffled: seq<int>)
    requires |shuffled| % 2 == 0
    ensures multiset(Flatten(PairOff(shuffled))) == multiset(shuffled)
    ensures 2 * |PairOff(shuffled)| == |shuffled|
  {
    var n := |shuffled|;
    if n > 0 {
      PairOffReverses(shuffled[..n - 2]);
      SplitLastTwo(shuffled);
      FlattenCons((shuffled[n - 1], shuffled[n - 2]), PairOff(shuffled[..n - 2]));
    }
  }

  lemma FlattenCons(p: Pair, pairs: seq<Pair>)
    ensures Flatten([p] + pairs) == [p.0, p.1] + Flatten(pairs)
    ensures multiset(Flatten([p] + pairs)) == multiset{p.0, p.1} + multiset(Flatten(pairs))
  {
    assert ([p] + pairs)[1..] == pairs;
  }

  lemma SplitLastTwo(s: seq<int>)
    requires |s| >= 2
    ensures multiset(s) == multiset{s[|s| - 1], s[|s| - 2]} + multiset(s[..|s| - 2])
  {
    assert s == s[..|s| - 2] + [s[|s| - 2], s[|s| - 1]];
  }

  // ----- Swiss, later rounds

  /** Position `k` of the flattened pairings names a player that is not there to be taken: not
      entered, or already taken. */
  predicate Missing(players: set<int>, ids: seq<int>, k: nat)
    requires k < |ids|
  {
    ids[k] !in players || ids[k] in ids[..k]
  }

  /** The first position at or after `k` whose player cannot be taken. */
  function FirstMissing(players: set<int>, ids: seq<int>, k: nat): (r: Option<nat>)
    requires k <= |ids|
    ensures r.Some? ==> k <= r.value < |ids| && Missing(players, ids, r.value)
    ensures forall i | k <= i < (if r.Some? then r.value else |ids|) :: !Missing(players, ids, i)
    decreases |ids| - k
  {
    if k == |ids| then None else if Missing(players, ids, k) then Some(k) else FirstMissing(players, ids, k + 1)
  }

  /** The round that an answer of the pairing library makes of the entered players. */
  function Taken(players: set<int>, pairings: seq<Pair>): Result<seq<Pair>, PairingError> {
    var ids := Flatten(pairings);
    match FirstMissing(players, ids, 0)
    case Some(k) => Failure(CannotFindPlayer(ids[k]))
    case None => Success(pairings)
  }

  /** Removes both players of every pair from the entered players, and stops at the first one that
      is not there. */
  method TakePairs(entered: set<int>, pairings: seq<Pair>) returns (r: Result<seq<Pair>, PairingError>)
    ensures r == Taken(entered, pairings)
  {
    var players := entered;
    var pairs: seq<Pair> := [];
    ghost var ids := Flatten(pairings);
    for i := 0 to |pairings|
      invariant pairs == pairings[..i]
      invariant |ids| == 2 * |pairings| || i == 0
      invariant 2 * i <= |ids|
      invariant players == entered - (set x | x in ids[..2 * i])
      invariant forall k | 0 <= k < 2 * i :: !Missing(entered, ids, k)
    {
      FlattenAt(pairings, i);
      var (p1, p2) := pairings[i];
      if p1 !in players {
        assert Missing(entered, ids, 2 * i);
        return Failure(CannotFindPlayer(p1));
      }
      players := players - {p1};
      assert ids[..2 * i + 1] == ids[..2 * i] + [p1];
      if p2 !in players {
        assert Missing(entered, ids, 2 * i + 1);
        return Failure(CannotFindPlayer(p2));
      }
      players := players - {p2};
      assert ids[..2 * i + 2] == ids[..2 * i + 1] + [p2];
      pairs := pairs + [(p1, p2)];
    }
    assert pairings[..|pairings|] == pairings;
    assert pairings == [] ==> ids == [];
    return Success(pairs);
  }

  /** Whatever the pairing library answers, a round is made of it exactly when the answer pairs
      entered players, none of them twice. */
  lemma TakenIffMatching(players: set<int>, pairings: seq<Pair>)
    ensures Taken(players, pairings).Success? <==>
      Matching(pairings) && forall p | p in Flatten(pairings) :: p in players
    ensures Taken(players, pairings).Success? ==> Taken(players, pairings).value == pairings
  {
    var ids := Flatten(pairings);
    match FirstMissing(players, ids, 0)
    case None =>
      forall i, j | 0 <= i < j < |ids|
        ensures ids[i] != ids[j]
      {
        assert !Missing(players, ids, j);
        assert ids[i] == ids[..j][i];
      }
      forall p | p in ids
        ensures p in players
      {
        var k :| 0 <= k < |ids| && ids[k] == p;
        assert !Missing(players, ids, k);
      }
    case Some(k) =>
      if ids[k] in ids[..k] {
        var i :| 0 <= i < k && ids[..k][i] == ids[k];
        assert ids[i] == ids[k];
      }
  }
}

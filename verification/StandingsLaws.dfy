/** Laws of the standings: conservation of points, independence of order and sides, and the
    round-robin identity. Every total is a sum over the appearances, so each law is an exchange or a
    reordering of sums. */
module StandingsLaws {
  import opened Results
  import opened Sequences
  import opened Pairings
  import opened Standings

  // ----- conservation

  /** Summing a total over all its owners is summing once over everything owned. */
  lemma {:induction false} SwapSums<X(!new)>(
    xs: seq<X>, apps: seq<Appearance>, owner: Appearance -> X,
    part: X -> Appearance -> int, whole: Appearance -> int, total: X -> int)
    requires Distinct(xs)
    requires forall a | a in apps :: owner(a) in xs
    requires forall x, a :: part(x)(a) == if owner(a) == x then whole(a) else 0
    requires forall x | x in xs :: total(x) == SumBy(apps, part(x))
    ensures SumBy(xs, total) == SumBy(apps, whole)
  {
    if apps == [] {
      SumZero(xs, total);
    } else {
      var first := (x: X) => part(x)(apps[0]);
      var rest := (x: X) => SumBy(apps[1..], part(x));
      SumByAdd(xs, first, rest, total);
      SumIndicator(xs, first, owner(apps[0]), whole(apps[0]));
      SwapSums(xs, apps[1..], owner, part, whole, rest);
    }
  }

  lemma {:induction false} SumZero<X>(xs: seq<X>, f: X -> int)
    requires forall x | x in xs :: f(x) == 0
    ensures SumBy(xs, f) == 0
  {
    if xs != [] {
      SumZero(xs[1..], f);
    }
  }

  lemma RankingIsDistinct(apps: seq<Appearance>, ranked: seq<PlayerInfo>)
    requires IsRanking(apps, ranked)
    ensures Distinct(ranked)
  {
    forall i, j | 0 <= i < j < |ranked|
      ensures ranked[i] != ranked[j]
    {
      assert RanksBefore(ranked[i].ToLine(), ranked[j].ToLine());
    }
  }

  function PointsOf(): PlayerInfo -> int {
    (x: PlayerInfo) => x.points
  }

  function OpponentPointsOf(): PlayerInfo -> int {
    (x: PlayerInfo) => x.opponentPoints
  }

  /** A player's points times the number of races, which is the number of opponents met. */
  function PointsTimesRaces(): PlayerInfo -> int {
    (x: PlayerInfo) => x.points * |x.results|
  }

  function AppearancePoints(): Appearance -> int {
    (a: Appearance) => a.points
  }

  lemma {:induction false} PointsOfAllAppearances(races: seq<CountedRace>)
    ensures SumBy(Appearances(races), AppearancePoints()) == 2 * |races|
  {
    if races != [] {
      var front, last := races[..|races| - 1], races[|races| - 1];
      PointsOfAllAppearances(front);
      SumByAppend(Appearances(front), SidesOf(last), AppearancePoints());
      SumOfSides(last, AppearancePoints());
    }
  }

  lemma SumOfSides(race: CountedRace, f: Appearance -> int)
    ensures SumBy(SidesOf(race), f) == f(SidesOf(race)[0]) + f(SidesOf(race)[1])
  {
    assert SidesOf(race) == [SidesOf(race)[0]] + [SidesOf(race)[1]];
    SumByAppend([SidesOf(race)[0]], [SidesOf(race)[1]], f);
    SumBySingle(SidesOf(race)[0], f);
    SumBySingle(SidesOf(race)[1], f);
  }

  /** The part of a sum over appearances that belongs to one player. */
  function For(id: int, f: Appearance -> int): Appearance -> int {
    (a: Appearance) => if a.player == id then f(a) else 0
  }

  lemma SumOverRanking(apps: seq<Appearance>, ranked: seq<PlayerInfo>, whole: Appearance -> int, total: PlayerInfo -> int)
    requires IsRanking(apps, ranked)
    requires forall x | x in ranked :: total(x) == SumBy(apps, For(x.id, whole))
    ensures SumBy(ranked, total) == SumBy(apps, whole)
  {
    RankingIsDistinct(apps, ranked);
    var owner := (a: Appearance) => InfoFor(apps, a.player);
    var part := (x: PlayerInfo) => (a: Appearance) => if owner(a) == x then whole(a) else 0;
    forall x | x in ranked
      ensures total(x) == SumBy(apps, part(x))
    {
      SumByCongruent(apps, For(x.id, whole), part(x));
    }
    SwapSums(ranked, apps, owner, part, whole, total);
  }

  /** Each race hands out two points. */
  lemma PointsAreConserved(races: seq<CountedRace>, ranked: seq<PlayerInfo>)
    requires IsRanking(Appearances(races), ranked)
    ensures SumBy(ranked, PointsOf()) == 2 * |races|
  {
    var apps := Appearances(races);
    forall x | x in ranked
      ensures x.points == SumBy(apps, For(x.id, AppearancePoints()))
    {
      SumByCongruent(apps, PointsFor(x.id), For(x.id, AppearancePoints()));
    }
    SumOverRanking(apps, ranked, AppearancePoints(), PointsOf());
    PointsOfAllAppearances(races);
  }

  function OwnScore(apps: seq<Appearance>): Appearance -> int {
    (a: Appearance) => Points(apps, a.player)
  }

  function OpponentScore(apps: seq<Appearance>): Appearance -> int {
    (a: Appearance) => Points(apps, a.opponent)
  }

  /** Every meeting is mutual. */
  lemma {:induction false} ScoresAreMutual(races: seq<CountedRace>, all: seq<Appearance>)
    ensures SumBy(Appearances(races), OwnScore(all)) == SumBy(Appearances(races), OpponentScore(all))
  {
    if races != [] {
      var front, last := races[..|races| - 1], races[|races| - 1];
      ScoresAreMutual(front, all);
      SumByAppend(Appearances(front), SidesOf(last), OwnScore(all));
      SumByAppend(Appearances(front), SidesOf(last), OpponentScore(all));
      SumOfSides(last, OwnScore(all));
      SumOfSides(last, OpponentScore(all));
    }
  }

  function OneFor(id: int): Appearance -> int {
    (a: Appearance) => if a.player == id then 1 else 0
  }

  lemma {:induction false} CountRaces(apps: seq<Appearance>, id: int)
    ensures SumBy(apps, OneFor(id)) == |ResultsOf(apps, id)|
  {
    if apps != [] {
      var front, last := apps[..|apps| - 1], apps[|apps| - 1];
      assert apps == front + [last];
      CountRaces(front, id);
      SumByAppend(front, [last], OneFor(id));
      SumBySingle(last, OneFor(id));
    }
  }

  /** Opponent points add up to everyone's points, once for every opponent met. */
  lemma OpponentPointsAreConserved(races: seq<CountedRace>, ranked: seq<PlayerInfo>)
    requires IsRanking(Appearances(races), ranked)
    ensures SumBy(ranked, OpponentPointsOf()) == SumBy(ranked, PointsTimesRaces())
  {
    var apps := Appearances(races);
    forall x | x in ranked
      ensures x.opponentPoints == SumBy(apps, For(x.id, OpponentScore(apps)))
      ensures PointsTimesRaces()(x) == SumBy(apps, For(x.id, OwnScore(apps)))
    {
      SumByCongruent(apps, OpponentPointsFor(apps, x.id), For(x.id, OpponentScore(apps)));
      CountRaces(apps, x.id);
      SumByScale(apps, OneFor(x.id), For(x.id, OwnScore(apps)), x.points);
    }
    SumOverRanking(apps, ranked, OpponentScore(apps), OpponentPointsOf());
    SumOverRanking(apps, ranked, OwnScore(apps), PointsTimesRaces());
    ScoresAreMutual(races, apps);
  }

  // ----- independence of order and of sides

  /** The same race with player 1 and player 2 exchanged. */
  function SwapSides(race: CountedRace): CountedRace {
    CountedRace(race.p2, race.p1, race.r2, race.r1, race.outcome.Flip())
  }

  function SwapSome(races: seq<CountedRace>, swapped: seq<bool>): (r: seq<CountedRace>)
    requires |races| == |swapped|
    ensures |r| == |races|
  {
    if races == [] then []
    else
      var n := |races| - 1;
      SwapSome(races[..n], swapped[..n]) + [if swapped[n] then SwapSides(races[n]) else races[n]]
  }

  lemma SwapKeepsSides(race: CountedRace)
    ensures multiset(SidesOf(SwapSides(race))) == multiset(SidesOf(race))
  {
    var s, t := SidesOf(race), SidesOf(SwapSides(race));
    assert s == [s[0], s[1]] && t == [s[1], s[0]];
  }

  lemma {:induction false} SwapsKeepAppearances(races: seq<CountedRace>, swapped: seq<bool>)
    requires |races| == |swapped|
    ensures multiset(Appearances(SwapSome(races, swapped))) == multiset(Appearances(races))
  {
    if races != [] {
      var n := |races| - 1;
      var after := SwapSome(races, swapped);
      SwapsKeepAppearances(races[..n], swapped[..n]);
      SwapKeepsSides(races[n]);
      assert after[..n] == SwapSome(races[..n], swapped[..n]);
      assert Appearances(after) == Appearances(after[..n]) + SidesOf(after[n]);
    }
  }

  function CountIn(a: Appearance): CountedRace -> int {
    (race: CountedRace) => multiset(SidesOf(race))[a]
  }

  lemma {:induction false} CountAppearances(races: seq<CountedRace>, a: Appearance)
    ensures multiset(Appearances(races))[a] == SumBy(races, CountIn(a))
  {
    if races != [] {
      var front, last := races[..|races| - 1], races[|races| - 1];
      assert races == front + [last];
      CountAppearances(front, a);
      SumByAppend(front, [last], CountIn(a));
      SumBySingle(last, CountIn(a));
    }
  }

  lemma PermutationsKeepAppearances(a: seq<CountedRace>, b: seq<CountedRace>)
    requires multiset(a) == multiset(b)
    ensures multiset(Appearances(a)) == multiset(Appearances(b))
  {
    forall x
      ensures multiset(Appearances(a))[x] == multiset(Appearances(b))[x]
    {
      CountAppearances(a, x);
      CountAppearances(b, x);
      SumByPermutation(a, b, CountIn(x));
    }
  }

  lemma {:induction false} TimeIsSum(apps: seq<Appearance>, id: int)
    ensures SumBy(ResultsOf(apps, id), ResultTime()) == SumBy(apps, TimeFor(id))
  {
    if apps != [] {
      var front, last := apps[..|apps| - 1], apps[|apps| - 1];
      assert apps == front + [last];
      TimeIsSum(front, id);
      SumByAppend(front, [last], TimeFor(id));
      SumBySingle(last, TimeFor(id));
      SumByAppend(ResultsOf(front, id), [last.result], ResultTime());
      SumBySingle(last.result, ResultTime());
      assert ResultsOf(front, id) + [] == ResultsOf(front, id);
    }
  }

  lemma LineDependsOnAppearances(a: seq<Appearance>, b: seq<Appearance>, id: int)
    requires multiset(a) == multiset(b)
    ensures InfoFor(a, id).ToLine() == InfoFor(b, id).ToLine()
  {
    forall i
      ensures Points(a, i) == Points(b, i)
    {
      SumByPermutation(a, b, PointsFor(i));
    }
    SumByCongruent(a, OpponentPointsFor(a, id), OpponentPointsFor(b, id));
    SumByPermutation(a, b, OpponentPointsFor(b, id));
    TimeIsSum(a, id);
    TimeIsSum(b, id);
    SumByPermutation(a, b, TimeFor(id));
  }

  function Lines(ranked: seq<PlayerInfo>): (r: seq<Line>)
    ensures |r| == |ranked|
    ensures forall k | 0 <= k < |ranked| :: r[k] == ranked[k].ToLine()
  {
    seq(|ranked|, k requires 0 <= k < |ranked| => ranked[k].ToLine())
  }

  ghost predicate Ascending(lines: seq<Line>) {
    forall i, j | 0 <= i < j < |lines| :: RanksBefore(lines[i], lines[j])
  }

  /** A strictly ranked list is determined by its members. */
  lemma {:induction false} RankOrderIsUnique(a: seq<Line>, b: seq<Line>)
    requires Ascending(a) && Ascending(b)
    requires forall x :: x in a <==> x in b
    ensures a == b
  {
    if b != [] {
      assert b[0] in a;
    }
    if a != [] {
      assert a[0] in b;
      assert a[0] == b[0];
      forall x
        ensures x in a[1..] <==> x in b[1..]
      {
        assert x in a <==> x == a[0] || x in a[1..];
        assert x in b <==> x == b[0] || x in b[1..];
        assert a[0] !in a[1..] && b[0] !in b[1..];
      }
      RankOrderIsUnique(a[1..], b[1..]);
    }
  }

  lemma LineMembers(apps: seq<Appearance>, ranked: seq<PlayerInfo>, x: Line)
    requires IsRanking(apps, ranked)
    ensures x in Lines(ranked) <==> x.id in PlayersIn(apps) && x == InfoFor(apps, x.id).ToLine()
  {
    if x in Lines(ranked) {
      var k :| 0 <= k < |ranked| && Lines(ranked)[k] == x;
      assert ranked[k] in ranked;
    }
    if x.id in PlayersIn(apps) && x == InfoFor(apps, x.id).ToLine() {
      var k :| 0 <= k < |ranked| && ranked[k] == InfoFor(apps, x.id);
      assert Lines(ranked)[k] == x;
    }
  }

  /** The standings are a function of the multiset of appearances. In particular they do not depend
      on the order in which a hash map gives up its entries: any two rankings of the same races agree. */
  lemma RankingDependsOnAppearances(x: seq<Appearance>, y: seq<Appearance>, rx: seq<PlayerInfo>, ry: seq<PlayerInfo>)
    requires multiset(x) == multiset(y)
    requires IsRanking(x, rx) && IsRanking(y, ry)
    ensures Lines(rx) == Lines(ry)
  {
    PermutationMembers(x, y);
    assert PlayersIn(x) == PlayersIn(y);
    forall l
      ensures l in Lines(rx) <==> l in Lines(ry)
    {
      LineMembers(x, rx, l);
      LineMembers(y, ry, l);
      LineDependsOnAppearances(x, y, l.id);
    }
    RankOrderIsUnique(Lines(rx), Lines(ry));
  }

  /** Neither the order of the races nor the sides the players were listed on matter. */
  lemma RankingIgnoresOrderAndSides(
    a: seq<CountedRace>, swapped: seq<bool>, b: seq<CountedRace>, ra: seq<PlayerInfo>, rb: seq<PlayerInfo>)
    requires |swapped| == |a| && multiset(SwapSome(a, swapped)) == multiset(b)
    requires IsRanking(Appearances(a), ra) && IsRanking(Appearances(b), rb)
    ensures Lines(ra) == Lines(rb)
  {
    SwapsKeepAppearances(a, swapped);
    PermutationsKeepAppearances(SwapSome(a, swapped), b);
    RankingDependsOnAppearances(Appearances(a), Appearances(b), ra, rb);
  }

  /** Exchanging the sides of a race before it is decided exchanges the sides of what is counted. */
  lemma SwappedResultsSwapSides(p1: int, p2: int, r1: PlayerResult, r2: PlayerResult)
    ensures CountedRace(p2, p1, r2, r1, OutcomeOf(r2, r1)) == SwapSides(CountedRace(p1, p2, r1, r2, OutcomeOf(r1, r2)))
  {
    OutcomeFollowsBeats(r1, r2);
  }

  // ----- the round robin

  function PairsOf(races: seq<CountedRace>): seq<Pair> {
    if races == [] then []
    else PairsOf(races[..|races| - 1]) + [(races[|races| - 1].p1, races[|races| - 1].p2)]
  }

  /** What one pair adds to the opponent sum of `id`. */
  function PairPart(id: int, score: int -> int): Pair -> int {
    (p: Pair) => (if p.0 == id then score(p.1) else 0) + (if p.1 == id then score(p.0) else 0)
  }

  function ScoreOf(apps: seq<Appearance>): int -> int {
    (id: int) => Points(apps, id)
  }

  lemma {:induction false} OpponentPointsByPairs(races: seq<CountedRace>, all: seq<Appearance>, id: int)
    ensures SumBy(Appearances(races), OpponentPointsFor(all, id)) == SumBy(PairsOf(races), PairPart(id, ScoreOf(all)))
  {
    if races != [] {
      var front, last := races[..|races| - 1], races[|races| - 1];
      OpponentPointsByPairs(front, all, id);
      SumByAppend(Appearances(front), SidesOf(last), OpponentPointsFor(all, id));
      SumOfSides(last, OpponentPointsFor(all, id));
      SumByAppend(PairsOf(front), [(last.p1, last.p2)], PairPart(id, ScoreOf(all)));
      SumBySingle((last.p1, last.p2), PairPart(id, ScoreOf(all)));
    }
  }

  lemma {:induction false} RowSum(id: int, first: int, others: seq<int>, score: int -> int)
    requires Distinct([first] + others)
    ensures SumBy(Row(first, others), PairPart(id, score)) ==
      if id == first then SumBy(others, score) else if id in others then score(first) else 0
  {
    if others != [] {
      assert Row(first, others)[1..] == Row(first, others[1..]);
      assert ([first] + others)[0] == first && ([first] + others)[1] == others[0];
      assert forall k | 0 <= k < |others| :: others[k] == ([first] + others)[k + 1];
      RowSum(id, first, others[1..], score);
    }
  }

  /** In the list of all pairs every id meets every other id once. */
  lemma {:induction false} AllPairsSum(id: int, ids: seq<int>, score: int -> int)
    requires Distinct(ids)
    ensures SumBy(AllPairs(ids), PairPart(id, score)) == if id in ids then SumBy(ids, score) - score(id) else 0
  {
    if ids != [] {
      assert ids == [ids[0]] + ids[1..];
      AllPairsSum(id, ids[1..], score);
      RowSum(id, ids[0], ids[1..], score);
      SumByAppend(Row(ids[0], ids[1..]), AllPairs(ids[1..]), PairPart(id, score));
    }
  }

  lemma {:induction false} PlayersAreInPairs(races: seq<CountedRace>, ids: seq<int>)
    requires forall p | p in PairsOf(races) :: p.0 in ids && p.1 in ids
    ensures forall a | a in Appearances(races) :: a.player in ids
  {
    if races != [] {
      var front, last := races[..|races| - 1], races[|races| - 1];
      assert (last.p1, last.p2) in PairsOf(races);
      PlayersAreInPairs(front, ids);
    }
  }

  lemma ScoresOfAllIds(races: seq<CountedRace>, ids: seq<int>)
    requires Distinct(ids)
    requires forall a | a in Appearances(races) :: a.player in ids
    ensures SumBy(ids, ScoreOf(Appearances(races))) == 2 * |races|
  {
    var apps := Appearances(races);
    var part := (id: int) => PointsFor(id);
    SwapSums(ids, apps, (a: Appearance) => a.player, part, AppearancePoints(), ScoreOf(apps));
    PointsOfAllAppearances(races);
  }

  lemma {:induction false} PairsAreRanked(races: seq<CountedRace>, p: Pair)
    requires p in PairsOf(races)
    ensures p.0 in PlayersIn(Appearances(races)) && p.1 in PlayersIn(Appearances(races))
  {
    var front, last := races[..|races| - 1], races[|races| - 1];
    if p in PairsOf(front) {
      PairsAreRanked(front, p);
      assert PlayersIn(Appearances(front)) <= PlayersIn(Appearances(races));
    } else {
      assert SidesOf(last)[0] in Appearances(races) && SidesOf(last)[1] in Appearances(races);
    }
  }

  function RankedIds(ranked: seq<PlayerInfo>): seq<int> {
    seq(|ranked|, k requires 0 <= k < |ranked| => ranked[k].id)
  }

  /** Everyone who was paired is ranked, once. */
  lemma RoundRobinRanksAll(races: seq<CountedRace>, ids: seq<int>, ranked: seq<PlayerInfo>)
    requires Distinct(ids) && |ids| >= 2
    requires forall p :: p in PairsOf(races) <==> p.0 < p.1 && p.0 in ids && p.1 in ids
    requires IsRanking(Appearances(races), ranked)
    ensures |ranked| == |ids| && multiset(RankedIds(ranked)) == multiset(ids)
  {
    var apps := Appearances(races);
    PlayersAreInPairs(races, ids);
    forall id | id in ids
      ensures id in PlayersIn(apps)
    {
      var other := if ids[0] == id then ids[1] else ids[0];
      PairsAreRanked(races, SortPair((id, other)));
    }
    var rankedIds := RankedIds(ranked);
    RankingIsDistinct(apps, ranked);
    forall i, j | 0 <= i < j < |ranked|
      ensures rankedIds[i] != rankedIds[j]
    {
      assert ranked[i] in ranked && ranked[j] in ranked;
    }
    forall id
      ensures id in rankedIds <==> id in ids
    {
      if id in rankedIds {
        var k :| 0 <= k < |ranked| && rankedIds[k] == id;
        assert ranked[k] in ranked;
      }
      if id in ids {
        var k :| 0 <= k < |ranked| && ranked[k] == InfoFor(apps, id);
        assert rankedIds[k] == id;
      }
    }
    SameMembersSameMultiset(rankedIds, ids);
  }

  lemma RoundRobinSum(races: seq<CountedRace>, ids: seq<int>, id: int)
    requires Distinct(ids) && id in ids && multiset(PairsOf(races)) == multiset(AllPairs(ids))
    requires forall a | a in Appearances(races) :: a.player in ids
    ensures var apps := Appearances(races); Points(apps, id) + OpponentPoints(apps, id) == 2 * |races|
  {
    var apps := Appearances(races);
    ScoresOfAllIds(races, ids);
    OpponentPointsByPairs(races, apps, id);
    SumByPermutation(PairsOf(races), AllPairs(ids), PairPart(id, ScoreOf(apps)));
    AllPairsSum(id, ids, ScoreOf(apps));
  }

  lemma {:induction false} AsManyPairs(races: seq<CountedRace>)
    ensures |PairsOf(races)| == |races|
  {
    if races != [] {
      AsManyPairs(races[..|races| - 1]);
    }
  }

  lemma NoRacesNoRanking(races: seq<CountedRace>, ranked: seq<PlayerInfo>)
    requires IsRanking(Appearances(races), ranked) && races == []
    ensures ranked == []
  {
    assert forall x :: x in multiset(ranked) <==> x in ranked;
    assert multiset(ranked) == multiset{};
    assert |multiset(ranked)| == |ranked|;
  }

  lemma PairsAreAllPairs(races: seq<CountedRace>, ids: seq<int>)
    requires Distinct(ids) && multiset(PairsOf(races)) == multiset(AllPairs(ids))
    ensures forall p :: p in PairsOf(races) <==> p.0 < p.1 && p.0 in ids && p.1 in ids
  {
    PermutationMembers(PairsOf(races), AllPairs(ids));
    forall p: Pair
      ensures p in AllPairs(ids) <==> p.0 < p.1 && p.0 in ids && p.1 in ids
    {
      AllPairsMembers(ids, p);
    }
  }

  /** With n players there are n(n - 1) / 2 races, and all players are ranked unless there is only
      one, who has no race. */
  lemma RoundRobinSize(races: seq<CountedRace>, ids: seq<int>, ranked: seq<PlayerInfo>)
    requires Distinct(ids) && multiset(PairsOf(races)) == multiset(AllPairs(ids))
    requires IsRanking(Appearances(races), ranked)
    ensures 2 * |races| == |ids| * (|ids| - 1)
    ensures multiset(RankedIds(ranked)) == multiset(if |ids| == 1 then [] else ids)
  {
    AsManyPairs(races);
    AllPairsCount(ids);
    assert |multiset(PairsOf(races))| == |PairsOf(races)| && |multiset(AllPairs(ids))| == |AllPairs(ids)|;
    if |ids| >= 2 {
      PairsAreAllPairs(races, ids);
      RoundRobinRanksAll(races, ids, ranked);
    } else {
      assert |ids| * (|ids| - 1) == 0;
      NoRacesNoRanking(races, ranked);
    }
  }

  /** When everyone has raced everyone once, points and opponent points add up to the same number
      for every player, n(n - 1) for n players: opponent points never break a tie. */
  lemma RoundRobinTotals(races: seq<CountedRace>, ids: seq<int>, ranked: seq<PlayerInfo>)
    requires Distinct(ids) && multiset(PairsOf(races)) == multiset(RoundRobinPairs(ids))
    requires IsRanking(Appearances(races), ranked)
    ensures forall x | x in ranked :: x.points + x.opponentPoints == |ids| * (|ids| - 1)
    ensures multiset(RankedIds(ranked)) == multiset(if |ids| == 1 then [] else ids)
    ensures forall x, y | x in ranked && y in ranked && x.points == y.points :: x.opponentPoints == y.opponentPoints
  {
    RoundRobinIsAllPairs(ids);
    RoundRobinSize(races, ids, ranked);
    PairsAreAllPairs(races, ids);
    PlayersAreInPairs(races, ids);
    forall x | x in ranked
      ensures x.points + x.opponentPoints == 2 * |races|
    {
      assert x.id in PlayersIn(Appearances(races)) && x.id in ids;
      RoundRobinSum(races, ids, x.id);
    }
  }
}

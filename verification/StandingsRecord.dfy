/** What the ranking says of a player, told from the races alone: wins and ties, whom they met, and the
    time they took. */
module StandingsRecord {
  import opened Results
  import opened Sequences
  import opened Standings
  import opened StandingsLaws

  /** Every race has the outcome of its results. */
  predicate Decided(races: seq<CountedRace>) {
    forall race | race in races :: race.outcome == OutcomeOf(race.r1, race.r2)
  }

  ghost function Wins(races: seq<CountedRace>, id: int): nat {
    if races == [] then 0
    else
      var last := races[|races| - 1];
      Wins(races[..|races| - 1], id)
      + (if last.p1 == id && Beats(last.r1, last.r2) then 1 else 0)
      + (if last.p2 == id && Beats(last.r2, last.r1) then 1 else 0)
  }

  ghost function Losses(races: seq<CountedRace>, id: int): nat {
    if races == [] then 0
    else
      var last := races[|races| - 1];
      Losses(races[..|races| - 1], id)
      + (if last.p1 == id && Beats(last.r2, last.r1) then 1 else 0)
      + (if last.p2 == id && Beats(last.r1, last.r2) then 1 else 0)
  }

  function Played(races: seq<CountedRace>, id: int): nat {
    if races == [] then 0
    else
      var last := races[|races| - 1];
      Played(races[..|races| - 1], id) + (if last.p1 == id then 1 else 0) + (if last.p2 == id then 1 else 0)
  }

  /** One point for every race, one more for a win and one less for a loss. */
  ghost function Score(races: seq<CountedRace>, id: int): int {
    Played(races, id) + Wins(races, id) - Losses(races, id)
  }

  /** The scores, in all races, of those whom the player met in `races`. */
  ghost function Strength(all: seq<CountedRace>, races: seq<CountedRace>, id: int): int {
    if races == [] then 0
    else
      var last := races[|races| - 1];
      Strength(all, races[..|races| - 1], id)
      + (if last.p1 == id then Score(all, last.p2) else 0)
      + (if last.p2 == id then Score(all, last.p1) else 0)
  }

  /** A forfeit counts as three hours. */
  function Clocked(r: PlayerResult): int {
    if r.Finish? then r.secs else 10800
  }

  function TimeTaken(races: seq<CountedRace>, id: int): int {
    if races == [] then 0
    else
      var last := races[|races| - 1];
      TimeTaken(races[..|races| - 1], id)
      + (if last.p1 == id then Clocked(last.r1) else 0)
      + (if last.p2 == id then Clocked(last.r2) else 0)
  }

  lemma {:induction false} PointsAreScore(races: seq<CountedRace>, id: int)
    requires Decided(races)
    ensures Points(Appearances(races), id) == Score(races, id)
  {
    if races != [] {
      var front, last := races[..|races| - 1], races[|races| - 1];
      PointsAreScore(front, id);
      SumByAppend(Appearances(front), SidesOf(last), PointsFor(id));
      SumOfSides(last, PointsFor(id));
      OutcomeFollowsBeats(last.r1, last.r2);
    }
  }

  lemma {:induction false} OpponentPointsAreStrength(all: seq<CountedRace>, races: seq<CountedRace>, id: int)
    requires Decided(all)
    ensures SumBy(Appearances(races), OpponentPointsFor(Appearances(all), id)) == Strength(all, races, id)
  {
    if races != [] {
      var front, last := races[..|races| - 1], races[|races| - 1];
      var f := OpponentPointsFor(Appearances(all), id);
      OpponentPointsAreStrength(all, front, id);
      SumByAppend(Appearances(front), SidesOf(last), f);
      SumOfSides(last, f);
      PointsAreScore(all, last.p1);
      PointsAreScore(all, last.p2);
    }
  }

  lemma {:induction false} ResultsAreTimeTaken(races: seq<CountedRace>, id: int)
    ensures SumBy(ResultsOf(Appearances(races), id), ResultTime()) == TimeTaken(races, id)
  {
    if races != [] {
      var front, last := races[..|races| - 1], races[|races| - 1];
      var apps, sides := Appearances(front), SidesOf(last);
      ResultsAreTimeTaken(front, id);
      assert Appearances(races) == apps + [sides[0]] + [sides[1]];
      OneMoreResult(apps, sides[0], id);
      OneMoreResult(apps + [sides[0]], sides[1], id);
    }
  }

  lemma OneMoreResult(apps: seq<Appearance>, a: Appearance, id: int)
    ensures SumBy(ResultsOf(apps + [a], id), ResultTime()) ==
      SumBy(ResultsOf(apps, id), ResultTime()) + if a.player == id then Clocked(a.result) else 0
  {
    assert (apps + [a])[..|apps|] == apps;
    if a.player == id {
      SumByAppend(ResultsOf(apps, id), [a.result], ResultTime());
      SumBySingle(a.result, ResultTime());
    } else {
      assert ResultsOf(apps, id) + [] == ResultsOf(apps, id);
    }
  }

  predicate RacedIn(races: seq<CountedRace>, id: int) {
    exists race | race in races :: race.p1 == id || race.p2 == id
  }

  lemma {:induction false} PlayersRaced(races: seq<CountedRace>, id: int)
    ensures id in PlayersIn(Appearances(races)) <==> RacedIn(races, id)
  {
    if races != [] {
      var front, last := races[..|races| - 1], races[|races| - 1];
      PlayersRaced(front, id);
      assert races == front + [last];
      assert SidesOf(last)[0] in Appearances(races) && SidesOf(last)[1] in Appearances(races);
      assert forall a | a in Appearances(front) :: a in Appearances(races);
    }
  }

  /** The player's key for the ranking: most points first, then the strongest opponents, then the least
      time, then the lowest id. */
  ghost function RecordKey(races: seq<CountedRace>, id: int): seq<int> {
    [-Score(races, id), -Strength(races, races, id), TimeTaken(races, id), id]
  }

  lemma LineIsRecord(races: seq<CountedRace>, id: int)
    requires Decided(races)
    ensures SortKey(InfoFor(Appearances(races), id).ToLine()) == RecordKey(races, id)
  {
    PointsAreScore(races, id);
    OpponentPointsAreStrength(races, races, id);
    ResultsAreTimeTaken(races, id);
  }

  /** The ranking lists exactly those who raced, each with the points, opponent points and time that the
      races give, in strict order of these. */
  ghost predicate RankedByRecord(races: seq<CountedRace>, ranked: seq<PlayerInfo>) {
    && (forall id :: (exists x | x in ranked :: x.id == id) <==> RacedIn(races, id))
    && (forall x | x in ranked ::
          && x.points == Score(races, x.id) && x.opponentPoints == Strength(races, races, x.id)
          && x.TimeAdjusted() == TimeTaken(races, x.id))
    && (forall i, j | 0 <= i < j < |ranked| :: LexLess(RecordKey(races, ranked[i].id), RecordKey(races, ranked[j].id)))
  }

  lemma RankingFollowsRecord(races: seq<CountedRace>, ranked: seq<PlayerInfo>)
    requires Decided(races) && IsRanking(Appearances(races), ranked)
    ensures RankedByRecord(races, ranked)
  {
    var apps := Appearances(races);
    forall id
      ensures (exists x | x in ranked :: x.id == id) <==> RacedIn(races, id)
    {
      PlayersRaced(races, id);
    }
    forall x | x in ranked
      ensures SortKey(x.ToLine()) == RecordKey(races, x.id)
    {
      LineIsRecord(races, x.id);
    }
    forall i, j | 0 <= i < j < |ranked|
      ensures LexLess(RecordKey(races, ranked[i].id), RecordKey(races, ranked[j].id))
    {
      assert ranked[i] in ranked && ranked[j] in ranked;
      RankIsKeyOrder(ranked[i].ToLine(), ranked[j].ToLine());
    }
    RecordsAreLines(races, ranked);
  }

  /** The standings abort exactly when two or more players raced and one of them took 2^32 seconds or
      more in all. */
  lemma OverflowByRecord(races: seq<CountedRace>)
    ensures TimesOverflow(Appearances(races)) <==>
      && (exists p, q :: p != q && RacedIn(races, p) && RacedIn(races, q))
      && (exists p :: RacedIn(races, p) && TimeTaken(races, p) >= 4294967296)
  {
    var players := PlayersIn(Appearances(races));
    forall p
      ensures p in players <==> RacedIn(races, p)
      ensures InfoFor(Appearances(races), p).TimeAdjusted() == TimeTaken(races, p)
    {
      PlayersRaced(races, p);
      ResultsAreTimeTaken(races, p);
    }
    TwoPlayers(Appearances(races));
    assert (exists p, q :: p != q && RacedIn(races, p) && RacedIn(races, q)) <==> exists p, q :: p != q && p in players && q in players;
  }

  lemma TwoPlayers(apps: seq<Appearance>)
    ensures |PlayersIn(apps)| >= 2 <==> exists p, q :: p != q && p in PlayersIn(apps) && q in PlayersIn(apps)
  {
    var s := PlayersIn(apps);
    if p, q :| p != q && p in s && q in s {
      assert {p, q} <= s;
      SubsetIsSmaller({p, q}, s);
    } else if apps == [] {
      assert s == {};
    } else {
      var p := apps[0].player;
      assert p in s;
      assert s == {p};
    }
  }

  lemma SubsetIsSmaller(a: set<int>, b: set<int>)
    requires a <= b
    ensures |a| <= |b|
  {
    assert b == a + (b - a);
  }

  lemma RecordsAreLines(races: seq<CountedRace>, ranked: seq<PlayerInfo>)
    requires Decided(races) && IsRanking(Appearances(races), ranked)
    ensures forall x | x in ranked ::
          && x.points == Score(races, x.id) && x.opponentPoints == Strength(races, races, x.id)
          && x.TimeAdjusted() == TimeTaken(races, x.id)
  {
    forall x | x in ranked
      ensures x.points == Score(races, x.id) && x.opponentPoints == Strength(races, races, x.id)
      ensures x.TimeAdjusted() == TimeTaken(races, x.id)
    {
      PointsAreScore(races, x.id);
      OpponentPointsAreStrength(races, races, x.id);
      ResultsAreTimeTaken(races, x.id);
    }
  }
}

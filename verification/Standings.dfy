/** Standings over a list of counted races: src/models/brackets.rs, `standings`. */
module Standings {
  import opened Wrappers
  import opened Results
  import opened Sequences
  import opened BracketRaces

  datatype CountedRace = CountedRace(p1: int, p2: int, r1: PlayerResult, r2: PlayerResult, outcome: Outcome)

  /** The conversion filter: a race counts when both results and the outcome are there. */
  function TryCount(row: RaceRow): Option<CountedRace> {
    if row.r1.Some? && row.r2.Some? && row.outcome.Some? then
      Some(CountedRace(row.p1, row.p2, row.r1.value, row.r2.value, row.outcome.value))
    else None
  }

  function Awards(outcome: Outcome): (int, int) {
    match outcome
    case Tie => (1, 1)
    case P1Win => (2, 0)
    case P2Win => (0, 2)
  }

  datatype PlayerInfoBuilder = Builder(id: int, points: int, opponents: seq<int>, results: seq<PlayerResult>)

  datatype PlayerInfo = PlayerInfo(id: int, points: int, opponentPoints: int, results: seq<PlayerResult>) {
    /** The total time, before it is squeezed into a u32. */
    function TimeAdjusted(): int {
      SumBy(results, ResultTime())
    }

    function ToLine(): Line {
      Line(id, points, opponentPoints, TimeAdjusted())
    }
  }

  /** The part of a player's standing that decides the rank. */
  datatype Line = Line(id: int, points: int, opponentPoints: int, time: int)

  function ResultTime(): PlayerResult -> int {
    (r: PlayerResult) => r.Time()
  }

  /** The sort key `(-points, -opponent_points, time_adjusted, id)`, ascending. */
  predicate RanksBefore(a: Line, b: Line) {
    if a.points != b.points then a.points > b.points
    else if a.opponentPoints != b.opponentPoints then a.opponentPoints > b.opponentPoints
    else if a.time != b.time then a.time < b.time
    else a.id < b.id
  }

  /** The sort key as a list, and the lexicographic order on such lists. */
  function SortKey(l: Line): seq<int> {
    [-l.points, -l.opponentPoints, l.time, l.id]
  }

  predicate LexLess(a: seq<int>, b: seq<int>)
    requires |a| == |b|
  {
    a != [] && (a[0] < b[0] || (a[0] == b[0] && LexLess(a[1..], b[1..])))
  }

  /** The rank order is the order of the sort keys, and it never ties two players. */
  lemma RankIsKeyOrder(a: Line, b: Line)
    ensures RanksBefore(a, b) <==> LexLess(SortKey(a), SortKey(b))
    ensures a.id != b.id ==> RanksBefore(a, b) != RanksBefore(b, a)
  {
    var x, y := SortKey(a), SortKey(b);
    assert x[1..] == [-a.opponentPoints, a.time, a.id] && y[1..] == [-b.opponentPoints, b.time, b.id];
    assert x[1..][1..] == [a.time, a.id] && y[1..][1..] == [b.time, b.id];
    assert x[1..][1..][1..] == [a.id] && y[1..][1..][1..] == [b.id];
    assert LexLess([a.id], [b.id]) <==> a.id < b.id;
    assert LexLess([a.time, a.id], [b.time, b.id]) <==> a.time < b.time || (a.time == b.time && LexLess([a.id], [b.id]));
  }

  /** Two points for the player whose result beats the other's, one each for a tie; and the pairing
      library, which is told the same numbers, sees the same winner. */
  lemma AwardsFollowResults(row: RaceRow)
    requires Consistent(row) && TryCount(row).Some?
    ensures var race := TryCount(row).value;
      var (a1, a2) := Awards(race.outcome);
      && (a1 == if Beats(race.r1, race.r2) then 2 else if Beats(race.r2, race.r1) then 0 else 1)
      && (a2 == if Beats(race.r2, race.r1) then 2 else if Beats(race.r1, race.r2) then 0 else 1)
      && TryIntoMatchResult(row) == Success(
           if a1 == 2 then Player1Win(row.p1, row.p2) else if a2 == 2 then Player2Win(row.p1, row.p2) else Draw(row.p1, row.p2))
  {
    OutcomeFollowsBeats(row.r1.value, row.r2.value);
  }

  // ----- what standings mean: every race is two appearances

  /** One player's side of one race. */
  datatype Appearance = Appearance(player: int, opponent: int, points: int, result: PlayerResult)

  function SidesOf(race: CountedRace): seq<Appearance> {
    [ Appearance(race.p1, race.p2, Awards(race.outcome).0, race.r1),
      Appearance(race.p2, race.p1, Awards(race.outcome).1, race.r2) ]
  }

  function Appearances(races: seq<CountedRace>): seq<Appearance> {
    if races == [] then [] else Appearances(races[..|races| - 1]) + SidesOf(races[|races| - 1])
  }

  function PlayersIn(apps: seq<Appearance>): set<int> {
    set a | a in apps :: a.player
  }

  function PointsFor(id: int): Appearance -> int {
    (a: Appearance) => if a.player == id then a.points else 0
  }

  function Points(apps: seq<Appearance>, id: int): int {
    SumBy(apps, PointsFor(id))
  }

  function OpponentPointsFor(apps: seq<Appearance>, id: int): Appearance -> int {
    (a: Appearance) => if a.player == id then Points(apps, a.opponent) else 0
  }

  function OpponentPoints(apps: seq<Appearance>, id: int): int {
    SumBy(apps, OpponentPointsFor(apps, id))
  }

  function TimeFor(id: int): Appearance -> int {
    (a: Appearance) => if a.player == id then a.result.Time() else 0
  }

  function OpponentsOf(apps: seq<Appearance>, id: int): seq<int> {
    if apps == [] then []
    else
      var last := apps[|apps| - 1];
      OpponentsOf(apps[..|apps| - 1], id) + if last.player == id then [last.opponent] else []
  }

  function ResultsOf(apps: seq<Appearance>, id: int): seq<PlayerResult> {
    if apps == [] then []
    else
      var last := apps[|apps| - 1];
      ResultsOf(apps[..|apps| - 1], id) + if last.player == id then [last.result] else []
  }

  function InfoFor(apps: seq<Appearance>, id: int): PlayerInfo {
    PlayerInfo(id, Points(apps, id), OpponentPoints(apps, id), ResultsOf(apps, id))
  }

  ghost predicate StrictlyRanked(ranked: seq<PlayerInfo>) {
    forall i, j | 0 <= i < j < |ranked| :: RanksBefore(ranked[i].ToLine(), ranked[j].ToLine())
  }

  /** `ranked` lists the given players, each with the right totals, in strict rank order. */
  ghost predicate RankingOf(apps: seq<Appearance>, players: set<int>, ranked: seq<PlayerInfo>) {
    && (forall x | x in ranked :: x.id in players && x == InfoFor(apps, x.id))
    && (forall p | p in players :: InfoFor(apps, p) in ranked)
    && StrictlyRanked(ranked)
  }

  ghost predicate IsRanking(apps: seq<Appearance>, ranked: seq<PlayerInfo>) {
    RankingOf(apps, PlayersIn(apps), ranked)
  }

  // ----- the tally loop

  function BuilderFor(apps: seq<Appearance>, id: int): PlayerInfoBuilder {
    Builder(id, Points(apps, id), OpponentsOf(apps, id), ResultsOf(apps, id))
  }

  function Push(b: PlayerInfoBuilder, opponent: int, points: int, result: PlayerResult): PlayerInfoBuilder {
    b.(points := b.points + points, opponents := b.opponents + [opponent], results := b.results + [result])
  }

  lemma BuilderAppend(apps: seq<Appearance>, a: Appearance, id: int)
    ensures BuilderFor(apps + [a], id) ==
      if a.player == id then Push(BuilderFor(apps, id), a.opponent, a.points, a.result) else BuilderFor(apps, id)
  {
    assert (apps + [a])[..|apps|] == apps;
    SumByAppend(apps, [a], PointsFor(id));
    SumBySingle(a, PointsFor(id));
  }

  lemma {:induction false} BuilderOfStranger(apps: seq<Appearance>, id: int)
    requires id !in PlayersIn(apps)
    ensures BuilderFor(apps, id) == Builder(id, 0, [], [])
  {
    if apps != [] {
      var front, last := apps[..|apps| - 1], apps[|apps| - 1];
      assert apps == front + [last];
      assert last.player in PlayersIn(apps);
      BuilderOfStranger(front, id);
      BuilderAppend(front, last, id);
    }
  }

  ghost predicate Tallied(apps: seq<Appearance>, info: map<int, PlayerInfoBuilder>) {
    info.Keys == PlayersIn(apps) && forall id | id in info :: info[id] == BuilderFor(apps, id)
  }

  /** The entry for a player, created on the first appearance, gets the appearance pushed. */
  function Record(info: map<int, PlayerInfoBuilder>, id: int, opponent: int, points: int, result: PlayerResult)
    : map<int, PlayerInfoBuilder>
  {
    var entry := if id in info then info[id] else Builder(id, 0, [], []);
    info[id := Push(entry, opponent, points, result)]
  }

  lemma RecordTallies(apps: seq<Appearance>, info: map<int, PlayerInfoBuilder>, a: Appearance)
    requires Tallied(apps, info)
    ensures Tallied(apps + [a], Record(info, a.player, a.opponent, a.points, a.result))
  {
    var after := Record(info, a.player, a.opponent, a.points, a.result);
    if a.player !in info {
      BuilderOfStranger(apps, a.player);
    }
    forall id | id in after
      ensures after[id] == BuilderFor(apps + [a], id)
    {
      BuilderAppend(apps, a, id);
    }
  }

  lemma TwoMoreAppearances(races: seq<CountedRace>, i: nat)
    requires i < |races|
    ensures Appearances(races[..i + 1]) == Appearances(races[..i]) + [SidesOf(races[i])[0]] + [SidesOf(races[i])[1]]
  {
    assert races[..i + 1][..i] == races[..i];
  }

  method Tally(races: seq<CountedRace>) returns (info: map<int, PlayerInfoBuilder>)
    ensures Tallied(Appearances(races), info)
  {
    info := map[];
    for i := 0 to |races|
      invariant Tallied(Appearances(races[..i]), info)
    {
      var race := races[i];
      var (p1Adjust, p2Adjust) := Awards(race.outcome);
      ghost var before := Appearances(races[..i]);
      RecordTallies(before, info, SidesOf(race)[0]);
      info := Record(info, race.p1, race.p2, p1Adjust, race.r1);
      RecordTallies(before + [SidesOf(race)[0]], info, SidesOf(race)[1]);
      info := Record(info, race.p2, race.p1, p2Adjust, race.r2);
      TwoMoreAppearances(races, i);
    }
    assert races[..|races|] == races;
  }

  // ----- building and sorting the list

  function ScoreIn(scores: map<int, int>): int -> int {
    (id: int) => if id in scores then scores[id] else 0
  }

  function Build(builder: PlayerInfoBuilder, scores: map<int, int>): PlayerInfo {
    PlayerInfo(builder.id, builder.points, SumBy(builder.opponents, ScoreIn(scores)), builder.results)
  }

  /** Every opponent has a score of its own: the branch for a missing score is never taken. */
  lemma {:induction false} OpponentsAreScored(races: seq<CountedRace>)
    ensures forall a | a in Appearances(races) :: a.opponent in PlayersIn(Appearances(races))
  {
    if races != [] {
      var front, last := races[..|races| - 1], races[|races| - 1];
      OpponentsAreScored(front);
      assert SidesOf(last)[0] in Appearances(races) && SidesOf(last)[1] in Appearances(races);
      forall a | a in Appearances(races)
        ensures a.opponent in PlayersIn(Appearances(races))
      {
        if a in Appearances(front) {
          assert PlayersIn(Appearances(front)) <= PlayersIn(Appearances(races));
        }
      }
    }
  }

  lemma {:induction false} ScoresAddUp(all: seq<Appearance>, apps: seq<Appearance>, scores: map<int, int>, id: int)
    requires forall a | a in apps :: a.opponent in scores && scores[a.opponent] == Points(all, a.opponent)
    ensures SumBy(OpponentsOf(apps, id), ScoreIn(scores)) == SumBy(apps, OpponentPointsFor(all, id))
  {
    if apps != [] {
      var front, last := apps[..|apps| - 1], apps[|apps| - 1];
      assert apps == front + [last];
      ScoresAddUp(all, front, scores, id);
      SumByAppend(front, [last], OpponentPointsFor(all, id));
      SumBySingle(last, OpponentPointsFor(all, id));
      SumByAppend(OpponentsOf(front, id), [last.opponent], ScoreIn(scores));
      SumBySingle(last.opponent, ScoreIn(scores));
      assert OpponentsOf(front, id) + [] == OpponentsOf(front, id);
    }
  }

  /** Inserts into a strictly ranked list; stands for the library sort by a cached key. */
  function InsertRanked(ranked: seq<PlayerInfo>, info: PlayerInfo): (r: seq<PlayerInfo>)
    ensures |r| == |ranked| + 1
    ensures multiset(r) == multiset(ranked) + multiset{info}
  {
    if ranked == [] || RanksBefore(info.ToLine(), ranked[0].ToLine()) then [info] + ranked
    else
      assert ranked == [ranked[0]] + ranked[1..];
      [ranked[0]] + InsertRanked(ranked[1..], info)
  }

  lemma {:induction false} InsertKeepsRanked(ranked: seq<PlayerInfo>, info: PlayerInfo)
    requires StrictlyRanked(ranked)
    requires forall x | x in ranked :: x.id != info.id
    ensures StrictlyRanked(InsertRanked(ranked, info))
    ensures forall x :: x in InsertRanked(ranked, info) <==> x in ranked || x == info
  {
    var r := InsertRanked(ranked, info);
    if !(ranked == [] || RanksBefore(info.ToLine(), ranked[0].ToLine())) {
      InsertKeepsRanked(ranked[1..], info);
      var tail := InsertRanked(ranked[1..], info);
      assert r == [ranked[0]] + tail;
      assert ranked == [ranked[0]] + ranked[1..];
      forall j | 1 <= j < |r|
        ensures RanksBefore(r[0].ToLine(), r[j].ToLine())
      {
        assert r[j] in tail;
        if r[j] != info {
          assert r[j] in ranked[1..];
        }
      }
    }
  }

  lemma InsertExtendsRanking(apps: seq<Appearance>, done: set<int>, ranked: seq<PlayerInfo>, id: int)
    requires RankingOf(apps, done, ranked) && id !in done
    ensures RankingOf(apps, done + {id}, InsertRanked(ranked, InfoFor(apps, id)))
  {
    InsertKeepsRanked(ranked, InfoFor(apps, id));
  }

  lemma ScoresArePoints(races: seq<CountedRace>, info: map<int, PlayerInfoBuilder>, id: int)
    requires Tallied(Appearances(races), info) && id in PlayersIn(Appearances(races))
    ensures id in info && info[id].points == Points(Appearances(races), id)
  {
  }

  lemma OpponentScoresAddUp(races: seq<CountedRace>, info: map<int, PlayerInfoBuilder>, scores: map<int, int>, id: int)
    requires Tallied(Appearances(races), info)
    requires scores.Keys == info.Keys && forall i | i in info :: scores[i] == info[i].points
    ensures SumBy(OpponentsOf(Appearances(races), id), ScoreIn(scores)) == OpponentPoints(Appearances(races), id)
  {
    var apps := Appearances(races);
    forall a | a in apps
      ensures a.opponent in scores && scores[a.opponent] == Points(apps, a.opponent)
    {
      OpponentsAreScored(races);
      ScoresArePoints(races, info, a.opponent);
    }
    ScoresAddUp(apps, apps, scores, id);
  }

  lemma BuildIsInfo(races: seq<CountedRace>, info: map<int, PlayerInfoBuilder>, scores: map<int, int>, id: int)
    requires Tallied(Appearances(races), info) && id in info
    requires scores.Keys == info.Keys && forall i | i in info :: scores[i] == info[i].points
    ensures Build(info[id], scores) == InfoFor(Appearances(races), id)
  {
    OpponentScoresAddUp(races, info, scores, id);
  }

  datatype StandingsError = BracketUnstarted | TimeOverflow

  /** A sort of at least two players computes every key, and the sum of u32 times inside the key
      aborts when it leaves the range. */
  ghost predicate TimesOverflow(apps: seq<Appearance>) {
    |PlayersIn(apps)| >= 2 && exists p | p in PlayersIn(apps) :: InfoFor(apps, p).TimeAdjusted() >= U32_LIMIT
  }

  /** Takes the builders out of the map, in any order, builds each and sorts. */
  method BuildAndSort(info: map<int, PlayerInfoBuilder>, ghost races: seq<CountedRace>) returns (ranked: seq<PlayerInfo>)
    requires Tallied(Appearances(races), info)
    ensures IsRanking(Appearances(races), ranked)
  {
    ghost var apps := Appearances(races);
    var scores := map id | id in info :: info[id].points;
    ranked := [];
    var left := info.Keys;
    while left != {}
      invariant left <= info.Keys
      invariant RankingOf(apps, info.Keys - left, ranked)
      decreases left
    {
      var id :| id in left;
      BuildIsInfo(races, info, scores, id);
      InsertExtendsRanking(apps, info.Keys - left, ranked, id);
      ranked := InsertRanked(ranked, Build(info[id], scores));
      assert info.Keys - left + {id} == info.Keys - (left - {id});
      left := left - {id};
    }
    assert info.Keys - left == PlayersIn(apps);
  }

  method Standings(races: seq<CountedRace>) returns (r: Result<seq<PlayerInfo>, StandingsError>)
    ensures r.Failure? <==> TimesOverflow(Appearances(races))
    ensures r.Failure? ==> r.error == TimeOverflow
    ensures r.Success? ==> IsRanking(Appearances(races), r.value)
  {
    var info := Tally(races);
    var ranked := BuildAndSort(info, races);
    if |info.Keys| >= 2 && exists x | x in ranked :: x.TimeAdjusted() >= U32_LIMIT {
      return Failure(TimeOverflow);
    }
    return Success(ranked);
  }
}

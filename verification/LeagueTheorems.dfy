/** What holds in every run of the league. */
module LeagueTheorems {
  import opened Wrappers
  import opened Results
  import opened Sequences
  import opened BracketRaces
  import opened Pairings
  import opened League
  import opened LeagueInvariant

  // ----- the generators establish what a new round needs

  lemma {:induction false} FlattenMembers(pairs: seq<Pair>, x: int)
    ensures x in Flatten(pairs) <==> exists p | p in pairs :: p.0 == x || p.1 == x
  {
    if pairs != [] {
      FlattenMembers(pairs[1..], x);
      assert pairs == [pairs[0]] + pairs[1..];
    }
  }

  lemma RacesHaveRounds(db: Db, b: nat, i: nat)
    requires References(db) && i < |db.races| && db.races[i].bracket == b
    ensures db.races[i].round in RoundIds(db.rounds, b)
  {
    RoundIdsMembers(db.rounds, b, db.races[i].round);
  }

  lemma InitialPairsFit(db: Db, b: nat, shuffled: seq<int>)
    requires b < |db.brackets| && multiset(shuffled) == multiset(PlayersOf(db.entries, b))
    requires InitialPairs(db, b, shuffled).Success?
    ensures var pairs := InitialPairs(db, b, shuffled).value;
      && RoundShape(db, b, 1, pairs)
      && AllEntered(db, b, pairs)
  {
    var players := PlayersOf(db.entries, b);
    var pairs := InitialPairs(db, b, shuffled).value;
    match db.brackets[b].kind
    case Swiss =>
      PairOffIsPerfect(shuffled);
      PermutationDistinct(shuffled, players);
      PermutationMembers(Flatten(pairs), players);
    case RoundRobin =>
      RoundRobinAcceptsIffDistinct(players);
      RoundRobinMembers(players);
      forall x | x in Flatten(pairs)
        ensures x in players
      {
        FlattenMembers(pairs, x);
      }
      assert players[..|players|] == players;
      assert AllPairsOfFirst(players, |players|, pairs);
  }

  lemma InitialIsReady(db: Db, b: nat, shuffled: seq<int>)
    requires Inv(db) && b < |db.brackets| && db.brackets[b].state == BracketState.Unstarted
    requires RoundIds(db.rounds, b) == [] && multiset(shuffled) == multiset(PlayersOf(db.entries, b))
    requires InitialPairs(db, b, shuffled).Success?
    ensures ReadyFor(db, b, 1, InitialPairs(db, b, shuffled).value)
  {
    InitialPairsFit(db, b, shuffled);
  }

  lemma NumsAreBounded(rounds: seq<RoundRow>, b: nat, r: nat)
    requires RoundNumbers(rounds) && r < |rounds| && rounds[r].bracket == b
    ensures rounds[r].num <= |RoundIds(rounds, b)|
  {
    RoundNumsAreConsecutive(rounds, b);
    RoundIdsMembers(rounds, b, r);
    var k :| 0 <= k < |RoundIds(rounds, b)| && RoundIds(rounds, b)[k] == r;
  }

  /** In every reachable state the next number is one more than the number of rounds. */
  lemma NextNum(db: Db, b: nat)
    requires RoundNumbers(db.rounds)
    ensures AscendingNums(db.rounds, RoundsOf(db, b))
    ensures HighestNum(db.rounds, RoundsOf(db, b)) == |RoundIds(db.rounds, b)|
    ensures !RoundExists(db, b, |RoundIds(db.rounds, b)| + 1)
  {
    RoundsAreOneToK(db, b);
    if r :| 0 <= r < |db.rounds| && db.rounds[r] == RoundRow(|RoundIds(db.rounds, b)| + 1, b) {
      NumsAreBounded(db.rounds, b, r);
      assert false;
    }
  }

  lemma ConvertingIsFinished(races: seq<RaceRow>, r: nat)
    requires RacesConsistent(races)
    ensures AllConvert(RacesIn(races, r)) <==> AllFinished(RacesIn(races, r))
  {
    RacesInMembers(races, r);
    forall race | race in RacesIn(races, r)
      ensures TryIntoMatchResult(race).Success? <==> race.state == RaceState.Finished
    {
      var i :| 0 <= i < |races| && races[i] == race;
      assert Consistent(races[i]);
    }
  }

  lemma AllFinishedByRounds(db: Db, b: nat)
    requires References(db) && RoundNumbers(db.rounds)
    ensures (forall r | r in RoundsOf(db, b) :: AllFinished(RacesIn(db.races, r))) <==>
            BracketDone(db, b)
  {
    if forall r | r in RoundsOf(db, b) :: AllFinished(RacesIn(db.races, r)) {
      forall i | 0 <= i < |db.races| && db.races[i].bracket == b
        ensures db.races[i].state == RaceState.Finished
      {
        FinishedByRounds(db, b, i);
      }
    }
    if BracketDone(db, b) {
      forall r | r in RoundsOf(db, b)
        ensures AllFinished(RacesIn(db.races, r))
      {
        RoundFinishedByRaces(db, b, r);
      }
    }
  }

  lemma RoundFinishedByRaces(db: Db, b: nat, r: nat)
    requires References(db) && RoundNumbers(db.rounds) && r in RoundsOf(db, b)
    requires BracketDone(db, b)
    ensures AllFinished(RacesIn(db.races, r))
  {
    RoundsAreOneToK(db, b);
    RoundIdsMembers(db.rounds, b, r);
    RacesInMembers(db.races, r);
    forall race | race in RacesIn(db.races, r)
      ensures race.state == RaceState.Finished
    {
      var i :| 0 <= i < |db.races| && db.races[i] == race;
    }
  }

  /** All races of a bracket convert for the pairing library exactly when all are finished. */
  lemma ConvertIffFinished(db: Db, b: nat)
    requires References(db) && RacesConsistent(db.races) && RoundNumbers(db.rounds)
    ensures RoundsConvert(db.races, RoundsOf(db, b)) <==>
            BracketDone(db, b)
  {
    AllFinishedByRounds(db, b);
    forall r | r in RoundsOf(db, b)
      ensures AllConvert(RacesIn(db.races, r)) <==> AllFinished(RacesIn(db.races, r))
    {
      ConvertingIsFinished(db.races, r);
    }
  }

  lemma NextIsReady(db: Db, b: nat, pairs: seq<Pair>)
    requires Inv(db) && b < |db.brackets| && db.brackets[b].state == BracketState.Started && db.brackets[b].kind == Swiss
    requires BracketDone(db, b)
    requires Matching(pairs) && AllEntered(db, b, pairs)
    ensures ReadyFor(db, b, |RoundIds(db.rounds, b)| + 1, pairs)
  {
  }

  // ----- when pairings are generated, and which

  /** The exact condition under which a bracket's next pairings are generated. */
  ghost predicate CanGenerate(db: Db, b: nat, answer: Option<seq<Pair>>)
    requires b < |db.brackets|
  {
    var players := PlayersOf(db.entries, b);
    match db.brackets[b].state
    case Unstarted =>
      && RoundIds(db.rounds, b) == []
      && if db.brackets[b].kind == Swiss then |players| % 2 == 0 else players != [] && Distinct(players)
    case Started =>
      && db.brackets[b].kind == Swiss
      && BracketDone(db, b)
      && answer.Some? && Matching(answer.value) && AllEntered(db, b, answer.value)
    case Finished => false
  }

  /** The new round's pairs: all pairs, a perfect matching, or the library's answer. */
  ghost predicate GoodPairs(db: Db, b: nat, answer: Option<seq<Pair>>, pairs: seq<Pair>)
    requires b < |db.brackets|
  {
    var players := PlayersOf(db.entries, b);
    match db.brackets[b].state
    case Unstarted =>
      if db.brackets[b].kind == Swiss then multiset(Flatten(pairs)) == multiset(players)
      else Distinct(pairs) && forall p :: p in pairs <==> p.0 < p.1 && p.0 in players && p.1 in players
    case Started => answer == Some(pairs)
    case Finished => false
  }

  /** A whole round is committed: one round with the next number, its races, all new, and the
      bracket is started. Nothing else changes. */
  ghost predicate CommitsRound(db: Db, after: Db, b: nat, pairs: seq<Pair>)
    requires b < |db.brackets|
  {
    var r, num := |db.rounds|, |RoundIds(db.rounds, b)| + 1;
    && after.rounds == db.rounds + [RoundRow(num, b)]
    && |after.races| == |db.races| + |pairs| && after.races[..|db.races|] == db.races
    && (forall k | 0 <= k < |pairs| :: after.races[|db.races| + k] == NewRace(b, r, pairs[k].0, pairs[k].1))
    && after.brackets == db.brackets[b := db.brackets[b].(state := BracketState.Started)]
    && after.seasons == db.seasons && after.entries == db.entries && after.infos == db.infos
  }

  lemma WithRoundCommits(db: Db, b: nat, pairs: seq<Pair>)
    requires b < |db.brackets|
    ensures CommitsRound(db, WithRound(db, b, |RoundIds(db.rounds, b)| + 1, pairs), b, pairs)
  {
    var after := WithRound(db, b, |RoundIds(db.rounds, b)| + 1, pairs);
    assert after.races[..|db.races|] == db.races;
  }

  /** Generating pairings would abort: a round robin that was never generated has no players. */
  ghost predicate Aborts(db: Db, b: nat)
    requires b < |db.brackets|
  {
    && db.brackets[b].state == BracketState.Unstarted && db.brackets[b].kind == RoundRobin
    && PlayersOf(db.entries, b) == [] && RoundIds(db.rounds, b) == []
  }

  lemma InitialUnfolded(db: Db, b: nat, shuffled: seq<int>)
    requires RoundNumbers(db.rounds) && b < |db.brackets| && RoundIds(db.rounds, b) == []
    ensures var i := InitialPairs(db, b, shuffled);
      GenerateInitial(db, b, shuffled) ==
      if i.Success? then Success(WithRound(db, b, 1, i.value)) else Failure(PairingFailure(i.error))
  {
    NextNum(db, b);
  }

  lemma SwissSucceedsIff(shuffled: seq<int>, players: seq<int>)
    requires multiset(shuffled) == multiset(players)
    ensures |shuffled| == |players|
    ensures |shuffled| % 2 == 0 ==> multiset(Flatten(PairOff(shuffled))) == multiset(players)
  {
    assert |shuffled| == |multiset(shuffled)| == |multiset(players)| == |players|;
    if |shuffled| % 2 == 0 {
      PairOffIsPerfect(shuffled);
    }
  }

  lemma RoundRobinSucceedsIff(players: seq<int>)
    ensures CheckedRoundRobin(players).Success? <==> players != [] && Distinct(players)
    ensures CheckedRoundRobin(players).Success? ==> CheckedRoundRobin(players).value == RoundRobinPairs(players)
    ensures CheckedRoundRobin(players) == Failure(CountOverflow) <==> players == []
  {
    if players != [] {
      RoundRobinAcceptsIffDistinct(players);
    }
  }

  lemma InitialSucceedsIff(db: Db, b: nat, shuffled: seq<int>, answer: Option<seq<Pair>>)
    requires b < |db.brackets| && db.brackets[b].state == BracketState.Unstarted && RoundIds(db.rounds, b) == []
    requires multiset(shuffled) == multiset(PlayersOf(db.entries, b))
    ensures InitialPairs(db, b, shuffled).Success? <==> CanGenerate(db, b, answer)
    ensures InitialPairs(db, b, shuffled).Success? ==> GoodPairs(db, b, answer, InitialPairs(db, b, shuffled).value)
  {
    var players := PlayersOf(db.entries, b);
    match db.brackets[b].kind
    case Swiss => SwissSucceedsIff(shuffled, players);
    case RoundRobin =>
      RoundRobinSucceedsIff(players);
      RoundRobinMembers(players);
  }

  lemma InitialAbortsIff(db: Db, b: nat, shuffled: seq<int>)
    requires RoundNumbers(db.rounds) && b < |db.brackets| && db.brackets[b].state == BracketState.Unstarted
    ensures GenerateInitial(db, b, shuffled) == Failure(Aborted) <==> Aborts(db, b)
  {
    if RoundIds(db.rounds, b) == [] {
      InitialUnfolded(db, b, shuffled);
      RoundRobinSucceedsIff(PlayersOf(db.entries, b));
    }
  }

  lemma GenerateInitialExactly(db: Db, b: nat, shuffled: seq<int>, answer: Option<seq<Pair>>)
    requires Inv(db) && b < |db.brackets| && db.brackets[b].state == BracketState.Unstarted
    requires multiset(shuffled) == multiset(PlayersOf(db.entries, b))
    ensures var r := GenerateInitial(db, b, shuffled);
      && (r.Success? <==> CanGenerate(db, b, answer))
      && (r.Success? ==> exists pairs :: CommitsRound(db, r.value, b, pairs) && GoodPairs(db, b, answer, pairs))
      && (r.Success? ==> Inv(r.value))
      && (r.Failure? ==> r.error.Pairing? || r.error == Error.InvalidState || r.error == Aborted)
  {
    if RoundIds(db.rounds, b) == [] {
      InitialUnfolded(db, b, shuffled);
      InitialSucceedsIff(db, b, shuffled, answer);
    }
    if CanGenerate(db, b, answer) {
      var pairs := InitialPairs(db, b, shuffled).value;
      InitialIsReady(db, b, shuffled);
      WithRoundKeepsInv(db, b, 1, pairs);
      WithRoundCommits(db, b, pairs);
    }
  }

  lemma NextUnfolded(db: Db, b: nat, answer: Option<seq<Pair>>)
    requires RoundNumbers(db.rounds) && b < |db.brackets| && db.brackets[b].kind == Swiss
    ensures GenerateNext(db, b, answer) ==
      if !RoundsConvert(db.races, RoundsOf(db, b)) then Failure(NotConvertible)
      else if answer.None? then Failure(LibraryError)
      else CommitNext(db, b, |RoundIds(db.rounds, b)| + 1, answer.value)
  {
    NextNum(db, b);
  }

  lemma CommitNextIff(db: Db, b: nat, pairs: seq<Pair>)
    requires RoundNumbers(db.rounds) && b < |db.brackets|
    ensures var num := |RoundIds(db.rounds, b)| + 1;
      var r := CommitNext(db, b, num, pairs);
      && (r.Success? <==> Matching(pairs) && AllEntered(db, b, pairs))
      && (r.Success? ==> r.value == WithRound(db, b, num, pairs))
      && (r.Failure? ==> r.error.Pairing?)
  {
    NextNum(db, b);
    TakenIffMatching(EnteredIn(db.entries, b), pairs);
  }

  lemma NextSucceedsIff(db: Db, b: nat, answer: Option<seq<Pair>>)
    requires References(db) && RacesConsistent(db.races) && RoundNumbers(db.rounds)
    requires b < |db.brackets| && db.brackets[b].state == BracketState.Started
    ensures var r := GenerateNext(db, b, answer);
      && (r.Success? <==> CanGenerate(db, b, answer))
      && (r.Success? ==> r.value == WithRound(db, b, |RoundIds(db.rounds, b)| + 1, answer.value))
      && (r.Failure? ==> r.error != AssertionFailed && r.error != UniqueViolation && r.error != Aborted)
  {
    if db.brackets[b].kind == Swiss {
      NextUnfolded(db, b, answer);
      ConvertIffFinished(db, b);
      if answer.Some? {
        CommitNextIff(db, b, answer.value);
      }
    }
  }

  lemma GenerateNextExactly(db: Db, b: nat, answer: Option<seq<Pair>>)
    requires References(db) && RacesConsistent(db.races) && RoundNumbers(db.rounds)
    requires b < |db.brackets| && db.brackets[b].state == BracketState.Started
    ensures var r := GenerateNext(db, b, answer);
      && (r.Success? <==> CanGenerate(db, b, answer))
      && (r.Success? ==> exists pairs :: CommitsRound(db, r.value, b, pairs) && GoodPairs(db, b, answer, pairs))
      && (r.Failure? ==> r.error != AssertionFailed && r.error != UniqueViolation && r.error != Aborted)
  {
    NextSucceedsIff(db, b, answer);
    if GenerateNext(db, b, answer).Success? {
      WithRoundCommits(db, b, answer.value);
      assert GoodPairs(db, b, answer, answer.value);
    }
  }

  lemma GenerateNextKeepsInv(db: Db, b: nat, answer: Option<seq<Pair>>)
    requires Inv(db) && b < |db.brackets| && db.brackets[b].state == BracketState.Started
    requires GenerateNext(db, b, answer).Success?
    ensures Inv(GenerateNext(db, b, answer).value)
  {
    NextSucceedsIff(db, b, answer);
    NextIsReady(db, b, answer.value);
    WithRoundKeepsInv(db, b, |RoundIds(db.rounds, b)| + 1, answer.value);
  }

  /** Generating pairings commits a whole round or nothing, exactly when it can, and neither the
      loop's assertion nor the unique index on round numbers ever fires. */
  lemma GenerateIsExact(db: Db, b: nat, shuffled: seq<int>, answer: Option<seq<Pair>>)
    requires Inv(db) && b < |db.brackets|
    requires multiset(shuffled) == multiset(PlayersOf(db.entries, b))
    ensures var r := GeneratePairings(db, b, shuffled, answer);
      && (r.Success? <==> CanGenerate(db, b, answer))
      && (r.Success? ==> exists pairs :: CommitsRound(db, r.value, b, pairs) && GoodPairs(db, b, answer, pairs))
      && (r.Failure? ==> r.error != AssertionFailed && r.error != UniqueViolation)
  {
    match db.brackets[b].state
    case Unstarted => GenerateInitialExactly(db, b, shuffled, answer);
    case Started => GenerateNextExactly(db, b, answer);
    case Finished =>
  }

  lemma {:induction false} NoRacesIn(races: seq<RaceRow>, r: nat)
    requires forall i | 0 <= i < |races| :: races[i].round < r
    ensures RacesIn(races, r) == []
  {
    if races != [] {
      NoRacesIn(races[..|races| - 1], r);
    }
  }

  /** Generating pairings aborts exactly for a round robin that was never generated and has no
      players. */
  lemma GenerateAbortsIff(db: Db, b: nat, shuffled: seq<int>, answer: Option<seq<Pair>>)
    requires References(db) && RacesConsistent(db.races) && RoundNumbers(db.rounds) && b < |db.brackets|
    ensures GeneratePairings(db, b, shuffled, answer) == Failure(Aborted) <==> Aborts(db, b)
  {
    match db.brackets[b].state
    case Unstarted => InitialAbortsIff(db, b, shuffled);
    case Started => GenerateNextExactly(db, b, answer);
    case Finished =>
  }

  /** What an abort leaves behind, as long as the transaction stays open, is the row of a round
      without races. */
  lemma AbortLeavesEmptyRound(db: Db, b: nat, shuffled: seq<int>, answer: Option<seq<Pair>>)
    requires References(db) && RacesConsistent(db.races) && RoundNumbers(db.rounds)
    requires b < |db.brackets| && Aborts(db, b)
    ensures var after := Apply(db, CmdGeneratePairings(b, shuffled, answer));
      && after.rounds == db.rounds + [RoundRow(1, b)] && RacesIn(after.races, |db.rounds|) == []
      && (after.seasons, after.brackets, after.races, after.infos, after.entries) ==
         (db.seasons, db.brackets, db.races, db.infos, db.entries)
  {
    GenerateAbortsIff(db, b, shuffled, answer);
    NoRacesIn(db.races, |db.rounds|);
  }

  // ----- the other commands, exactly

  function SeasonRank(s: SeasonState): nat {
    match s
    case Created => 0
    case QualifiersOpen => 1
    case QualifiersClosed => 2
    case Started => 3
    case Finished => 4
  }

  /** The season's next state is the target, and a season moves to Finished only if every bracket of
      it is finished. */
  predicate SeasonMoves(db: Db, s: nat, target: SeasonState)
    requires s < |db.seasons|
  {
    && SeasonRank(target) == SeasonRank(db.seasons[s].state) + 1
    && (target == SeasonState.Finished ==>
          forall b | 0 <= b < |db.brackets| && db.brackets[b].season == s :: db.brackets[b].state == BracketState.Finished)
  }

  /** A season stays where it is or moves one state on; it moves to Finished exactly when all its
      brackets are finished, and then, and only then, it gets a finish time. Nothing else changes. */
  lemma SeasonMovesExactly(db: Db, s: nat, target: SeasonState, now: int)
    requires s < |db.seasons|
    ensures var r := SetSeasonState(db, s, target, now);
      var row := db.seasons[s];
      var moves := SeasonMoves(db, s, target);
      && (r.Success? <==> target == row.state || moves)
      && (r.Success? ==> r.value == db.(seasons := db.seasons[s :=
            SeasonRow(target, if moves && target == SeasonState.Finished then Some(now) else row.finished)]))
  {
    assert AllBracketsFinished(db, s) <==>
      forall b | 0 <= b < |db.brackets| && db.brackets[b].season == s :: db.brackets[b].state == BracketState.Finished
    by {
      assert forall b | 0 <= b < |db.brackets| :: db.brackets[b] in db.brackets;
    }
    match target
    case Created =>
    case QualifiersOpen =>
    case QualifiersClosed =>
    case Started =>
    case Finished =>
  }

  /** A bracket can be finished exactly when all its races are, even if it was never started. */
  lemma FinishBracketExactly(db: Db, b: nat)
    requires References(db) && RoundNumbers(db.rounds) && b < |db.brackets|
    ensures FinishBracket(db, b).Success? <==>
      BracketDone(db, b)
    ensures FinishBracket(db, b).Success? ==>
      FinishBracket(db, b).value == db.(brackets := db.brackets[b := db.brackets[b].(state := BracketState.Finished)])
  {
    AllFinishedByRounds(db, b);
  }

  lemma ScheduledInfo(races: seq<RaceRow>, infos: seq<InfoRow>, i: nat, row: InfoRow)
    requires InfosOk(races, infos) && i < |races| && row.race == i
    ensures InfoIndex(infos, i) < |WithInfo(infos, i)|
    ensures var after := WithInfo(infos, i)[InfoIndex(infos, i) := row];
      && (forall info: InfoRow :: info in after && info.race == i <==> info == row)
      && (forall info: InfoRow | info.race != i :: info in after <==> info in infos)
  {
    WithInfoOk(races, infos, i);
    var j, before := InfoIndex(infos, i), WithInfo(infos, i);
    var after := before[j := row];
    assert after[j] == row;
    forall info: InfoRow | info.race != i
      ensures info in after <==> info in infos
    {
      if info in infos {
        var k :| 0 <= k < |infos| && infos[k] == info;
        assert after[k] == info;
      }
    }
  }

  /** Scheduling succeeds exactly for unfinished races. It sets the time and clears the room's url in
      the race's only info row, and touches no other race and no other info row. */
  lemma ScheduleExactly(db: Db, i: nat, when: int)
    requires InfosOk(db.races, db.infos) && i < |db.races|
    ensures ScheduleRace(db, i, when).Success? <==> db.races[i].state != RaceState.Finished
    ensures ScheduleRace(db, i, when).Success? ==>
      var after := ScheduleRace(db, i, when).value;
      && after.races == db.races[i := db.races[i].(state := RaceState.Scheduled)]
      && (forall info: InfoRow :: info in after.infos && info.race == i <==> info == InfoRow(i, Some(when), None))
      && (forall info: InfoRow | info.race != i :: info in after.infos <==> info in db.infos)
  {
    ScheduledInfo(db.races, db.infos, i, InfoRow(i, Some(when), None));
  }

  /** A race of a player against themself is never reported. Of the others, a first report succeeds
      exactly for unfinished races and a correction exactly for finished ones; both store the two
      results and the outcome that follows from them. */
  lemma ReportExactly(db: Db, i: nat, r1: PlayerResult, r2: PlayerResult, again: bool)
    requires i < |db.races|
    ensures ReportRace(db, i, r1, r2, again).Success? <==>
      db.races[i].p1 != db.races[i].p2 && (again <==> db.races[i].state == RaceState.Finished)
    ensures ReportRace(db, i, r1, r2, again).Success? ==>
      var after := ReportRace(db, i, r1, r2, again).value;
      && |after.races| == |db.races|
      && (forall k | 0 <= k < |db.races| && k != i :: after.races[k] == db.races[k])
      && var row := after.races[i];
         && SameMatch(db.races[i], row) && row.state == RaceState.Finished
         && row.r1 == Some(r1) && row.r2 == Some(r2) && row.outcome.Some?
         && (row.outcome == Some(P1Win) <==> Beats(r1, r2)) && (row.outcome == Some(P2Win) <==> Beats(r2, r1))
  {
    OutcomeFollowsBeats(r1, r2);
  }

  // ----- every run

  lemma AbortKeepsInv(db: Db, b: nat)
    requires Inv(db) && b < |db.brackets| && Aborts(db, b)
    ensures Inv(AfterAbort(db, b))
  {
    var players := PlayersOf(db.entries, b);
    assert players[..0] == [] && RoundRobinPairs([]) == [];
    assert AllPairsOfFirst(players, 0, []);
    WithRoundKeepsInv(db, b, 1, []);
    AbortIsEmptyRound(db, b);
  }

  /** The aborted round is a round without races in a bracket that stays unstarted. */
  lemma AbortIsEmptyRound(db: Db, b: nat)
    requires References(db) && SeasonsOk(db) && BracketsOk(db) && RacesConsistent(db.races) && InfosOk(db.races, db.infos)
    requires b < |db.brackets| && Aborts(db, b)
    requires var full := WithRound(db, b, 1, []);
      References(full) && Shapes(full) && RoundNumbers(full.rounds) && EarlierFinished(full) && Entrants(full)
    ensures Inv(AfterAbort(db, b))
  {
    SameWithoutRaces(db, b);
    KeepsShapes(WithRound(db, b, 1, []), AfterAbort(db, b));
    AbortKeepsBrackets(db, b);
  }

  lemma SameWithoutRaces(db: Db, b: nat)
    requires References(db) && b < |db.brackets|
    ensures AfterAbort(db, b) == WithRound(db, b, 1, []).(brackets := db.brackets)
    ensures References(AfterAbort(db, b))
  {
    assert NewRaces(b, |db.rounds|, []) == [];
  }

  lemma AbortKeepsBrackets(db: Db, b: nat)
    requires References(db) && BracketsOk(db) && b < |db.brackets| && Aborts(db, b) && References(AfterAbort(db, b))
    ensures BracketsOk(AfterAbort(db, b))
  {
    assert AfterAbort(db, b).rounds[..|db.rounds|] == db.rounds;
  }

  lemma FailureKeepsInv(db: Db, cmd: Command)
    requires Inv(db) && Enabled(db, cmd) && Step(db, cmd).Failure?
    ensures Inv(Apply(db, cmd))
  {
    if cmd.CmdGeneratePairings? && Step(db, cmd).error == Aborted {
      GenerateAbortsIff(db, cmd.bracket, cmd.shuffled, cmd.answer);
      AbortKeepsInv(db, cmd.bracket);
    } else if Apply(db, cmd) != db {
      WithInfoOk(db.races, db.infos, cmd.race);
      InfosKeepInv(db, WithInfo(db.infos, cmd.race));
    }
  }

  lemma GenerateKeepsInv(db: Db, b: nat, shuffled: seq<int>, answer: Option<seq<Pair>>)
    requires Inv(db) && GeneratePairings(db, b, shuffled, answer).Success?
    requires multiset(shuffled) == multiset(PlayersOf(db.entries, b))
    ensures Inv(GeneratePairings(db, b, shuffled, answer).value)
  {
    if db.brackets[b].state == BracketState.Unstarted {
      GenerateInitialExactly(db, b, shuffled, answer);
    } else {
      GenerateNextKeepsInv(db, b, answer);
    }
  }

  lemma CreateSeasonKeepsInv(db: Db)
    requires Inv(db)
    ensures Inv(CreateSeason(db))
  {
    assert References(CreateSeason(db));
    KeepsShapes(db, CreateSeason(db));
  }

  lemma SuccessKeepsInv(db: Db, cmd: Command)
    requires Inv(db) && Enabled(db, cmd) && Step(db, cmd).Success?
    ensures Inv(Step(db, cmd).value)
  {
    match cmd
    case CmdCreateSeason => CreateSeasonKeepsInv(db);
    case CmdSetSeasonState(s, target, now) => SetSeasonKeepsInv(db, s, target, now);
    case CmdCreateBracket(s, kind) => CreateBracketKeepsInv(db, s, kind);
    case CmdAddPlayer(b, player) => AddPlayerKeepsInv(db, b, player);
    case CmdGeneratePairings(b, shuffled, answer) => GenerateKeepsInv(db, b, shuffled, answer);
    case CmdFinishBracket(b) => FinishBracketKeepsInv(db, b);
    case CmdSchedule(i, when) => ScheduleKeepsInv(db, i, when);
    case CmdReport(i, r1, r2) => ReportKeepsInv(db, i, r1, r2, false);
    case CmdRereport(i, r1, r2) => ReportKeepsInv(db, i, r1, r2, true);
  }

  lemma StepKeepsInv(db: Db, cmd: Command)
    requires Inv(db) && Enabled(db, cmd)
    ensures Inv(Apply(db, cmd))
  {
    if Step(db, cmd).Success? {
      SuccessKeepsInv(db, cmd);
    } else {
      FailureKeepsInv(db, cmd);
    }
  }

  lemma {:induction false} RunKeepsInv(cmds: seq<Command>, dbs: seq<Db>, i: nat)
    requires IsRun(cmds, dbs) && i < |dbs|
    ensures Inv(dbs[i])
  {
    if i == 0 {
      InitialInv();
    } else {
      RunKeepsInv(cmds, dbs, i - 1);
      assert IsStep(cmds, dbs, i - 1);
      StepKeepsInv(dbs[i - 1], cmds[i - 1]);
    }
  }

  // ----- finished is for good

  /** Whatever is finished in `db` is finished in `after`, and a finished bracket has the same rounds. */
  ghost predicate KeepsFinished(db: Db, after: Db) {
    && |db.seasons| <= |after.seasons| && |db.brackets| <= |after.brackets| && |db.races| <= |after.races|
    && (forall s | 0 <= s < |db.seasons| && db.seasons[s].state == SeasonState.Finished ::
          after.seasons[s].state == SeasonState.Finished)
    && (forall b | 0 <= b < |db.brackets| && db.brackets[b].state == BracketState.Finished ::
          after.brackets[b].state == BracketState.Finished && RoundIds(after.rounds, b) == RoundIds(db.rounds, b))
    && (forall i | 0 <= i < |db.races| && db.races[i].state == RaceState.Finished ::
          after.races[i].state == RaceState.Finished)
  }

  lemma CommitKeepsFinished(db: Db, after: Db, b: nat, pairs: seq<Pair>)
    requires b < |db.brackets| && db.brackets[b].state != BracketState.Finished
    requires CommitsRound(db, after, b, pairs)
    ensures KeepsFinished(db, after)
  {
    assert after.rounds[..|db.rounds|] == db.rounds;
    assert forall i | 0 <= i < |db.races| :: after.races[i] == after.races[..|db.races|][i];
  }

  /** What generating pairings can do to the database, whatever becomes of it. */
  ghost predicate GenerateEffect(db: Db, after: Db, b: nat) {
    || after == db
    || (b < |db.brackets| && Aborts(db, b) && after == AfterAbort(db, b))
    || (b < |db.brackets| && db.brackets[b].state != BracketState.Finished
        && (db.brackets[b].state == BracketState.Unstarted ==> RoundIds(db.rounds, b) == [])
        && exists pairs :: CommitsRound(db, after, b, pairs))
  }

  lemma GenerateHasEffect(db: Db, cmd: Command)
    requires Inv(db) && Enabled(db, cmd) && cmd.CmdGeneratePairings?
    ensures GenerateEffect(db, Apply(db, cmd), cmd.bracket)
  {
    if cmd.bracket < |db.brackets| {
      GenerateIsExact(db, cmd.bracket, cmd.shuffled, cmd.answer);
      GenerateAbortsIff(db, cmd.bracket, cmd.shuffled, cmd.answer);
    }
  }

  lemma EffectKeepsFinished(db: Db, after: Db, b: nat)
    requires GenerateEffect(db, after, b)
    ensures KeepsFinished(db, after)
  {
    if after == db {
    } else if after == AfterAbort(db, b) {
      assert after.rounds[..|db.rounds|] == db.rounds;
    } else {
      var pairs :| CommitsRound(db, after, b, pairs);
      CommitKeepsFinished(db, after, b, pairs);
    }
  }

  lemma RaceStepsKeepFinished(db: Db, cmd: Command)
    requires cmd.CmdSchedule? || cmd.CmdReport? || cmd.CmdRereport?
    ensures KeepsFinished(db, Apply(db, cmd))
  {
  }

  lemma BracketStepsKeepFinished(db: Db, cmd: Command)
    requires References(db) && SeasonsOk(db)
    requires !cmd.CmdGeneratePairings? && !cmd.CmdSchedule? && !cmd.CmdReport? && !cmd.CmdRereport?
    ensures KeepsFinished(db, Apply(db, cmd))
  {
    match cmd
    case CmdCreateSeason =>
    case CmdSetSeasonState(s, target, now) =>
    case CmdCreateBracket(s, kind) =>
    case CmdAddPlayer(x, player) =>
    case CmdFinishBracket(b) =>
  }

  lemma OtherStepsKeepFinished(db: Db, cmd: Command)
    requires References(db) && SeasonsOk(db) && !cmd.CmdGeneratePairings?
    ensures KeepsFinished(db, Apply(db, cmd))
  {
    if cmd.CmdSchedule? || cmd.CmdReport? || cmd.CmdRereport? {
      RaceStepsKeepFinished(db, cmd);
    } else {
      BracketStepsKeepFinished(db, cmd);
    }
  }

  lemma StepKeepsFinished(db: Db, cmd: Command)
    requires Inv(db) && Enabled(db, cmd)
    ensures KeepsFinished(db, Apply(db, cmd))
  {
    if cmd.CmdGeneratePairings? {
      GenerateHasEffect(db, cmd);
      EffectKeepsFinished(db, Apply(db, cmd), cmd.bracket);
    } else {
      OtherStepsKeepFinished(db, cmd);
    }
  }

  lemma KeepsFinishedTransitive(a: Db, b: Db, c: Db)
    requires KeepsFinished(a, b) && KeepsFinished(b, c)
    ensures KeepsFinished(a, c)
  {
  }

  lemma RunStepKeepsFinished(cmds: seq<Command>, dbs: seq<Db>, i: nat)
    requires IsRun(cmds, dbs) && i < |cmds|
    ensures KeepsFinished(dbs[i], dbs[i + 1])
  {
    RunKeepsInv(cmds, dbs, i);
    assert IsStep(cmds, dbs, i);
    StepKeepsFinished(dbs[i], cmds[i]);
  }

  /** Over every run no step leaves any of the three Finished states, and a finished bracket never
      gains a round. */
  lemma {:induction false} FinishedForGood(cmds: seq<Command>, dbs: seq<Db>, i: nat, j: nat)
    requires IsRun(cmds, dbs) && i <= j < |dbs|
    ensures KeepsFinished(dbs[i], dbs[j])
    decreases j
  {
    if i < j {
      FinishedForGood(cmds, dbs, i, j - 1);
      RunStepKeepsFinished(cmds, dbs, j - 1);
      KeepsFinishedTransitive(dbs[i], dbs[j - 1], dbs[j]);
    }
  }

  /** Over every run a finished season has only finished brackets, and a finished bracket has only
      finished races, in each of its rounds. */
  lemma FinishedReachesDown(cmds: seq<Command>, dbs: seq<Db>, i: nat)
    requires IsRun(cmds, dbs) && i < |dbs|
    ensures var db := dbs[i];
      && (forall b | 0 <= b < |db.brackets| && db.brackets[b].season < |db.seasons|
            && db.seasons[db.brackets[b].season].state == SeasonState.Finished ::
            db.brackets[b].state == BracketState.Finished)
      && (forall b, r | 0 <= b < |db.brackets| && db.brackets[b].state == BracketState.Finished && r in RoundsOf(db, b) ::
            AllFinished(RacesIn(db.races, r)))
  {
    var db := dbs[i];
    RunKeepsInv(cmds, dbs, i);
    forall b, r | 0 <= b < |db.brackets| && db.brackets[b].state == BracketState.Finished && r in RoundsOf(db, b)
      ensures AllFinished(RacesIn(db.races, r))
    {
      AllFinishedByRounds(db, b);
    }
  }

  // ----- an aborted round robin

  /** A round robin that is not running and has a round without races. */
  predicate Stuck(db: Db, b: nat) {
    && b < |db.brackets| && db.brackets[b].kind == RoundRobin && db.brackets[b].state != BracketState.Started
    && RoundIds(db.rounds, b) != []
    && forall i | 0 <= i < |db.races| :: db.races[i].bracket != b
  }

  lemma CommitKeepsStuck(db: Db, after: Db, b: nat, x: nat, pairs: seq<Pair>)
    requires Stuck(db, b) && x < |db.brackets| && x != b && CommitsRound(db, after, x, pairs)
    ensures Stuck(after, b)
  {
    assert after.rounds[..|db.rounds|] == db.rounds;
    forall i | 0 <= i < |after.races|
      ensures after.races[i].bracket != b
    {
      if i < |db.races| {
        assert after.races[i] == after.races[..|db.races|][i];
      } else {
        var k := i - |db.races|;
        assert after.races[|db.races| + k] == NewRace(x, |db.rounds|, pairs[k].0, pairs[k].1);
      }
    }
  }

  lemma EffectKeepsStuck(db: Db, after: Db, b: nat, x: nat)
    requires GenerateEffect(db, after, x) && Stuck(db, b)
    ensures Stuck(after, b)
  {
    if after == db {
    } else if after == AfterAbort(db, x) {
      assert after.rounds[..|db.rounds|] == db.rounds;
    } else {
      var pairs :| CommitsRound(db, after, x, pairs);
      CommitKeepsStuck(db, after, b, x, pairs);
    }
  }

  lemma RaceStepsKeepStuck(db: Db, cmd: Command, b: nat)
    requires Stuck(db, b) && (cmd.CmdSchedule? || cmd.CmdReport? || cmd.CmdRereport?)
    ensures Stuck(Apply(db, cmd), b)
  {
    if cmd.CmdSchedule? {
      ScheduleKeepsStuck(db, cmd, b);
    } else {
      ReportKeepsStuck(db, cmd, b);
    }
  }

  lemma ScheduleKeepsStuck(db: Db, cmd: Command, b: nat)
    requires Stuck(db, b) && cmd.CmdSchedule?
    ensures Stuck(Apply(db, cmd), b)
  {
  }

  lemma ReportKeepsStuck(db: Db, cmd: Command, b: nat)
    requires Stuck(db, b) && (cmd.CmdReport? || cmd.CmdRereport?)
    ensures Stuck(Apply(db, cmd), b)
  {
  }

  lemma BracketStepsKeepStuck(db: Db, cmd: Command, b: nat)
    requires Stuck(db, b) && !cmd.CmdGeneratePairings? && !cmd.CmdSchedule? && !cmd.CmdReport? && !cmd.CmdRereport?
    ensures Stuck(Apply(db, cmd), b)
  {
    match cmd
    case CmdCreateSeason =>
    case CmdSetSeasonState(s, target, now) =>
    case CmdCreateBracket(s, kind) =>
    case CmdAddPlayer(x, player) =>
    case CmdFinishBracket(x) =>
  }

  lemma OtherStepsKeepStuck(db: Db, cmd: Command, b: nat)
    requires Stuck(db, b) && !cmd.CmdGeneratePairings?
    ensures Stuck(Apply(db, cmd), b)
  {
    if cmd.CmdSchedule? || cmd.CmdReport? || cmd.CmdRereport? {
      RaceStepsKeepStuck(db, cmd, b);
    } else {
      BracketStepsKeepStuck(db, cmd, b);
    }
  }

  lemma StepKeepsStuck(db: Db, cmd: Command, b: nat)
    requires Inv(db) && Enabled(db, cmd) && Stuck(db, b)
    ensures Stuck(Apply(db, cmd), b)
  {
    if cmd.CmdGeneratePairings? {
      GenerateHasEffect(db, cmd);
      EffectKeepsStuck(db, Apply(db, cmd), b, cmd.bracket);
    } else {
      OtherStepsKeepStuck(db, cmd, b);
    }
  }

  lemma AbortIsStuck(db: Db, cmd: Command)
    requires References(db) && BracketsOk(db) && RacesConsistent(db.races) && RoundNumbers(db.rounds)
    requires cmd.CmdGeneratePairings? && cmd.bracket < |db.brackets| && Aborts(db, cmd.bracket)
    ensures Stuck(Apply(db, cmd), cmd.bracket)
  {
    GenerateAbortsIff(db, cmd.bracket, cmd.shuffled, cmd.answer);
    assert Apply(db, cmd).rounds[..|db.rounds|] == db.rounds;
  }

  lemma RunAbortIsStuck(cmds: seq<Command>, dbs: seq<Db>, i: nat)
    requires IsRun(cmds, dbs) && i < |cmds|
    requires cmds[i].CmdGeneratePairings? && cmds[i].bracket < |dbs[i].brackets| && Aborts(dbs[i], cmds[i].bracket)
    ensures Stuck(dbs[i + 1], cmds[i].bracket)
  {
    RunKeepsInv(cmds, dbs, i);
    assert IsStep(cmds, dbs, i);
    AbortIsStuck(dbs[i], cmds[i]);
  }

  lemma RunStepKeepsStuck(cmds: seq<Command>, dbs: seq<Db>, b: nat, i: nat)
    requires IsRun(cmds, dbs) && i < |cmds| && Stuck(dbs[i], b)
    ensures Stuck(dbs[i + 1], b)
  {
    RunKeepsInv(cmds, dbs, i);
    assert IsStep(cmds, dbs, i);
    StepKeepsStuck(dbs[i], cmds[i], b);
  }

  lemma {:induction false} StuckForGood(cmds: seq<Command>, dbs: seq<Db>, b: nat, i: nat, j: nat)
    requires IsRun(cmds, dbs) && i <= j < |dbs| && Stuck(dbs[i], b)
    ensures Stuck(dbs[j], b)
    decreases j
  {
    if i < j {
      StuckForGood(cmds, dbs, b, i, j - 1);
      RunStepKeepsStuck(cmds, dbs, b, j - 1);
    }
  }

  /** A round robin whose generator aborted never runs, as long as the connection is in use: entering
      players later does not help, for the round that was left behind makes every further attempt
      fail. */
  lemma AbortedNeverRuns(cmds: seq<Command>, dbs: seq<Db>, i: nat, j: nat)
    requires IsRun(cmds, dbs) && i < j < |dbs|
    requires cmds[i].CmdGeneratePairings? && cmds[i].bracket < |dbs[i].brackets| && Aborts(dbs[i], cmds[i].bracket)
    ensures Stuck(dbs[j], cmds[i].bracket)
  {
    RunAbortIsStuck(cmds, dbs, i);
    StuckForGood(cmds, dbs, cmds[i].bracket, i + 1, j);
  }

  // ----- who races whom never changes

  /** Everything that is fixed once it is there: the kind of a bracket, its entries, its rounds, and
      who races whom in a round. */
  ghost predicate KeepsMatches(db: Db, after: Db) {
    && |db.brackets| <= |after.brackets| && db.rounds <= after.rounds && |db.races| <= |after.races|
    && (forall i | 0 <= i < |db.races| :: SameMatch(db.races[i], after.races[i]))
    && (forall b | 0 <= b < |db.brackets| :: after.brackets[b].kind == db.brackets[b].kind)
    && (forall b: nat :: PlayersOf(db.entries, b) <= PlayersOf(after.entries, b))
    && (forall r | 0 <= r < |db.rounds| :: PairsIn(after.races, r) == PairsIn(db.races, r))
  }

  lemma CommitKeepsMatches(db: Db, after: Db, b: nat, pairs: seq<Pair>)
    requires b < |db.brackets| && CommitsRound(db, after, b, pairs)
    ensures KeepsMatches(db, after)
  {
    var news := after.races[|db.races|..];
    assert after.races == db.races + news;
    assert forall i | 0 <= i < |db.races| :: after.races[i] == after.races[..|db.races|][i];
    forall k | 0 <= k < |news|
      ensures news[k].round == |db.rounds|
    {
      assert after.races[|db.races| + k] == NewRace(b, |db.rounds|, pairs[k].0, pairs[k].1);
    }
    forall r | 0 <= r < |db.rounds|
      ensures PairsIn(after.races, r) == PairsIn(db.races, r)
    {
      PairsInAppend(db.races, news, r);
      PairsInAbsent(news, r);
    }
  }

  lemma RaceChangeKeepsMatches(db: Db, after: Db, i: nat)
    requires i < |db.races| && |after.races| == |db.races| && after.races == db.races[i := after.races[i]]
    requires SameMatch(db.races[i], after.races[i]) && after == db.(races := after.races, infos := after.infos)
    ensures KeepsMatches(db, after)
  {
    forall r | 0 <= r < |db.rounds|
      ensures PairsIn(after.races, r) == PairsIn(db.races, r)
    {
      PairsInUpdate(db.races, i, after.races[i], r);
    }
  }

  lemma EffectKeepsMatches(db: Db, after: Db, b: nat)
    requires GenerateEffect(db, after, b)
    ensures KeepsMatches(db, after)
  {
    if after != db && after != AfterAbort(db, b) {
      var pairs :| CommitsRound(db, after, b, pairs);
      CommitKeepsMatches(db, after, b, pairs);
    }
  }

  lemma AddPlayerKeepsMatches(db: Db, x: nat, player: int)
    ensures KeepsMatches(db, db.(entries := db.entries + [EntryRow(x, player)]))
  {
    forall b: nat
      ensures PlayersOf(db.entries, b) <= PlayersOf(db.entries + [EntryRow(x, player)], b)
    {
      PlayersAppend(db.entries, EntryRow(x, player), b);
    }
  }

  lemma ScheduleKeepsMatches(db: Db, i: nat, when: int)
    requires ScheduleRace(db, i, when).Success?
    ensures KeepsMatches(db, ScheduleRace(db, i, when).value)
  {
    RaceChangeKeepsMatches(db, ScheduleRace(db, i, when).value, i);
  }

  lemma ReportKeepsMatches(db: Db, i: nat, r1: PlayerResult, r2: PlayerResult, force: bool)
    requires ReportRace(db, i, r1, r2, force).Success?
    ensures KeepsMatches(db, ReportRace(db, i, r1, r2, force).value)
  {
    RaceChangeKeepsMatches(db, ReportRace(db, i, r1, r2, force).value, i);
  }

  lemma OtherStepsKeepMatches(db: Db, cmd: Command)
    requires !cmd.CmdGeneratePairings? && Step(db, cmd).Success?
    ensures KeepsMatches(db, Step(db, cmd).value)
  {
    match cmd
    case CmdAddPlayer(x, player) => AddPlayerKeepsMatches(db, x, player);
    case CmdSchedule(i, when) => ScheduleKeepsMatches(db, i, when);
    case CmdReport(i, r1, r2) => ReportKeepsMatches(db, i, r1, r2, false);
    case CmdRereport(i, r1, r2) => ReportKeepsMatches(db, i, r1, r2, true);
    case CmdCreateSeason =>
    case CmdSetSeasonState(s, target, now) =>
    case CmdCreateBracket(s, kind) =>
    case CmdFinishBracket(x) =>
  }

  lemma StepKeepsMatches(db: Db, cmd: Command)
    requires Inv(db) && Enabled(db, cmd)
    ensures KeepsMatches(db, Apply(db, cmd))
  {
    if cmd.CmdGeneratePairings? {
      GenerateHasEffect(db, cmd);
      EffectKeepsMatches(db, Apply(db, cmd), cmd.bracket);
    } else if Step(db, cmd).Success? {
      OtherStepsKeepMatches(db, cmd);
    }
  }

  lemma KeepsMatchesTransitive(a: Db, b: Db, c: Db)
    requires KeepsMatches(a, b) && KeepsMatches(b, c)
    ensures KeepsMatches(a, c)
  {
  }

  lemma RunStepKeepsMatches(cmds: seq<Command>, dbs: seq<Db>, i: nat)
    requires IsRun(cmds, dbs) && i < |cmds|
    ensures KeepsMatches(dbs[i], dbs[i + 1])
  {
    RunKeepsInv(cmds, dbs, i);
    assert IsStep(cmds, dbs, i);
    StepKeepsMatches(dbs[i], cmds[i]);
  }

  /** Over every run, later states keep the kinds, entries, rounds and pairs of earlier ones. */
  lemma {:induction false} RunKeepsMatches(cmds: seq<Command>, dbs: seq<Db>, i: nat, j: nat)
    requires IsRun(cmds, dbs) && i <= j < |dbs|
    ensures KeepsMatches(dbs[i], dbs[j])
    decreases j
  {
    if i < j {
      RunKeepsMatches(cmds, dbs, i, j - 1);
      RunStepKeepsMatches(cmds, dbs, j - 1);
      KeepsMatchesTransitive(dbs[i], dbs[j - 1], dbs[j]);
    }
  }

  // ----- one open race per player

  ghost predicate Disjoint(a: RaceRow, b: RaceRow) {
    a.p1 != b.p1 && a.p1 != b.p2 && a.p2 != b.p1 && a.p2 != b.p2
  }

  lemma FlattenLast(races: seq<RaceRow>, r: nat)
    requires races != []
    ensures var n := |races| - 1;
      Flatten(PairsIn(races, r)) ==
      Flatten(PairsIn(races[..n], r)) + if races[n].round == r then [races[n].p1, races[n].p2] else []
  {
    var n := |races| - 1;
    var last := [(races[n].p1, races[n].p2)];
    FlattenAppend(PairsIn(races[..n], r), last);
    assert last[1..] == [];
    assert Flatten(last) == [races[n].p1, races[n].p2];
    assert PairsIn(races[..n], r) + [] == PairsIn(races[..n], r);
  }

  lemma {:induction false} InFlatten(races: seq<RaceRow>, r: nat, i: nat) returns (x: nat)
    requires i < |races| && races[i].round == r
    ensures var all := Flatten(PairsIn(races, r));
      x + 1 < |all| && all[x] == races[i].p1 && all[x + 1] == races[i].p2
  {
    var n := |races| - 1;
    FlattenLast(races, r);
    if i == n {
      x := |Flatten(PairsIn(races[..n], r))|;
    } else {
      x := InFlatten(races[..n], r, i);
    }
  }

  lemma {:induction false} MatchingIsDisjoint(races: seq<RaceRow>, r: nat, i: nat, j: nat)
    requires Matching(PairsIn(races, r))
    requires i < j < |races| && races[i].round == r && races[j].round == r
    ensures Disjoint(races[i], races[j])
    ensures races[i].p1 != races[i].p2
  {
    var n := |races| - 1;
    var all, front := Flatten(PairsIn(races, r)), Flatten(PairsIn(races[..n], r));
    FlattenLast(races, r);
    assert forall k | 0 <= k < |front| :: front[k] == all[k];
    if j < n {
      MatchingIsDisjoint(races[..n], r, i, j);
    } else {
      var x := InFlatten(races[..n], r, i);
      assert all[|front|] == races[j].p1 && all[|front| + 1] == races[j].p2;
      assert all[x] == races[i].p1 && all[x + 1] == races[i].p2;
    }
  }

  /** Two races of one round of a Swiss bracket never share a player: always from the second round
      on, and in the first round if nobody was entered twice. */
  lemma SwissRoundIsDisjoint(db: Db, i: nat, j: nat)
    requires Inv(db) && i < j < |db.races| && db.races[i].round == db.races[j].round
    requires db.brackets[db.races[i].bracket].kind == Swiss
    requires db.rounds[db.races[i].round].num >= 2 || DistinctEntries(db, db.races[i].bracket)
    ensures Disjoint(db.races[i], db.races[j])
    ensures db.races[i].p1 != db.races[i].p2
  {
    var r := db.races[i].round;
    assert RoundShape(db, db.rounds[r].bracket, db.rounds[r].num, PairsIn(db.races, r));
    MatchingIsDisjoint(db.races, r, i, j);
  }

  /** All rounds before the last are wholly finished. */
  lemma OnlyLastRoundIsOpen(db: Db, i: nat)
    requires References(db) && RoundNumbers(db.rounds) && EarlierFinished(db)
    requires i < |db.races| && db.races[i].state != RaceState.Finished
    ensures var ids := RoundsOf(db, db.races[i].bracket);
      ids != [] && db.races[i].round == ids[|ids| - 1]
  {
    var b, r := db.races[i].bracket, db.races[i].round;
    var ids := RoundsOf(db, b);
    RoundsAreOneToK(db, b);
    RoundNumsAreConsecutive(db.rounds, b);
    RacesHaveRounds(db, b, i);
    var k :| 0 <= k < |ids| && ids[k] == r;
    if k < |ids| - 1 {
      var last := ids[|ids| - 1];
      RoundIdsMembers(db.rounds, b, last);
    }
  }

  /** In a Swiss bracket a player has at most one unfinished race. */
  lemma OneOpenRacePerPlayer(db: Db, i: nat, j: nat)
    requires Inv(db) && i < j < |db.races|
    requires db.races[i].bracket == db.races[j].bracket && db.brackets[db.races[i].bracket].kind == Swiss
    requires db.races[i].state != RaceState.Finished && db.races[j].state != RaceState.Finished
    requires DistinctEntries(db, db.races[i].bracket)
    ensures Disjoint(db.races[i], db.races[j])
  {
    OnlyLastRoundIsOpen(db, i);
    OnlyLastRoundIsOpen(db, j);
    SwissRoundIsDisjoint(db, i, j);
  }
}

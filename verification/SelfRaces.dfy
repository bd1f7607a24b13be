/** A race of a player against themself: when a round gets one, and that it blocks its bracket and its
    season for good, since no such race can ever be reported. */
module SelfRaces {
  import opened Wrappers
  import opened Results
  import opened Sequences
  import opened BracketRaces
  import opened Pairings
  import opened League
  import opened LeagueInvariant
  import opened LeagueTheorems

  predicate IsSelfRace(race: RaceRow) {
    race.p1 == race.p2
  }

  // ----- when it arises

  predicate HasSelfPair(pairs: seq<Pair>) {
    exists p | p in pairs :: p.0 == p.1
  }

  lemma {:induction false} PairOffAt(shuffled: seq<int>, k: nat)
    requires k < |PairOff(shuffled)|
    ensures 2 * k + 1 < |shuffled|
    ensures PairOff(shuffled)[k] == (shuffled[|shuffled| - 1 - 2 * k], shuffled[|shuffled| - 2 - 2 * k])
  {
    if k > 0 {
      PairOffAt(shuffled[..|shuffled| - 2], k - 1);
    }
  }

  lemma NoSelfPairInMatching(pairs: seq<Pair>)
    requires Matching(pairs)
    ensures !HasSelfPair(pairs)
  {
    if p :| p in pairs && p.0 == p.1 {
      var k :| 0 <= k < |pairs| && pairs[k] == p;
      FlattenAt(pairs, k);
    }
  }

  /** A new round has a self race exactly when it is the first round of a Swiss bracket and the shuffle
      puts two entries of one player together. */
  lemma SelfRaceArisesIff(db: Db, b: nat, shuffled: seq<int>, answer: Option<seq<Pair>>)
    requires Inv(db) && b < |db.brackets| && multiset(shuffled) == multiset(PlayersOf(db.entries, b))
    requires GeneratePairings(db, b, shuffled, answer).Success?
    ensures var after := GeneratePairings(db, b, shuffled, answer).value;
      (exists x :: |db.races| <= x < |after.races| && IsSelfRace(after.races[x])) <==>
      && db.brackets[b].state == BracketState.Unstarted && db.brackets[b].kind == Swiss
      && HasSelfPair(PairOff(shuffled))
  {
    var after := GeneratePairings(db, b, shuffled, answer).value;
    var pairs := GeneratedPairs(db, b, shuffled, answer);
    forall x | |db.races| <= x < |after.races|
      ensures after.races[x] == NewRace(b, |db.rounds|, pairs[x - |db.races|].0, pairs[x - |db.races|].1)
    {
      var k := x - |db.races|;
      assert after.races[|db.races| + k] == NewRace(b, |db.rounds|, pairs[k].0, pairs[k].1);
    }
    if p :| p in pairs && p.0 == p.1 {
      var k :| 0 <= k < |pairs| && pairs[k] == p;
      assert IsSelfRace(after.races[|db.races| + k]);
    }
  }

  /** The pairs of the new round, and when they hold a self pair. */
  lemma GeneratedPairs(db: Db, b: nat, shuffled: seq<int>, answer: Option<seq<Pair>>) returns (pairs: seq<Pair>)
    requires Inv(db) && b < |db.brackets| && multiset(shuffled) == multiset(PlayersOf(db.entries, b))
    requires GeneratePairings(db, b, shuffled, answer).Success?
    ensures CommitsRound(db, GeneratePairings(db, b, shuffled, answer).value, b, pairs)
    ensures HasSelfPair(pairs) <==>
      && db.brackets[b].state == BracketState.Unstarted && db.brackets[b].kind == Swiss
      && HasSelfPair(PairOff(shuffled))
  {
    match db.brackets[b].state
    case Unstarted =>
      pairs := InitialPairsOf(db, b, shuffled);
    case Started =>
      pairs := NextPairsOf(db, b, answer);
  }

  lemma NextPairsOf(db: Db, b: nat, answer: Option<seq<Pair>>) returns (pairs: seq<Pair>)
    requires References(db) && RacesConsistent(db.races) && RoundNumbers(db.rounds) && b < |db.brackets|
    requires db.brackets[b].state == BracketState.Started && GenerateNext(db, b, answer).Success?
    ensures CommitsRound(db, GenerateNext(db, b, answer).value, b, pairs) && !HasSelfPair(pairs)
  {
    NextSucceedsIff(db, b, answer);
    pairs := answer.value;
    WithRoundCommits(db, b, pairs);
    NoSelfPairInMatching(pairs);
  }

  lemma InitialPairsOf(db: Db, b: nat, shuffled: seq<int>) returns (pairs: seq<Pair>)
    requires RoundNumbers(db.rounds) && b < |db.brackets| && GenerateInitial(db, b, shuffled).Success?
    ensures CommitsRound(db, GenerateInitial(db, b, shuffled).value, b, pairs)
    ensures HasSelfPair(pairs) <==> db.brackets[b].kind == Swiss && HasSelfPair(PairOff(shuffled))
  {
    InitialUnfolded(db, b, shuffled);
    pairs := InitialPairs(db, b, shuffled).value;
    WithRoundCommits(db, b, pairs);
    if db.brackets[b].kind == RoundRobin {
      RoundRobinSucceedsIff(PlayersOf(db.entries, b));
      RoundRobinMembers(PlayersOf(db.entries, b));
    }
  }

  /** Some shuffle of the entries of a Swiss bracket makes a first round with a self race exactly when
      their number is even and some player is entered twice. */
  lemma SomeShuffleSelfPairsIff(players: seq<int>)
    ensures (exists shuffled :: multiset(shuffled) == multiset(players) && |shuffled| % 2 == 0 && HasSelfPair(PairOff(shuffled)))
       <==> |players| % 2 == 0 && !Distinct(players)
  {
    if shuffled :| multiset(shuffled) == multiset(players) && |shuffled| % 2 == 0 && HasSelfPair(PairOff(shuffled)) {
      assert |shuffled| == |multiset(shuffled)| == |multiset(players)| == |players|;
      SelfPairIsRepeated(shuffled);
      PermutationDistinct(shuffled, players);
    }
    if |players| % 2 == 0 && !Distinct(players) {
      var shuffled := SelfPairingShuffle(players);
    }
  }

  lemma SelfPairIsRepeated(shuffled: seq<int>)
    requires HasSelfPair(PairOff(shuffled))
    ensures !Distinct(shuffled)
  {
    var p :| p in PairOff(shuffled) && p.0 == p.1;
    var k :| 0 <= k < |PairOff(shuffled)| && PairOff(shuffled)[k] == p;
    PairOffAt(shuffled, k);
    assert shuffled[|shuffled| - 2 - 2 * k] == shuffled[|shuffled| - 1 - 2 * k];
  }

  lemma SelfPairingShuffle(players: seq<int>) returns (shuffled: seq<int>)
    requires !Distinct(players)
    ensures multiset(shuffled) == multiset(players) && |shuffled| == |players| && HasSelfPair(PairOff(shuffled))
  {
    var i, j :| 0 <= i < j < |players| && players[i] == players[j];
    var rest := players[..i] + players[i + 1..j] + players[j + 1..];
    shuffled := rest + [players[i], players[j]];
    assert players == players[..i] + [players[i]] + players[i + 1..j] + [players[j]] + players[j + 1..];
    assert |shuffled| == |players|;
    assert PairOff(shuffled)[0] == (players[j], players[i]);
    assert PairOff(shuffled)[0] in PairOff(shuffled);
  }

  // ----- it is never finished

  /** No self race is finished. */
  predicate SelfRacesOpen(db: Db) {
    forall i | 0 <= i < |db.races| && IsSelfRace(db.races[i]) :: db.races[i].state != RaceState.Finished
  }

  lemma EffectKeepsSelfOpen(db: Db, after: Db, b: nat)
    requires SelfRacesOpen(db) && GenerateEffect(db, after, b)
    ensures SelfRacesOpen(after)
  {
    if after != db && after != AfterAbort(db, b) {
      var pairs: seq<Pair> :| CommitsRound(db, after, b, pairs);
      forall i | 0 <= i < |after.races| && IsSelfRace(after.races[i])
        ensures after.races[i].state != RaceState.Finished
      {
        if i < |db.races| {
          assert after.races[i] == after.races[..|db.races|][i];
        } else {
          var k := i - |db.races|;
          assert after.races[|db.races| + k] == NewRace(b, |db.rounds|, pairs[k].0, pairs[k].1);
        }
      }
    }
  }

  lemma OtherStepsKeepSelfOpen(db: Db, cmd: Command)
    requires SelfRacesOpen(db) && !cmd.CmdGeneratePairings?
    ensures SelfRacesOpen(Apply(db, cmd))
  {
    match cmd
    case CmdCreateSeason =>
    case CmdSetSeasonState(s, target, now) =>
    case CmdCreateBracket(s, kind) =>
    case CmdAddPlayer(x, player) =>
    case CmdFinishBracket(x) =>
    case CmdSchedule(i, when) =>
    case CmdReport(i, r1, r2) =>
    case CmdRereport(i, r1, r2) =>
  }

  lemma StepKeepsSelfOpen(db: Db, cmd: Command)
    requires Inv(db) && Enabled(db, cmd) && SelfRacesOpen(db)
    ensures SelfRacesOpen(Apply(db, cmd))
  {
    if cmd.CmdGeneratePairings? {
      GenerateHasEffect(db, cmd);
      EffectKeepsSelfOpen(db, Apply(db, cmd), cmd.bracket);
    } else {
      OtherStepsKeepSelfOpen(db, cmd);
    }
  }

  lemma {:induction false} RunKeepsSelfOpen(cmds: seq<Command>, dbs: seq<Db>, i: nat)
    requires IsRun(cmds, dbs) && i < |dbs|
    ensures SelfRacesOpen(dbs[i])
  {
    if i > 0 {
      RunKeepsSelfOpen(cmds, dbs, i - 1);
      RunKeepsInv(cmds, dbs, i - 1);
      assert IsStep(cmds, dbs, i - 1);
      StepKeepsSelfOpen(dbs[i - 1], cmds[i - 1]);
    }
  }

  // ----- so it blocks

  /** Round `r` is the last of bracket `b`. */
  predicate IsLastRound(rounds: seq<RoundRow>, b: nat, r: nat) {
    RoundIds(rounds, b) != [] && r == RoundIds(rounds, b)[|RoundIds(rounds, b)| - 1]
  }

  /** Race `x` is open, in the last round of a bracket that runs, in a season that is not finished. */
  predicate Blocked(db: Db, x: nat)
    requires References(db) && x < |db.races|
  {
    var b := db.races[x].bracket;
    && db.races[x].state != RaceState.Finished
    && db.brackets[b].state == BracketState.Started
    && IsLastRound(db.rounds, b, db.races[x].round)
    && db.seasons[db.brackets[b].season].state != SeasonState.Finished
  }

  lemma OpenSelfRaceBlocks(db: Db, x: nat)
    requires Inv(db) && SelfRacesOpen(db) && x < |db.races| && IsSelfRace(db.races[x])
    ensures Blocked(db, x)
  {
    OnlyLastRoundIsOpen(db, x);
    RoundsAreOneToK(db, db.races[x].bracket);
  }

  /** A command that would get past a self race: report it, finish its bracket, make its bracket's next
      round, or finish its season. */
  predicate WouldUnblock(db: Db, cmd: Command, x: nat)
    requires References(db) && x < |db.races|
  {
    var b := db.races[x].bracket;
    match cmd
    case CmdReport(i, _, _) => i == x
    case CmdRereport(i, _, _) => i == x
    case CmdFinishBracket(c) => c == b
    case CmdGeneratePairings(c, _, _) => c == b
    case CmdSetSeasonState(s, target, _) => s == db.brackets[b].season && target == SeasonState.Finished
    case _ => false
  }

  lemma UnblockingFails(db: Db, cmd: Command, x: nat)
    requires Inv(db) && SelfRacesOpen(db) && x < |db.races| && IsSelfRace(db.races[x])
    requires Enabled(db, cmd) && WouldUnblock(db, cmd, x)
    ensures Step(db, cmd).Failure?
  {
    var b := db.races[x].bracket;
    OpenSelfRaceBlocks(db, x);
    assert !BracketDone(db, b);
    match cmd
    case CmdReport(_, _, _) =>
    case CmdRereport(_, _, _) =>
    case CmdFinishBracket(_) => FinishBracketExactly(db, b);
    case CmdGeneratePairings(_, shuffled, answer) => GenerateIsExact(db, b, shuffled, answer);
    case CmdSetSeasonState(s, target, now) => SeasonMovesExactly(db, s, target, now);
  }

  lemma SameLastRound(rounds: seq<RoundRow>, after: seq<RoundRow>, b: nat, r: nat)
    requires rounds <= after && RoundNumbers(after)
    requires IsLastRound(rounds, b, r) && IsLastRound(after, b, r)
    ensures RoundIds(after, b) == RoundIds(rounds, b)
  {
    MoreRounds(rounds, after, b);
    RoundNumsAreConsecutive(after, b);
    PrefixWithLast(RoundIds(rounds, b), RoundIds(after, b));
  }

  lemma PrefixWithLast(was: seq<nat>, now: seq<nat>)
    requires was <= now && was != [] && was[|was| - 1] == now[|now| - 1]
    requires forall j, k | 0 <= j < k < |now| :: now[j] < now[k]
    ensures now == was
  {
    assert now[|was| - 1] == was[|was| - 1];
  }

  lemma {:induction false} MoreRounds(rounds: seq<RoundRow>, after: seq<RoundRow>, b: nat)
    requires rounds <= after
    ensures RoundIds(rounds, b) <= RoundIds(after, b)
  {
    if |rounds| == |after| {
      assert rounds == after;
    } else {
      MoreRounds(rounds, after[..|after| - 1], b);
    }
  }

  lemma SelfRaceBlocksNow(cmds: seq<Command>, dbs: seq<Db>, i: nat, x: nat)
    requires IsRun(cmds, dbs) && i < |dbs| && x < |dbs[i].races| && IsSelfRace(dbs[i].races[x])
    ensures References(dbs[i]) && RoundNumbers(dbs[i].rounds) && Blocked(dbs[i], x)
  {
    RunKeepsInv(cmds, dbs, i);
    RunKeepsSelfOpen(cmds, dbs, i);
    OpenSelfRaceBlocks(dbs[i], x);
  }

  lemma RaceStays(cmds: seq<Command>, dbs: seq<Db>, i: nat, j: nat, x: nat)
    requires IsRun(cmds, dbs) && i <= j < |dbs| && x < |dbs[i].races|
    ensures x < |dbs[j].races| && SameMatch(dbs[i].races[x], dbs[j].races[x]) && dbs[i].rounds <= dbs[j].rounds
  {
    RunKeepsMatches(cmds, dbs, i, j);
  }

  /** Over every run: once there is a race of a player against themself, it is there and unfinished in
      all later states, its bracket runs and never gets another round, and its season is not finished. */
  lemma SelfRaceBlocksForGood(cmds: seq<Command>, dbs: seq<Db>, i: nat, j: nat, x: nat)
    requires IsRun(cmds, dbs) && i <= j < |dbs| && x < |dbs[i].races| && IsSelfRace(dbs[i].races[x])
    ensures References(dbs[j]) && x < |dbs[j].races| && SameMatch(dbs[i].races[x], dbs[j].races[x]) && Blocked(dbs[j], x)
    ensures RoundIds(dbs[j].rounds, dbs[i].races[x].bracket) == RoundIds(dbs[i].rounds, dbs[i].races[x].bracket)
  {
    RaceStays(cmds, dbs, i, j, x);
    SelfRaceBlocksNow(cmds, dbs, j, x);
    SelfRaceRoundIsLast(cmds, dbs, i, j, x);
  }

  lemma SelfRaceInLastRound(cmds: seq<Command>, dbs: seq<Db>, i: nat, x: nat)
    requires IsRun(cmds, dbs) && i < |dbs| && x < |dbs[i].races| && IsSelfRace(dbs[i].races[x])
    ensures RoundNumbers(dbs[i].rounds) && IsLastRound(dbs[i].rounds, dbs[i].races[x].bracket, dbs[i].races[x].round)
  {
    SelfRaceBlocksNow(cmds, dbs, i, x);
  }

  lemma SelfRaceRoundIsLast(cmds: seq<Command>, dbs: seq<Db>, i: nat, j: nat, x: nat)
    requires IsRun(cmds, dbs) && i <= j < |dbs| && x < |dbs[i].races| && IsSelfRace(dbs[i].races[x])
    ensures RoundIds(dbs[j].rounds, dbs[i].races[x].bracket) == RoundIds(dbs[i].rounds, dbs[i].races[x].bracket)
  {
    SelfRaceInLastRound(cmds, dbs, i, x);
    RaceStays(cmds, dbs, i, j, x);
    SelfRaceInLastRound(cmds, dbs, j, x);
    SameLastRound(dbs[i].rounds, dbs[j].rounds, dbs[i].races[x].bracket, dbs[i].races[x].round);
  }

  /** In every run, every command that would report such a race, finish its bracket, make its bracket's
      next round or finish its season fails. */
  lemma UnblockingFailsInRun(cmds: seq<Command>, dbs: seq<Db>, i: nat, x: nat)
    requires IsRun(cmds, dbs) && i < |cmds| && x < |dbs[i].races| && IsSelfRace(dbs[i].races[x])
    requires References(dbs[i]) ==> WouldUnblock(dbs[i], cmds[i], x)
    ensures Step(dbs[i], cmds[i]).Failure?
  {
    RunKeepsInv(cmds, dbs, i);
    RunKeepsSelfOpen(cmds, dbs, i);
    assert IsStep(cmds, dbs, i);
    UnblockingFails(dbs[i], cmds[i], x);
  }
}

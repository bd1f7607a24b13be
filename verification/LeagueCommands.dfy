/** What the commands refuse and why, and what they leave behind then: the handlers' errors, case by
    case, for the league's database. */
module LeagueCommands {
  import opened Wrappers
  import opened Results
  import opened Sequences
  import opened BracketRaces
  import opened Pairings
  import opened League
  import opened LeagueInvariant
  import opened LeagueTheorems

  // ----- entries

  /** A player is listed for a bracket as often as there is an entry row. */
  lemma {:induction false} PlayersAreEntries(entries: seq<EntryRow>, b: nat, p: int)
    ensures multiset(PlayersOf(entries, b))[p] == multiset(entries)[EntryRow(b, p)]
  {
    if entries != [] {
      var n := |entries| - 1;
      assert entries == entries[..n] + [entries[n]];
      PlayersAreEntries(entries[..n], b, p);
    }
  }

  predicate SeasonOver(db: Db, s: nat) {
    s < |db.seasons| && db.seasons[s].state == SeasonState.Finished
  }

  /** A bracket can be created in, and players entered for, any season that is there and not finished,
      whatever the state of the bracket. */
  lemma CreatingAndEntering(db: Db, s: nat, kind: BracketType, b: nat, p: int)
    requires Inv(db)
    ensures CreateBracket(db, s, kind) ==
      if s < |db.seasons| && !SeasonOver(db, s)
      then Success(db.(brackets := db.brackets + [BracketRow(s, BracketState.Unstarted, kind)])) else Failure(NotFound)
    ensures AddPlayer(db, b, p) ==
      if b < |db.brackets| && !SeasonOver(db, db.brackets[b].season)
      then Success(db.(entries := db.entries + [EntryRow(b, p)])) else Failure(NotFound)
  {
  }

  // ----- a finished season

  /** Nothing is added to the season: no bracket, and to its brackets no entry, no round and no race. */
  ghost predicate Frozen(db: Db, after: Db, s: nat) {
    && |db.brackets| <= |after.brackets| && |db.races| <= |after.races|
    && (forall b | |db.brackets| <= b < |after.brackets| :: after.brackets[b].season != s)
    && (forall b | 0 <= b < |db.brackets| :: after.brackets[b].season == db.brackets[b].season)
    && (forall b | 0 <= b < |db.brackets| && db.brackets[b].season == s ::
          PlayersOf(after.entries, b) == PlayersOf(db.entries, b) && RoundIds(after.rounds, b) == RoundIds(db.rounds, b))
    && (forall i | |db.races| <= i < |after.races| && after.races[i].bracket < |db.brackets| ::
          db.brackets[after.races[i].bracket].season != s)
  }

  lemma AddPlayerFreezes(db: Db, b: nat, p: int, s: nat)
    requires b < |db.brackets| && db.brackets[b].season != s
    ensures Frozen(db, db.(entries := db.entries + [EntryRow(b, p)]), s)
  {
    forall x: nat | x < |db.brackets| && db.brackets[x].season == s
      ensures PlayersOf(db.entries + [EntryRow(b, p)], x) == PlayersOf(db.entries, x)
    {
      PlayersAppend(db.entries, EntryRow(b, p), x);
    }
  }

  lemma EffectFreezes(db: Db, after: Db, b: nat, s: nat)
    requires References(db) && SeasonsOk(db) && SeasonOver(db, s) && GenerateEffect(db, after, b)
    ensures Frozen(db, after, s)
  {
    if after == db {
    } else if after == AfterAbort(db, b) {
      assert after.rounds[..|db.rounds|] == db.rounds;
    } else {
      var pairs: seq<Pair> :| CommitsRound(db, after, b, pairs);
      assert after.rounds[..|db.rounds|] == db.rounds;
      forall i | |db.races| <= i < |after.races|
        ensures after.races[i].bracket == b
      {
        var k := i - |db.races|;
        assert after.races[|db.races| + k] == NewRace(b, |db.rounds|, pairs[k].0, pairs[k].1);
      }
    }
  }

  lemma RaceStepsFreeze(db: Db, cmd: Command, s: nat)
    requires cmd.CmdSchedule? || cmd.CmdReport? || cmd.CmdRereport?
    ensures Frozen(db, Apply(db, cmd), s)
  {
  }

  lemma CreateBracketStepFreezes(db: Db, x: nat, kind: BracketType, s: nat)
    requires Inv(db) && SeasonOver(db, s)
    ensures Frozen(db, Apply(db, CmdCreateBracket(x, kind)), s)
  {
    CreatingAndEntering(db, x, kind, 0, 0);
    if CreateBracket(db, x, kind).Success? {
      NewBracketFreezes(db, BracketRow(x, BracketState.Unstarted, kind), s);
    }
  }

  lemma NewBracketFreezes(db: Db, row: BracketRow, s: nat)
    requires row.season != s
    ensures Frozen(db, db.(brackets := db.brackets + [row]), s)
  {
  }

  lemma AddPlayerStepFreezes(db: Db, b: nat, p: int, s: nat)
    requires Inv(db) && SeasonOver(db, s)
    ensures Frozen(db, Apply(db, CmdAddPlayer(b, p)), s)
  {
    CreatingAndEntering(db, 0, Swiss, b, p);
    if AddPlayer(db, b, p).Success? {
      AddPlayerFreezes(db, b, p, s);
    }
  }

  lemma OtherStepsFreeze(db: Db, cmd: Command, s: nat)
    requires Inv(db) && SeasonOver(db, s)
    requires !cmd.CmdGeneratePairings? && !cmd.CmdSchedule? && !cmd.CmdReport? && !cmd.CmdRereport?
    ensures Frozen(db, Apply(db, cmd), s)
  {
    match cmd
    case CmdCreateBracket(x, kind) => CreateBracketStepFreezes(db, x, kind, s);
    case CmdAddPlayer(b, p) => AddPlayerStepFreezes(db, b, p, s);
    case CmdCreateSeason =>
    case CmdSetSeasonState(_, _, _) => StateStepsFreeze(db, cmd, s);
    case CmdFinishBracket(_) => StateStepsFreeze(db, cmd, s);
  }

  lemma StateStepsFreeze(db: Db, cmd: Command, s: nat)
    requires cmd.CmdSetSeasonState? || cmd.CmdFinishBracket?
    ensures Frozen(db, Apply(db, cmd), s)
  {
  }

  lemma StepFreezes(db: Db, cmd: Command, s: nat)
    requires Inv(db) && Enabled(db, cmd) && SeasonOver(db, s)
    ensures Frozen(db, Apply(db, cmd), s)
  {
    if cmd.CmdGeneratePairings? {
      GenerateHasEffect(db, cmd);
      EffectFreezes(db, Apply(db, cmd), cmd.bracket, s);
    } else if cmd.CmdSchedule? || cmd.CmdReport? || cmd.CmdRereport? {
      RaceStepsFreeze(db, cmd, s);
    } else {
      OtherStepsFreeze(db, cmd, s);
    }
  }

  lemma FrozenTransitive(a: Db, b: Db, c: Db, s: nat)
    requires Frozen(a, b, s) && Frozen(b, c, s) && forall i | 0 <= i < |b.races| :: SameMatch(b.races[i], c.races[i])
    ensures Frozen(a, c, s)
  {
    assert forall i | |a.races| <= i < |b.races| :: c.races[i].bracket == b.races[i].bracket;
  }

  lemma RunStepFreezes(cmds: seq<Command>, dbs: seq<Db>, i: nat, s: nat)
    requires IsRun(cmds, dbs) && i < |cmds| && SeasonOver(dbs[i], s)
    ensures Frozen(dbs[i], dbs[i + 1], s)
    ensures |dbs[i].races| <= |dbs[i + 1].races| && forall k | 0 <= k < |dbs[i].races| :: SameMatch(dbs[i].races[k], dbs[i + 1].races[k])
  {
    RunKeepsInv(cmds, dbs, i);
    RunKeepsMatches(cmds, dbs, i, i + 1);
    assert IsStep(cmds, dbs, i);
    StepFreezes(dbs[i], cmds[i], s);
  }

  /** Over every run a finished season is frozen: it gets no bracket any more, and its brackets get no
      entry, no round and no race. */
  lemma {:induction false} FinishedSeasonIsFrozen(cmds: seq<Command>, dbs: seq<Db>, i: nat, j: nat, s: nat)
    requires IsRun(cmds, dbs) && i <= j < |dbs| && SeasonOver(dbs[i], s)
    ensures Frozen(dbs[i], dbs[j], s)
    decreases j
  {
    if i < j {
      FinishedSeasonIsFrozen(cmds, dbs, i, j - 1, s);
      FinishedForGood(cmds, dbs, i, j - 1);
      RunStepFreezes(cmds, dbs, j - 1, s);
      FrozenTransitive(dbs[i], dbs[j - 1], dbs[j], s);
    }
  }

  // ----- races: why a report is refused, and what it leaves

  function ReportRefusal(race: RaceRow, again: bool): Option<Error> {
    if race.p1 == race.p2 then Some(PlayerNotFound)
    else if again && race.state != RaceState.Finished then Some(NotYetReported)
    else if !again && race.state == RaceState.Finished then Some(RaceStateError(RaceError.InvalidState(RaceState.Finished)))
    else None
  }

  /** Why scheduling and reporting are refused. A refused report changes no race; it leaves the info rows
      as they were, with one more if the race had none. */
  lemma RaceRefusals(db: Db, i: nat, when: int, r1: PlayerResult, r2: PlayerResult, again: bool)
    requires InfosOk(db.races, db.infos) && i < |db.races|
    ensures db.races[i].state == RaceState.Finished ==>
      ScheduleRace(db, i, when) == Failure(RaceStateError(RaceError.InvalidState(RaceState.Finished)))
    ensures var r := ReportRace(db, i, r1, r2, again);
      (if r.Failure? then Some(r.error) else None) == ReportRefusal(db.races[i], again)
    ensures var cmd := if again then CmdRereport(i, r1, r2) else CmdReport(i, r1, r2);
      var after := Apply(db, cmd);
      && (Step(db, cmd).Failure? ==> after == db.(infos := after.infos))
      && db.infos <= after.infos
      && (exists info | info in after.infos :: info.race == i)
      && (forall info | info in after.infos :: info in db.infos || info == InfoRow(i, None, None))
      && (forall j, k | 0 <= j < k < |after.infos| :: after.infos[j].race != after.infos[k].race)
  {
    ReportInfos(db, i);
    ReportLeavesInfos(db, i, r1, r2, again);
  }

  lemma ReportLeavesInfos(db: Db, i: nat, r1: PlayerResult, r2: PlayerResult, again: bool)
    requires i < |db.races|
    ensures var cmd := if again then CmdRereport(i, r1, r2) else CmdReport(i, r1, r2);
      && Apply(db, cmd).infos == WithInfo(db.infos, i)
      && (Step(db, cmd).Failure? ==> Apply(db, cmd) == db.(infos := WithInfo(db.infos, i)))
  {
  }

  /** A report that is accepted stores each player's own result, with the outcome that follows, and changes
      no other race. */
  lemma ReportsStore(db: Db, cmd: Command)
    requires (cmd.CmdReport? || cmd.CmdRereport?) && Step(db, cmd).Success?
    ensures cmd.race < |db.races| && db.races[cmd.race].p1 != db.races[cmd.race].p2
    ensures cmd.CmdRereport? <==> db.races[cmd.race].state == RaceState.Finished
    ensures Apply(db, cmd).races == db.races[cmd.race := db.races[cmd.race].(
      state := RaceState.Finished, r1 := Some(cmd.r1), r2 := Some(cmd.r2), outcome := Some(
        if Beats(cmd.r1, cmd.r2) then P1Win else if Beats(cmd.r2, cmd.r1) then P2Win else Tie))]
  {
    OutcomeFollowsBeats(cmd.r1, cmd.r2);
  }

  lemma ReportInfos(db: Db, i: nat)
    requires InfosOk(db.races, db.infos) && i < |db.races|
    ensures var after := WithInfo(db.infos, i);
      && db.infos <= after
      && (exists info | info in after :: info.race == i)
      && (forall info | info in after :: info in db.infos || info == InfoRow(i, None, None))
      && (forall j, k | 0 <= j < k < |after| :: after[j].race != after[k].race)
  {
    var j := InfoIndex(db.infos, i);
    var after := WithInfo(db.infos, i);
    assert after[j].race == i && after[j] in after;
  }

  // ----- pairings: why they are refused

  /** Why no pairings are generated: the first thing in the way, in the order in which it is looked for.
      `d` players are entered, counted once each. */
  ghost predicate GenerateRefusal(db: Db, b: nat, answer: Option<seq<Pair>>, e: Error)
    requires b < |db.brackets|
  {
    var players := PlayersOf(db.entries, b);
    match db.brackets[b].state
    case Finished => e == Error.InvalidState
    case Unstarted =>
      if RoundIds(db.rounds, b) != [] then e == Error.InvalidState
      else if db.brackets[b].kind == Swiss then |players| % 2 == 1 && e == Pairing(OddPlayerCount)
      else if players == [] then e == Aborted
      else
        var d := |set p | p in players|;
        d < |players| && e == Pairing(WrongPairCount(|players| * (|players| - 1) / 2, d * (d - 1) / 2))
    case Started =>
      if db.brackets[b].kind == RoundRobin then e == AlreadyGenerated
      else if !BracketDone(db, b) then e == NotConvertible
      else if answer.None? then e == LibraryError
      else exists k | 0 <= k < |Flatten(answer.value)| :: FirstInTheWay(db, b, Flatten(answer.value), k, e)
  }

  /** The first player of the answer who is not entered, or was named before. */
  ghost predicate FirstInTheWay(db: Db, b: nat, ids: seq<int>, k: nat, e: Error)
    requires k < |ids|
  {
    && e == Pairing(CannotFindPlayer(ids[k]))
    && (EntryRow(b, ids[k]) !in db.entries || exists j | 0 <= j < k :: ids[j] == ids[k])
    && (forall i | 0 <= i < k :: EntryRow(b, ids[i]) in db.entries)
    && (forall i, j | 0 <= i < j < k :: ids[i] != ids[j])
  }

  lemma EnteredIffRow(db: Db, b: nat, p: int)
    ensures p in EnteredIn(db.entries, b) <==> EntryRow(b, p) in db.entries
  {
    PlayersAreEntries(db.entries, b, p);
    assert p in PlayersOf(db.entries, b) <==> multiset(PlayersOf(db.entries, b))[p] > 0;
    assert EntryRow(b, p) in db.entries <==> multiset(db.entries)[EntryRow(b, p)] > 0;
  }

  lemma AnswerRefusal(db: Db, b: nat, pairings: seq<Pair>) returns (k: nat)
    requires Taken(EnteredIn(db.entries, b), pairings).Failure?
    ensures k < |Flatten(pairings)|
    ensures FirstInTheWay(db, b, Flatten(pairings), k, Pairing(Taken(EnteredIn(db.entries, b), pairings).error))
  {
    var entered, ids := EnteredIn(db.entries, b), Flatten(pairings);
    k := FirstMissing(entered, ids, 0).value;
    EnteredIffRow(db, b, ids[k]);
    forall i | 0 <= i < k
      ensures EntryRow(b, ids[i]) in db.entries
    {
      assert !Missing(entered, ids, i);
      EnteredIffRow(db, b, ids[i]);
    }
    forall i, j | 0 <= i < j < k
      ensures ids[i] != ids[j]
    {
      assert !Missing(entered, ids, j);
      assert ids[..j][i] == ids[i];
    }
    if ids[k] in ids[..k] {
      var j :| 0 <= j < k && ids[..k][j] == ids[k];
      assert ids[j] == ids[k];
    }
  }

  lemma NextRefusal(db: Db, b: nat, answer: Option<seq<Pair>>)
    requires References(db) && RacesConsistent(db.races) && RoundNumbers(db.rounds)
    requires b < |db.brackets| && db.brackets[b].state == BracketState.Started && GenerateNext(db, b, answer).Failure?
    ensures GenerateRefusal(db, b, answer, GenerateNext(db, b, answer).error)
  {
    NextUnfolded(db, b, answer);
    if db.brackets[b].kind == Swiss && BracketDone(db, b) && answer.Some? {
      if Taken(EnteredIn(db.entries, b), answer.value).Failure? {
        var k := AnswerRefusal(db, b, answer.value);
      }
    }
  }

  lemma NextUnfolded(db: Db, b: nat, answer: Option<seq<Pair>>)
    requires References(db) && RacesConsistent(db.races) && RoundNumbers(db.rounds) && b < |db.brackets|
    ensures var r := GenerateNext(db, b, answer);
      if db.brackets[b].kind == RoundRobin then r == Failure(AlreadyGenerated)
      else if !BracketDone(db, b) then r == Failure(NotConvertible)
      else if answer.None? then r == Failure(LibraryError)
      else
        var taken := Taken(EnteredIn(db.entries, b), answer.value);
        taken.Success? == r.Success? && (taken.Failure? ==> r == Failure(Pairing(taken.error)))
  {
    NextNumberUnfolded(db, b);
    NextNumIsFree(db, b);
  }

  lemma NextNumberUnfolded(db: Db, b: nat)
    requires References(db) && RacesConsistent(db.races) && RoundNumbers(db.rounds) && b < |db.brackets|
    ensures NextNumber(db, b) ==
      if db.brackets[b].kind == RoundRobin then Failure(AlreadyGenerated)
      else if !BracketDone(db, b) then Failure(NotConvertible)
      else Success(|RoundIds(db.rounds, b)| + 1)
  {
    HighestIsCount(db, b);
    ConvertIffFinished(db, b);
    NumberIs(db, b, BracketDone(db, b), |RoundIds(db.rounds, b)|);
  }

  lemma NumberIs(db: Db, b: nat, converts: bool, highest: int)
    requires b < |db.brackets| && AscendingNums(db.rounds, RoundsOf(db, b))
    requires RoundsConvert(db.races, RoundsOf(db, b)) == converts && HighestNum(db.rounds, RoundsOf(db, b)) == highest
    ensures NextNumber(db, b) ==
      if db.brackets[b].kind == RoundRobin then Failure(AlreadyGenerated)
      else if !converts then Failure(NotConvertible)
      else Success(highest + 1)
  {
  }

  lemma HighestIsCount(db: Db, b: nat)
    requires RoundNumbers(db.rounds)
    ensures AscendingNums(db.rounds, RoundsOf(db, b)) && HighestNum(db.rounds, RoundsOf(db, b)) == |RoundIds(db.rounds, b)|
  {
    NextNum(db, b);
  }

  lemma NextNumIsFree(db: Db, b: nat)
    requires RoundNumbers(db.rounds)
    ensures !RoundExists(db, b, |RoundIds(db.rounds, b)| + 1)
  {
    NextNum(db, b);
  }

  lemma UniqueIsSet(players: seq<int>)
    ensures |Unique(players)| == |set p | p in players|
  {
    var ids := Unique(players);
    UniqueMembers(players);
    DistinctCount(ids);
    assert (set p | p in players) == (set p | p in ids);
  }

  lemma {:induction false} DistinctCount(ids: seq<int>)
    requires Distinct(ids)
    ensures |set p | p in ids| == |ids|
  {
    if ids != [] {
      var rest := ids[1..];
      DistinctCount(rest);
      assert ids == [ids[0]] + rest;
      assert (set p | p in ids) == {ids[0]} + (set p | p in rest);
    }
  }

  lemma RoundRobinRefusal(players: seq<int>)
    requires players != [] && CheckedRoundRobin(players).Failure?
    ensures var d := |set p | p in players|;
      d < |players| && CheckedRoundRobin(players).error == WrongPairCount(|players| * (|players| - 1) / 2, d * (d - 1) / 2)
  {
    var n, d := |players|, |Unique(players)|;
    UniqueIsSet(players);
    RoundRobinCount(players);
    RoundRobinAcceptsIffDistinct(players);
    Halves(|RoundRobinPairs(players)|, d * (d - 1));
    if d >= n {
      UniqueMembers(players);
      NoFewerIsDistinct(players);
    }
  }

  lemma OneMorePlayer(players: seq<int>)
    requires players != []
    ensures var was := set p | p in players[1..]; |set p | p in players| == |was| + if players[0] in was then 0 else 1
  {
    var rest := players[1..];
    assert players == [players[0]] + rest;
    assert (set p | p in players) == {players[0]} + (set p | p in rest);
  }

  lemma {:induction false} NoFewerIsDistinct(players: seq<int>)
    ensures |set p | p in players| <= |players|
    ensures |set p | p in players| == |players| ==> Distinct(players)
  {
    if players != [] {
      NoFewerIsDistinct(players[1..]);
      OneMorePlayer(players);
    }
  }

  lemma InitialRefusal(db: Db, b: nat, shuffled: seq<int>, answer: Option<seq<Pair>>)
    requires RoundNumbers(db.rounds) && b < |db.brackets| && db.brackets[b].state == BracketState.Unstarted
    requires multiset(shuffled) == multiset(PlayersOf(db.entries, b)) && GenerateInitial(db, b, shuffled).Failure?
    ensures GenerateRefusal(db, b, answer, GenerateInitial(db, b, shuffled).error)
  {
    var players := PlayersOf(db.entries, b);
    SwissSucceedsIff(shuffled, players);
    if RoundIds(db.rounds, b) == [] {
      InitialUnfolded(db, b, shuffled);
      if db.brackets[b].kind == RoundRobin && players != [] {
        RoundRobinRefusal(players);
      }
    }
  }

  /** In every reachable state, when pairings are refused, the error names the first thing in the way. */
  lemma GenerateRefusals(db: Db, b: nat, shuffled: seq<int>, answer: Option<seq<Pair>>)
    requires Inv(db) && b < |db.brackets| && multiset(shuffled) == multiset(PlayersOf(db.entries, b))
    requires GeneratePairings(db, b, shuffled, answer).Failure?
    ensures GenerateRefusal(db, b, answer, GeneratePairings(db, b, shuffled, answer).error)
  {
    match db.brackets[b].state
    case Unstarted => InitialRefusal(db, b, shuffled, answer);
    case Started => NextRefusal(db, b, answer);
    case Finished =>
  }

  // ----- seasons and brackets

  /** A season that is all ready to finish but for its brackets says so; any other move but staying or
      moving one state on is refused as such. A bracket with an unfinished race cannot be finished. */
  lemma SeasonAndBracketRefusals(db: Db, s: nat, target: SeasonState, now: int, b: nat)
    requires s < |db.seasons| && b < |db.brackets|
    ensures SetSeasonState(db, s, target, now).Failure? ==>
      SetSeasonState(db, s, target, now).error ==
        if db.seasons[s].state == SeasonState.Started && target == SeasonState.Finished then BracketNotFinished
        else SeasonStateError
    ensures FinishBracket(db, b).Failure? ==> FinishBracket(db, b).error == BracketNotFinished
  {
  }
}

/** The standings of a bracket in the database: which races they count, and what follows for whole
    runs: src/models/brackets.rs, `standings`. */
module LeagueStandings {
  import opened Wrappers
  import opened Results
  import opened Sequences
  import opened BracketRaces
  import opened Pairings
  import opened Standings
  import opened StandingsLaws
  import opened StandingsRecord
  import opened League
  import opened LeagueInvariant
  import opened LeagueTheorems

  predicate AllComplete(rows: seq<RaceRow>) {
    forall row | row in rows :: row.outcome.Some?
  }

  /** The rows that survive the conversion filter. */
  function CountedIn(rows: seq<RaceRow>): seq<CountedRace> {
    if rows == [] then []
    else
      var n := |rows| - 1;
      var last := TryCount(rows[n]);
      CountedIn(rows[..n]) + if last.Some? then [last.value] else []
  }

  /** The races of some rounds, round by round. */
  function RoundRows(races: seq<RaceRow>, ids: seq<nat>): (rounds: seq<seq<RaceRow>>)
    ensures |rounds| == |ids| && forall k | 0 <= k < |ids| :: rounds[k] == RacesIn(races, ids[k])
  {
    seq(|ids|, k requires 0 <= k < |ids| => RacesIn(races, ids[k]))
  }

  /** From the `i`-th round on; the rounds of a Swiss bracket stop counting at the first incomplete
      one. */
  function CountedFrom(rounds: seq<seq<RaceRow>>, i: nat, isRoundRobin: bool): seq<CountedRace>
    requires i <= |rounds|
    decreases |rounds| - i
  {
    if i == |rounds| then []
    else if !isRoundRobin && !AllComplete(rounds[i]) then []
    else CountedIn(rounds[i]) + CountedFrom(rounds, i + 1, isRoundRobin)
  }

  function CountedRaces(db: Db, b: nat): seq<CountedRace>
    requires b < |db.brackets|
  {
    CountedFrom(RoundRows(db.races, RoundsOf(db, b)), 0, db.brackets[b].kind == RoundRobin)
  }

  lemma CountedStep(rounds: seq<seq<RaceRow>>, i: nat, isRoundRobin: bool, counted: seq<CountedRace>)
    requires i < |rounds|
    ensures counted + CountedFrom(rounds, i, isRoundRobin) ==
      if !isRoundRobin && !AllComplete(rounds[i]) then counted
      else counted + CountedIn(rounds[i]) + CountedFrom(rounds, i + 1, isRoundRobin)
  {
  }

  /** The loop that collects the races of some rounds, with its early exit. */
  method CollectRaces(races: seq<RaceRow>, rounds: seq<nat>, isRoundRobin: bool) returns (counted: seq<CountedRace>)
    ensures counted == CountedFrom(RoundRows(races, rounds), 0, isRoundRobin)
  {
    counted := [];
    ghost var all := CountedFrom(RoundRows(races, rounds), 0, isRoundRobin);
    for i := 0 to |rounds|
      invariant all == counted + CountedFrom(RoundRows(races, rounds), i, isRoundRobin)
    {
      CountedStep(RoundRows(races, rounds), i, isRoundRobin, counted);
      var rows := RacesIn(races, rounds[i]);
      if !isRoundRobin && !AllComplete(rows) {
        return;
      }
      counted := counted + CountedIn(rows);
    }
  }

  method BracketStandings(db: Db, b: nat) returns (r: Result<seq<PlayerInfo>, StandingsError>)
    requires b < |db.brackets|
    ensures r == Failure(BracketUnstarted) <==> db.brackets[b].state == BracketState.Unstarted
    ensures r == Failure(TimeOverflow) <==>
      db.brackets[b].state != BracketState.Unstarted && TimesOverflow(Appearances(CountedRaces(db, b)))
    ensures r.Success? ==> IsRanking(Appearances(CountedRaces(db, b)), r.value)
    ensures r.Success? && RacesConsistent(db.races) ==>
      exists rows :: CountingRows(db, b, rows) && RankedByRows(rows, r.value)
  {
    if db.brackets[b].state == BracketState.Unstarted {
      return Failure(BracketUnstarted);
    }
    var races := CollectRaces(db.races, RoundsOf(db, b), db.brackets[b].kind == RoundRobin);
    r := Standings.Standings(races);
    if r.Success? && RacesConsistent(db.races) {
      ghost var rows := CountedRacesAreRows(db, b);
      ghost var counted := CountedRaces(db, b);
      assert RankedByRows(rows, r.value) by {
        CountedAreDecided(counted, rows);
        RankingFollowsRecord(counted, r.value);
        assert AllCountedAs(counted, rows) && RankedByRecord(counted, r.value);
      }
    }
  }

  // ----- no race of a completed round is dropped

  /** The race as the standings count it: its players, its results, and the outcome that follows. */
  predicate CountedAs(c: CountedRace, row: RaceRow) {
    && row.r1.Some? && row.r2.Some?
    && c == CountedRace(row.p1, row.p2, row.r1.value, row.r2.value, OutcomeOf(row.r1.value, row.r2.value))
  }

  /** One by one, in order, none dropped and none added. */
  ghost predicate AllCountedAs(counted: seq<CountedRace>, rows: seq<RaceRow>) {
    |counted| == |rows| && forall k | 0 <= k < |rows| :: CountedAs(counted[k], rows[k])
  }

  lemma {:induction false} CompleteRowsAllCount(rows: seq<RaceRow>)
    requires AllComplete(rows) && forall row | row in rows :: Consistent(row)
    ensures AllCountedAs(CountedIn(rows), rows)
  {
    if rows != [] {
      var n := |rows| - 1;
      assert rows == rows[..n] + [rows[n]];
      assert rows[n] in rows;
      CompleteRowsAllCount(rows[..n]);
    }
  }

  lemma RowsAreConsistent(races: seq<RaceRow>, ids: seq<nat>)
    requires RacesConsistent(races)
    ensures AllConsistent(RoundRows(races, ids))
  {
    forall k, row | 0 <= k < |ids| && row in RacesIn(races, ids[k])
      ensures Consistent(row)
    {
      RacesInMembers(races, ids[k]);
      var i :| 0 <= i < |races| && races[i] == row;
    }
  }

  predicate AllConsistent(rounds: seq<seq<RaceRow>>) {
    forall k | 0 <= k < |rounds| :: forall row | row in rounds[k] :: Consistent(row)
  }

  /** The races of rounds `i` to `k`, one round after the other. */
  function AllRacesOf(rounds: seq<seq<RaceRow>>, i: nat, k: nat): seq<RaceRow>
    requires i <= k <= |rounds|
    decreases k - i
  {
    if i == k then [] else rounds[i] + AllRacesOf(rounds, i + 1, k)
  }

  /** The `k`-th round is the first that holds an unfinished race. */
  ghost predicate FirstOpen(rounds: seq<seq<RaceRow>>, k: nat)
    requires k <= |rounds|
  {
    && (forall j, row | 0 <= j < k && row in rounds[j] :: row.state == RaceState.Finished)
    && (k < |rounds| ==> exists row | row in rounds[k] :: row.state != RaceState.Finished)
  }

  /** A round is complete when all its races are finished. */
  lemma CompleteIffFinished(rounds: seq<seq<RaceRow>>, k: nat)
    requires AllConsistent(rounds) && k < |rounds|
    ensures AllComplete(rounds[k]) <==> forall row | row in rounds[k] :: row.state == RaceState.Finished
  {
    assert forall row | row in rounds[k] :: Consistent(row);
  }

  lemma {:induction false} FirstOpenRound(rounds: seq<seq<RaceRow>>, k: nat) returns (open: nat)
    requires k <= |rounds| && forall j, row | 0 <= j < k && row in rounds[j] :: row.state == RaceState.Finished
    ensures open <= |rounds| && FirstOpen(rounds, open)
    decreases |rounds| - k
  {
    if k == |rounds| || exists row | row in rounds[k] :: row.state != RaceState.Finished {
      open := k;
    } else {
      open := FirstOpenRound(rounds, k + 1);
    }
  }

  // ----- a round robin shows what is finished so far

  /** The finished ones of some races. */
  function FinishedOnly(rows: seq<RaceRow>): seq<RaceRow> {
    if rows == [] then []
    else (if rows[0].state == RaceState.Finished then [rows[0]] else []) + FinishedOnly(rows[1..])
  }

  lemma {:induction false} FinishedAppend(rows: seq<RaceRow>, others: seq<RaceRow>)
    ensures FinishedOnly(rows + others) == FinishedOnly(rows) + FinishedOnly(others)
  {
    if rows == [] {
      assert rows + others == others;
    } else {
      var all := rows + others;
      assert all[0] == rows[0] && all[1..] == rows[1..] + others;
      FinishedAppend(rows[1..], others);
    }
  }

  lemma {:induction false} FinishedRowsCount(rows: seq<RaceRow>)
    requires forall row | row in rows :: Consistent(row)
    ensures AllCountedAs(CountedIn(rows), FinishedOnly(rows))
  {
    if rows != [] {
      var n := |rows| - 1;
      assert rows == rows[..n] + [rows[n]];
      assert rows[n] in rows;
      FinishedRowsCount(rows[..n]);
      FinishedAppend(rows[..n], [rows[n]]);
    }
  }

  lemma {:induction false} FinishedRoundsCount(rounds: seq<seq<RaceRow>>, i: nat)
    requires AllConsistent(rounds) && i <= |rounds|
    ensures AllCountedAs(CountedFrom(rounds, i, true), FinishedOnly(AllRacesOf(rounds, i, |rounds|)))
    decreases |rounds| - i
  {
    if i < |rounds| {
      var rest := AllRacesOf(rounds, i + 1, |rounds|);
      FinishedRowsCount(rounds[i]);
      FinishedRoundsCount(rounds, i + 1);
      FinishedAppend(rounds[i], rest);
      CountedAppend(CountedIn(rounds[i]), FinishedOnly(rounds[i]), CountedFrom(rounds, i + 1, true), FinishedOnly(rest));
    }
  }

  /** At any time the standings of a round robin count exactly the finished races of all its rounds, each
      with its players, its results and the outcome of these. */
  lemma RoundRobinCountsFinished(db: Db, b: nat)
    requires RacesConsistent(db.races) && b < |db.brackets| && db.brackets[b].kind == RoundRobin
    ensures var rounds := RoundRows(db.races, RoundsOf(db, b));
      AllCountedAs(CountedRaces(db, b), FinishedOnly(AllRacesOf(rounds, 0, |rounds|)))
  {
    RowsAreConsistent(db.races, RoundsOf(db, b));
    FinishedRoundsCount(RoundRows(db.races, RoundsOf(db, b)), 0);
  }

  // ----- what the standings of any bracket count

  /** The races that count: the finished ones of a round robin; for a Swiss bracket, those of the rounds
      before the first that holds an unfinished race. */
  ghost predicate CountingRows(db: Db, b: nat, rows: seq<RaceRow>)
    requires b < |db.brackets|
  {
    var rounds := RoundRows(db.races, RoundsOf(db, b));
    match db.brackets[b].kind
    case RoundRobin => rows == FinishedOnly(AllRacesOf(rounds, 0, |rounds|))
    case Swiss => exists k | 0 <= k <= |rounds| :: FirstOpen(rounds, k) && rows == AllRacesOf(rounds, 0, k)
  }

  /** Ranked as these races give it. */
  ghost predicate RankedByRows(rows: seq<RaceRow>, ranked: seq<PlayerInfo>) {
    exists counted :: AllCountedAs(counted, rows) && RankedByRecord(counted, ranked)
  }

  lemma CountedRacesAreRows(db: Db, b: nat) returns (rows: seq<RaceRow>)
    requires RacesConsistent(db.races) && b < |db.brackets|
    ensures CountingRows(db, b, rows) && AllCountedAs(CountedRaces(db, b), rows)
  {
    var rounds := RoundRows(db.races, RoundsOf(db, b));
    match db.brackets[b].kind
    case RoundRobin =>
      RoundRobinCountsFinished(db, b);
      rows := FinishedOnly(AllRacesOf(rounds, 0, |rounds|));
    case Swiss =>
      RowsAreConsistent(db.races, RoundsOf(db, b));
      var k := FirstOpenRound(rounds, 0);
      CountedIsPrefix(rounds, 0, k);
      rows := AllRacesOf(rounds, 0, k);
  }

  lemma CountedAreDecided(counted: seq<CountedRace>, rows: seq<RaceRow>)
    requires AllCountedAs(counted, rows)
    ensures Decided(counted)
  {
    forall race | race in counted
      ensures race.outcome == OutcomeOf(race.r1, race.r2)
    {
      var k :| 0 <= k < |counted| && counted[k] == race;
      assert CountedAs(counted[k], rows[k]);
    }
  }

  lemma CountedAppend(counted: seq<CountedRace>, rows: seq<RaceRow>, more: seq<CountedRace>, others: seq<RaceRow>)
    requires AllCountedAs(counted, rows) && AllCountedAs(more, others)
    ensures AllCountedAs(counted + more, rows + others)
  {
  }

  lemma {:induction false} CountedIsPrefix(rounds: seq<seq<RaceRow>>, i: nat, k: nat)
    requires AllConsistent(rounds) && i <= k <= |rounds| && FirstOpen(rounds, k)
    ensures AllCountedAs(CountedFrom(rounds, i, false), AllRacesOf(rounds, i, k))
    decreases k - i
  {
    if k < |rounds| {
      CompleteIffFinished(rounds, k);
    }
    if i < k {
      CompleteIffFinished(rounds, i);
      CompleteRowsAllCount(rounds[i]);
      CountedIsPrefix(rounds, i + 1, k);
      CountedAppend(CountedIn(rounds[i]), rounds[i], CountedFrom(rounds, i + 1, false), AllRacesOf(rounds, i + 1, k));
    }
  }

  lemma OpenRowIsUnfinished(races: seq<RaceRow>, r: nat) returns (i: nat)
    requires exists row | row in RacesIn(races, r) :: row.state != RaceState.Finished
    ensures i < |races| && races[i].round == r && races[i].state != RaceState.Finished
  {
    var row :| row in RacesIn(races, r) && row.state != RaceState.Finished;
    RacesInMembers(races, r);
    i :| 0 <= i < |races| && races[i] == row;
  }

  /** Standings of a Swiss bracket count exactly the races of the completed rounds, round after round,
      each with its players, its results and the outcome of these; and only the last round can be
      incomplete. */
  lemma SwissCountsCompletedRounds(db: Db, b: nat, k: nat)
    requires Inv(db) && b < |db.brackets| && db.brackets[b].kind == Swiss
    requires k <= |RoundsOf(db, b)| && FirstOpen(RoundRows(db.races, RoundsOf(db, b)), k)
    ensures AllCountedAs(CountedRaces(db, b), AllRacesOf(RoundRows(db.races, RoundsOf(db, b)), 0, k))
    ensures k + 1 >= |RoundsOf(db, b)|
  {
    RowsAreConsistent(db.races, RoundsOf(db, b));
    CountedIsPrefix(RoundRows(db.races, RoundsOf(db, b)), 0, k);
    if k < |RoundsOf(db, b)| {
      var i := OpenRowIsUnfinished(db.races, RoundsOf(db, b)[k]);
      OpenRoundIsLast(db, b, k, i);
    }
  }

  lemma OpenRoundIsLast(db: Db, b: nat, k: nat, i: nat)
    requires References(db) && RoundNumbers(db.rounds) && EarlierFinished(db)
    requires k < |RoundsOf(db, b)| && i < |db.races| && db.races[i].round == RoundsOf(db, b)[k]
    requires db.races[i].state != RaceState.Finished
    ensures k + 1 == |RoundsOf(db, b)|
  {
    RoundsAreOneToK(db, b);
    RoundNumsAreConsecutive(db.rounds, b);
    RoundIdsMembers(db.rounds, b, db.races[i].round);
    OnlyLastRoundIsOpen(db, i);
  }

  // ----- standings do not move within a round

  lemma {:induction false} RacesInUpdate(races: seq<RaceRow>, i: nat, row: RaceRow, r: nat)
    requires i < |races| && row.round == races[i].round != r
    ensures RacesIn(races[i := row], r) == RacesIn(races, r)
  {
    var n := |races| - 1;
    if i == n {
      assert races[i := row][..n] == races[..n];
    } else {
      assert races[i := row][..n] == races[..n][i := row];
      RacesInUpdate(races[..n], i, row, r);
    }
  }

  lemma {:induction false} CountedUnchanged(rounds: seq<seq<RaceRow>>, after: seq<seq<RaceRow>>, i: nat, k: nat)
    requires i <= k < |rounds| == |after|
    requires forall j | i <= j < k :: after[j] == rounds[j]
    requires !AllComplete(rounds[k]) && !AllComplete(after[k])
    ensures CountedFrom(after, i, false) == CountedFrom(rounds, i, false)
    decreases k - i
  {
    if i < k {
      CountedUnchanged(rounds, after, i + 1, k);
    }
  }

  /** A command that schedules or reports a race of the given round. */
  predicate RaceCommand(db: Db, cmd: Command, r: nat) {
    match cmd
    case CmdSchedule(i, _) => i < |db.races| && db.races[i].round == r
    case CmdReport(i, _, _) => i < |db.races| && db.races[i].round == r
    case CmdRereport(i, _, _) => i < |db.races| && db.races[i].round == r
    case _ => false
  }

  /** What a race command can do to the races: change one row of the round, and never undo its
      completion. */
  lemma RaceCommandEffect(db: Db, cmd: Command, r: nat)
    requires RacesConsistent(db.races) && RaceCommand(db, cmd, r)
    ensures var after := Apply(db, cmd); var i := cmd.race;
      && after.rounds == db.rounds && after.brackets == db.brackets
      && |after.races| == |db.races| && after.races == db.races[i := after.races[i]]
      && SameMatch(db.races[i], after.races[i])
      && (db.races[i].outcome.Some? ==> after.races[i].outcome.Some?)
  {
    assert db.races == db.races[cmd.race := db.races[cmd.race]];
    if Step(db, cmd).Success? {
      match cmd
      case CmdSchedule(i, when) =>
        assert Consistent(db.races[i]);
        ScheduleEffect(db, i, when);
      case CmdReport(i, r1, r2) => ReportEffect(db, i, r1, r2, false);
      case CmdRereport(i, r1, r2) => ReportEffect(db, i, r1, r2, true);
    }
  }

  lemma ScheduleEffect(db: Db, i: nat, when: int)
    requires ScheduleRace(db, i, when).Success? && Consistent(db.races[i])
    ensures var after := ScheduleRace(db, i, when).value;
      && after == db.(races := after.races, infos := after.infos)
      && |after.races| == |db.races| && after.races == db.races[i := after.races[i]]
      && SameMatch(db.races[i], after.races[i]) && (db.races[i].outcome.Some? ==> after.races[i].outcome.Some?)
  {
  }

  lemma ReportEffect(db: Db, i: nat, r1: PlayerResult, r2: PlayerResult, force: bool)
    requires ReportRace(db, i, r1, r2, force).Success?
    ensures var after := ReportRace(db, i, r1, r2, force).value;
      && after == db.(races := after.races, infos := after.infos)
      && |after.races| == |db.races| && after.races == db.races[i := after.races[i]]
      && SameMatch(db.races[i], after.races[i]) && after.races[i].outcome.Some?
  {
  }

  lemma {:induction false} CompletenessStays(races: seq<RaceRow>, i: nat, row: RaceRow, r: nat)
    requires i < |races| && races[i].round == row.round
    requires races[i].outcome.Some? ==> row.outcome.Some?
    requires AllComplete(RacesIn(races, r))
    ensures AllComplete(RacesIn(races[i := row], r))
  {
    var n := |races| - 1;
    var front := RacesIn(races[..n], r);
    assert forall x | x in front :: x in RacesIn(races, r);
    if races[n].round == r {
      assert RacesIn(races, r)[|front|] == races[n];
    }
    if i == n {
      assert races[i := row][..n] == races[..n];
    } else {
      assert races[i := row][..n] == races[..n][i := row];
      CompletenessStays(races[..n], i, row, r);
    }
  }

  lemma RowChangeKeepsCounted(races: seq<RaceRow>, i: nat, row: RaceRow, ids: seq<nat>, k: nat)
    requires i < |races| && k < |ids| && races[i].round == row.round == ids[k]
    requires races[i].outcome.Some? ==> row.outcome.Some?
    requires forall j | 0 <= j < k :: ids[j] != ids[k]
    requires !AllComplete(RacesIn(races[i := row], ids[k]))
    ensures !AllComplete(RacesIn(races, ids[k]))
    ensures CountedFrom(RoundRows(races[i := row], ids), 0, false) == CountedFrom(RoundRows(races, ids), 0, false)
  {
    if AllComplete(RacesIn(races, ids[k])) {
      CompletenessStays(races, i, row, ids[k]);
      assert false;
    }
    forall j | 0 <= j < k
      ensures RacesIn(races[i := row], ids[j]) == RacesIn(races, ids[j])
    {
      RacesInUpdate(races, i, row, ids[j]);
    }
    CountedUnchanged(RoundRows(races, ids), RoundRows(races[i := row], ids), 0, k);
  }

  lemma RaceCommandKeepsStandings(db: Db, cmd: Command, b: nat, k: nat, after: Db)
    requires Inv(db) && b < |db.brackets| && db.brackets[b].kind == Swiss
    requires k < |RoundsOf(db, b)| && RaceCommand(db, cmd, RoundsOf(db, b)[k]) && after == Apply(db, cmd)
    requires !AllComplete(RacesIn(after.races, RoundsOf(db, b)[k]))
    ensures after.rounds == db.rounds && after.brackets == db.brackets
    ensures !AllComplete(RacesIn(db.races, RoundsOf(db, b)[k]))
    ensures CountedRaces(after, b) == CountedRaces(db, b)
  {
    var ids := RoundsOf(db, b);
    RaceCommandEffect(db, cmd, ids[k]);
    RoundsAreOneToK(db, b);
    RoundNumsAreConsecutive(db.rounds, b);
    RowChangeKeepsCounted(db.races, cmd.race, after.races[cmd.race], ids, k);
  }

  /** The databases that a sequence of commands goes through from `db`, all of them scheduling or
      reporting races of round `r`. */
  ghost predicate WithinRound(db: Db, cmds: seq<Command>, r: nat, end: Db)
    decreases |cmds|
  {
    if cmds == [] then end == db
    else RaceCommand(db, cmds[0], r) && WithinRound(Apply(db, cmds[0]), cmds[1..], r, end)
  }

  /** Any sequence of schedule and result commands on the races of one round that leaves the round
      incomplete leaves the standings of a Swiss bracket as they were. */
  lemma {:induction false} StandingsHoldStillWithinRound(db: Db, cmds: seq<Command>, b: nat, k: nat, end: Db)
    requires Inv(db) && b < |db.brackets| && db.brackets[b].kind == Swiss
    requires k < |RoundsOf(db, b)| && WithinRound(db, cmds, RoundsOf(db, b)[k], end)
    requires !AllComplete(RacesIn(end.races, RoundsOf(db, b)[k]))
    ensures |end.brackets| == |db.brackets| && CountedRaces(end, b) == CountedRaces(db, b)
    ensures !AllComplete(RacesIn(db.races, RoundsOf(db, b)[k]))
    decreases |cmds|
  {
    if cmds != [] {
      var next := Apply(db, cmds[0]);
      RaceCommandEffect(db, cmds[0], RoundsOf(db, b)[k]);
      StepKeepsInv(db, cmds[0]);
      StandingsHoldStillWithinRound(next, cmds[1..], b, k, end);
      RaceCommandKeepsStandings(db, cmds[0], b, k, next);
    }
  }

  // ----- the finished round robin

  lemma CountedPairsAppend(rows: seq<RaceRow>, row: RaceRow)
    requires Consistent(row) && row.state == RaceState.Finished
    ensures PairsOf(CountedIn(rows + [row])) == PairsOf(CountedIn(rows)) + [(row.p1, row.p2)]
  {
    assert (rows + [row])[..|rows|] == rows;
    var counted := CountedIn(rows + [row]);
    assert counted[..|counted| - 1] == CountedIn(rows);
  }

  lemma {:induction false} CountedPairs(races: seq<RaceRow>, r: nat)
    requires RacesConsistent(races)
    requires forall i | 0 <= i < |races| && races[i].round == r :: races[i].state == RaceState.Finished
    ensures PairsOf(CountedIn(RacesIn(races, r))) == PairsIn(races, r)
  {
    if races != [] {
      var n := |races| - 1;
      CountedPairs(races[..n], r);
      assert Consistent(races[n]);
      if races[n].round == r {
        CountedPairsAppend(RacesIn(races[..n], r), races[n]);
      } else {
        assert RacesIn(races, r) == RacesIn(races[..n], r);
      }
    }
  }

  /** A wholly finished round robin counts all pairs of its one round. */
  lemma RoundRobinCountsRound(db: Db, b: nat, r: nat)
    requires References(db) && RoundNumbers(db.rounds) && BracketsOk(db) && RacesConsistent(db.races)
    requires b < |db.brackets| && db.brackets[b].kind == RoundRobin && BracketDone(db, b)
    requires r < |db.rounds| && db.rounds[r].bracket == b
    ensures PairsOf(CountedRaces(db, b)) == PairsIn(db.races, r)
  {
    RoundsAreOneToK(db, b);
    RoundIdsMembers(db.rounds, b, r);
    var rounds := RoundsOf(db, b);
    assert rounds == [r];
    assert CountedFrom(RoundRows(db.races, rounds), 1, true) == [];
    assert CountedRaces(db, b) == CountedIn(RacesIn(db.races, r));
    CountedPairs(db.races, r);
  }

  /** These are all pairs of the first `n` players entered. */
  lemma RoundRobinCountsAllPairs(db: Db, b: nat) returns (n: int)
    requires References(db) && Shapes(db) && RoundNumbers(db.rounds) && BracketsOk(db) && RacesConsistent(db.races)
    requires b < |db.brackets| && db.brackets[b].kind == RoundRobin
    requires BracketDone(db, b)
    ensures AllPairsOfFirst(PlayersOf(db.entries, b), n, PairsOf(CountedRaces(db, b)))
  {
    RoundsAreOneToK(db, b);
    var players, rounds := PlayersOf(db.entries, b), RoundsOf(db, b);
    if rounds == [] {
      n := 0;
      assert players[..0] == [];
    } else {
      var r := rounds[0];
      RoundIdsMembers(db.rounds, b, r);
      RoundRobinCountsRound(db, b, r);
      assert RoundShape(db, b, db.rounds[r].num, PairsIn(db.races, r));
      n :| AllPairsOfFirst(players, n, PairsIn(db.races, r));
    }
  }

  /** Everyone has n(n - 1) points and opponent points together, and the players are ranked, except
      one who is alone. */
  ghost predicate RoundRobinRanking(players: seq<int>, ranked: seq<PlayerInfo>) {
    var n := |players|;
    && (forall x | x in ranked :: x.points + x.opponentPoints == n * (n - 1))
    && multiset(RankedIds(ranked)) == multiset(if n == 1 then [] else players)
  }

  lemma AllPairsRank(races: seq<CountedRace>, players: seq<int>, ranked: seq<PlayerInfo>)
    requires Distinct(players) && multiset(PairsOf(races)) == multiset(RoundRobinPairs(players))
    requires IsRanking(Appearances(races), ranked)
    ensures RoundRobinRanking(players, ranked)
    ensures forall x, y | x in ranked && y in ranked && x.points == y.points :: x.opponentPoints == y.opponentPoints
  {
    RoundRobinTotals(races, players, ranked);
  }

  /** In any reachable database, a wholly finished round robin ranks the first `n` players entered, for
      some `n`, and gives each of them n(n - 1) points and opponent points. */
  lemma FinishedRoundRobin(db: Db, b: nat, ranked: seq<PlayerInfo>)
    requires Inv(db) && b < |db.brackets| && db.brackets[b].kind == RoundRobin
    requires BracketDone(db, b)
    requires IsRanking(Appearances(CountedRaces(db, b)), ranked)
    ensures exists n :: 0 <= n <= |PlayersOf(db.entries, b)| && RoundRobinRanking(PlayersOf(db.entries, b)[..n], ranked)
    ensures forall x, y | x in ranked && y in ranked && x.points == y.points :: x.opponentPoints == y.opponentPoints
  {
    var n := RoundRobinCountsAllPairs(db, b);
    AllPairsRank(CountedRaces(db, b), PlayersOf(db.entries, b)[..n], ranked);
  }

  predicate RoundRobinRound(db: Db, b: nat, r: nat) {
    b < |db.brackets| && db.brackets[b].kind == RoundRobin && r < |db.rounds| && db.rounds[r].bracket == b
  }

  lemma RoundRobinRoundStays(db: Db, after: Db, b: nat, r: nat)
    requires KeepsMatches(db, after) && RoundRobinRound(db, b, r)
    ensures RoundRobinRound(after, b, r) && PairsIn(after.races, r) == PairsIn(db.races, r)
  {
    assert after.rounds[r] == db.rounds[r];
  }

  /** The round of a round robin that was just generated holds all pairs of all players entered. */
  lemma GeneratedRoundRobin(db: Db, cmd: Command)
    requires Inv(db) && Enabled(db, cmd) && cmd.CmdGeneratePairings? && Step(db, cmd).Success?
    requires cmd.bracket < |db.brackets| && db.brackets[cmd.bracket].kind == RoundRobin
    ensures var after := Step(db, cmd).value; var r := |db.rounds|; var players := PlayersOf(db.entries, cmd.bracket);
      && RoundRobinRound(after, cmd.bracket, r)
      && Distinct(players) && multiset(PairsIn(after.races, r)) == multiset(RoundRobinPairs(players))
  {
    var b, r, players := cmd.bracket, |db.rounds|, PlayersOf(db.entries, cmd.bracket);
    var after := Step(db, cmd).value;
    GenerateIsExact(db, b, cmd.shuffled, cmd.answer);
    var pairs :| CommitsRound(db, after, b, pairs) && GoodPairs(db, b, cmd.answer, pairs);
    CommittedPairs(db, after, b, pairs);
    RoundRobinMembers(players);
    SameMembersSameMultiset(pairs, RoundRobinPairs(players));
  }

  lemma CommittedPairs(db: Db, after: Db, b: nat, pairs: seq<Pair>)
    requires References(db) && b < |db.brackets| && CommitsRound(db, after, b, pairs)
    ensures PairsIn(after.races, |db.rounds|) == pairs
  {
    var r := |db.rounds|;
    assert after.races == db.races + NewRaces(b, r, pairs) by {
      forall k | 0 <= k < |pairs|
        ensures after.races[|db.races| + k] == NewRaces(b, r, pairs)[k]
      {
        assert after.races[|db.races| + k] == NewRace(b, r, pairs[k].0, pairs[k].1);
      }
    }
    PairsInAppend(db.races, NewRaces(b, r, pairs), r);
    PairsInAbsent(db.races, r);
    PairsInNewRaces(b, r, pairs, r);
  }

  lemma GeneratedInRun(cmds: seq<Command>, dbs: seq<Db>, i: nat)
    requires IsRun(cmds, dbs) && i < |cmds|
    requires cmds[i].CmdGeneratePairings? && Step(dbs[i], cmds[i]).Success?
    requires cmds[i].bracket < |dbs[i].brackets| && dbs[i].brackets[cmds[i].bracket].kind == RoundRobin
    ensures var r := |dbs[i].rounds|; var players := PlayersOf(dbs[i].entries, cmds[i].bracket);
      && RoundRobinRound(dbs[i + 1], cmds[i].bracket, r)
      && Distinct(players) && multiset(PairsIn(dbs[i + 1].races, r)) == multiset(RoundRobinPairs(players))
  {
    RunKeepsInv(cmds, dbs, i);
    assert IsStep(cmds, dbs, i);
    GeneratedRoundRobin(dbs[i], cmds[i]);
  }

  /** The next step has the round, and no later one changes who races whom in it. */
  lemma RoundRobinOfRun(cmds: seq<Command>, dbs: seq<Db>, i: nat, j: nat, b: nat)
    requires IsRun(cmds, dbs) && i < j < |dbs|
    requires cmds[i].CmdGeneratePairings? && cmds[i].bracket == b && Step(dbs[i], cmds[i]).Success?
    requires b < |dbs[i].brackets| && dbs[i].brackets[b].kind == RoundRobin
    ensures var db := dbs[j]; var r := |dbs[i].rounds|; var players := PlayersOf(dbs[i].entries, b);
      && RoundRobinRound(db, b, r)
      && Distinct(players) && multiset(PairsIn(db.races, r)) == multiset(RoundRobinPairs(players))
  {
    GeneratedInRun(cmds, dbs, i);
    RunKeepsMatches(cmds, dbs, i + 1, j);
    RoundRobinRoundStays(dbs[i + 1], dbs[j], b, |dbs[i].rounds|);
  }

  /** Over every run: once the pairings of a round robin were generated for n players entered by then,
      whoever is entered later and whatever else happens, its final standings rank just these players
      and give each of them n(n - 1) points and opponent points. */
  lemma FinishedRoundRobinOfEntrants(cmds: seq<Command>, dbs: seq<Db>, i: nat, j: nat, b: nat, ranked: seq<PlayerInfo>)
    requires IsRun(cmds, dbs) && i < j < |dbs|
    requires cmds[i].CmdGeneratePairings? && cmds[i].bracket == b && Step(dbs[i], cmds[i]).Success?
    requires b < |dbs[i].brackets| && dbs[i].brackets[b].kind == RoundRobin
    requires b < |dbs[j].brackets| && BracketDone(dbs[j], b) && IsRanking(Appearances(CountedRaces(dbs[j], b)), ranked)
    ensures RoundRobinRanking(PlayersOf(dbs[i].entries, b), ranked)
  {
    RoundRobinOfRun(cmds, dbs, i, j, b);
    RunKeepsInv(cmds, dbs, j);
    RoundRobinCountsRound(dbs[j], b, |dbs[i].rounds|);
    AllPairsRank(CountedRaces(dbs[j], b), PlayersOf(dbs[i].entries, b), ranked);
  }
}

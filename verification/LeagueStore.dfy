/** The command handlers as they work: load an object from the store, change it, save it. Every
    method is proved against the step function of module League. */
module LeagueStore {
  import opened Wrappers
  import opened Results
  import opened BracketRaces
  import opened Pairings
  import opened League

  // ----- the objects

  class Season {
    var state: SeasonState
    var finished: Option<int>

    function Row(): SeasonRow
      reads this
    {
      SeasonRow(state, finished)
    }

    constructor Load(row: SeasonRow)
      ensures Row() == row
    {
      state, finished := row.state, row.finished;
    }

    /** Moves to the target state if that is a legal transition; `brackets` are those of the season. */
    method SetState(target: SeasonState, brackets: seq<BracketRow>, now: int) returns (r: Option<Error>)
      modifies this
      ensures var allFinished := forall b | b in brackets :: b.state == BracketState.Finished;
        r.None? ==> Success(Row()) == NextSeason(old(Row()), target, allFinished, now)
      ensures var allFinished := forall b | b in brackets :: b.state == BracketState.Finished;
        r.Some? ==> Failure(r.value) == NextSeason(old(Row()), target, allFinished, now) && Row() == old(Row())
    {
      if state == target {
        return None;
      }
      match target {
        case Created =>
          return Some(SeasonStateError);
        case QualifiersOpen =>
          if state != SeasonState.Created { return Some(SeasonStateError); }
        case QualifiersClosed =>
          if state != SeasonState.QualifiersOpen { return Some(SeasonStateError); }
        case Started =>
          if state != SeasonState.QualifiersClosed { return Some(SeasonStateError); }
        case Finished =>
          if state != SeasonState.Started { return Some(SeasonStateError); }
          r := Finish(brackets, now);
          if r.Some? { return; }
      }
      state := target;
      return None;
    }

    method Finish(brackets: seq<BracketRow>, now: int) returns (r: Option<Error>)
      modifies this`finished
      ensures r.None? <==> forall b | b in brackets :: b.state == BracketState.Finished
      ensures r.Some? ==> r.value == BracketNotFinished
      ensures finished == if r.None? then Some(now) else old(finished)
    {
      for i := 0 to |brackets|
        invariant forall k | 0 <= k < i :: brackets[k].state == BracketState.Finished
        invariant finished == old(finished)
      {
        if brackets[i].state != BracketState.Finished {
          assert brackets[i] in brackets;
          return Some(BracketNotFinished);
        }
      }
      finished := Some(now);
      return None;
    }
  }

  /** What `UPDATE` stores of an in-memory season: an absent finish time is not written. */
  function SavedSeason(stored: SeasonRow, season: SeasonRow): SeasonRow {
    season.(finished := if season.finished.Some? then season.finished else stored.finished)
  }

  class Bracket {
    const season: nat
    const kind: BracketType
    var state: BracketState

    function Row(): BracketRow
      reads this
    {
      BracketRow(season, state, kind)
    }

    constructor Load(row: BracketRow)
      ensures Row() == row
    {
      season, kind, state := row.season, row.kind, row.state;
    }

    /** Finishes the bracket if none of its rounds holds an unfinished race. */
    method Finish(db: Db, id: nat) returns (done: bool)
      modifies this
      ensures done <==> forall r | r in RoundsOf(db, id) :: AllFinished(RacesIn(db.races, r))
      ensures Row() == if done then old(Row()).(state := BracketState.Finished) else old(Row())
    {
      var rounds := RoundsOf(db, id);
      for i := 0 to |rounds|
        invariant forall k | 0 <= k < i :: AllFinished(RacesIn(db.races, rounds[k]))
        invariant Row() == old(Row())
      {
        if !AllFinished(RacesIn(db.races, rounds[i])) {
          assert rounds[i] in rounds;
          return false;
        }
      }
      state := BracketState.Finished;
      return true;
    }
  }

  /** The brackets of a season. */
  function BracketsOf(brackets: seq<BracketRow>, s: nat): (r: seq<BracketRow>)
    ensures forall b :: b in r <==> b in brackets && b.season == s
  {
    if brackets == [] then []
    else
      assert brackets == [brackets[0]] + brackets[1..];
      (if brackets[0].season == s then [brackets[0]] else []) + BracketsOf(brackets[1..], s)
  }

  // ----- the store

  class LeagueStore {
    var db: Db

    constructor ()
      ensures db == EMPTY_DB
    {
      db := EMPTY_DB;
    }

    method HandleSetSeasonState(s: nat, target: SeasonState, now: int) returns (r: Option<Error>)
      modifies this
      ensures db == Apply(old(db), CmdSetSeasonState(s, target, now))
      ensures r.None? <==> Step(old(db), CmdSetSeasonState(s, target, now)).Success?
    {
      if s >= |db.seasons| {
        return Some(NotFound);
      }
      var season := new Season.Load(db.seasons[s]);
      r := season.SetState(target, BracketsOf(db.brackets, s), now);
      if r.None? {
        var row := season.Row();
        assert SavedSeason(db.seasons[s], row) == row;
        db := db.(seasons := db.seasons[s := SavedSeason(db.seasons[s], row)]);
      }
    }

    method HandleFinishBracket(b: nat) returns (r: Option<Error>)
      modifies this
      ensures db == Apply(old(db), CmdFinishBracket(b))
      ensures r.None? <==> Step(old(db), CmdFinishBracket(b)).Success?
    {
      if b >= |db.brackets| {
        return Some(NotFound);
      }
      var bracket := new Bracket.Load(db.brackets[b]);
      var done := bracket.Finish(db, b);
      if !done {
        return Some(BracketNotFinished);
      }
      db := db.(brackets := db.brackets[b := bracket.Row()]);
      return None;
    }

    method HandleSchedule(i: nat, when: int) returns (r: Option<Error>)
      modifies this
      ensures db == Apply(old(db), CmdSchedule(i, when))
      ensures r.None? <==> Step(old(db), CmdSchedule(i, when)).Success?
    {
      if i >= |db.races| {
        return Some(NotFound);
      }
      var race := new BracketRace.Load(db.races[i]);
      var e := race.Schedule();
      if e.Some? {
        return Some(RaceStateError(e.value));
      }
      var j := InfoIndex(db.infos, i);
      var infos := WithInfo(db.infos, i);
      SavedExactly(db.races[i], race.Row());
      db := db.(infos := infos[j := InfoRow(i, Some(when), None)],
                races := db.races[i := Saved(db.races[i], race.Row())]);
      return None;
    }

    method HandleReport(i: nat, r1: PlayerResult, r2: PlayerResult, again: bool) returns (r: Option<Error>)
      modifies this
      ensures db == Apply(old(db), if again then CmdRereport(i, r1, r2) else CmdReport(i, r1, r2))
      ensures r.None? <==> Step(old(db), if again then CmdRereport(i, r1, r2) else CmdReport(i, r1, r2)).Success?
    {
      if i >= |db.races| {
        return Some(NotFound);
      }
      var race := new BracketRace.Load(db.races[i]);
      db := db.(infos := WithInfo(db.infos, i));
      if race.p1 == race.p2 {
        return Some(PlayerNotFound);
      }
      if again && race.state != RaceState.Finished {
        return Some(NotYetReported);
      }
      var e := race.AddResults(Some(r1), Some(r2), again);
      if e.Some? {
        return Some(RaceStateError(e.value));
      }
      SavedExactly(db.races[i], race.Row());
      db := db.(races := db.races[i := Saved(db.races[i], race.Row())]);
      return None;
    }

    // ----- pairings

    method InsertRound(b: nat, num: int) returns (r: Result<nat, Error>)
      modifies this
      ensures r.Failure? <==> RoundExists(old(db), b, num)
      ensures r.Failure? ==> r.error == UniqueViolation && db == old(db)
      ensures r.Success? ==> r.value == |old(db).rounds|
      ensures r.Success? ==> db == old(db).(rounds := old(db).rounds + [RoundRow(num, b)])
    {
      if RoundExists(db, b, num) {
        return Failure(UniqueViolation);
      }
      r := Success(|db.rounds|);
      db := db.(rounds := db.rounds + [RoundRow(num, b)]);
    }

    method InsertBulk(races: seq<RaceRow>)
      modifies this
      ensures db == old(db).(races := old(db).races + races)
    {
      db := db.(races := db.races + races);
    }

    /** Runs inside a transaction: after a failure the store may hold a round without races. The last
        of the three returns stands for a panic if the player count was zero. */
    method InitialPairings(b: nat, bracket: Bracket, shuffled: seq<int>) returns (r: Option<Error>)
      requires b < |db.brackets| && bracket.Row() == db.brackets[b]
      modifies this, bracket
      ensures r.None? ==> Success(db) == GenerateInitial(old(db), b, shuffled)
      ensures r.Some? ==> Failure(r.value) == GenerateInitial(old(db), b, shuffled)
      ensures r == Some(Aborted) ==> db == AfterAbort(old(db), b)
    {
      if RoundIds(db.rounds, b) != [] {
        return Some(Error.InvalidState);
      }
      var round := InsertRound(b, 1);
      if round.Failure? {
        return Some(round.error);
      }
      var pairs: Result<seq<Pair>, PairingError>;
      match bracket.kind {
        case Swiss => pairs := PopPairs(shuffled);
        case RoundRobin => pairs := CheckedRoundRobin(PlayersOf(db.entries, b));
      }
      if pairs.Failure? {
        return Some(PairingFailure(pairs.error));
      }
      InsertBulk(NewRaces(b, round.value, pairs.value));
      bracket.state := BracketState.Started;
      db := db.(brackets := db.brackets[b := bracket.Row()]);
      return None;
    }

    /** Runs inside a transaction, like InitialPairings. */
    method NextPairings(b: nat, bracket: Bracket, answer: Option<seq<Pair>>) returns (r: Option<Error>)
      requires b < |db.brackets| && bracket.Row() == db.brackets[b] && bracket.state == BracketState.Started
      modifies this
      ensures r.None? ==> Success(db) == GenerateNext(old(db), b, answer)
      ensures r.Some? ==> Failure(r.value) == GenerateNext(old(db), b, answer)
      ensures r != Some(Aborted)
    {
      var num := CheckRounds(b, bracket.kind);
      if num.Failure? {
        return Some(num.error);
      }
      if answer.None? {
        return Some(LibraryError);
      }
      r := InsertNextRound(b, num.value, answer.value);
    }

    method CheckRounds(b: nat, kind: BracketType) returns (r: Result<int, Error>)
      requires b < |db.brackets| && db.brackets[b].kind == kind
      ensures r == NextNumber(db, b)
    {
      if kind == RoundRobin {
        return Failure(AlreadyGenerated);
      }
      var rounds := RoundsOf(db, b);
      var ascending, highest := HighestRound(rounds);
      if !ascending {
        return Failure(AssertionFailed);
      }
      var converted := AllRoundsConvert(rounds);
      if !converted {
        return Failure(NotConvertible);
      }
      return Success(highest + 1);
    }

    method InsertNextRound(b: nat, num: int, pairings: seq<Pair>) returns (r: Option<Error>)
      requires b < |db.brackets| && db.brackets[b].state == BracketState.Started
      modifies this
      ensures r.None? ==> Success(db) == CommitNext(old(db), b, num, pairings)
      ensures r.Some? ==> Failure(r.value) == CommitNext(old(db), b, num, pairings) && r.value != Aborted
    {
      var players := EnteredIn(db.entries, b);
      var round := InsertRound(b, num);
      if round.Failure? {
        return Some(round.error);
      }
      var pairs := TakePairs(players, pairings);
      if pairs.Failure? {
        return Some(Pairing(pairs.error));
      }
      InsertBulk(NewRaces(b, round.value, pairs.value));
      assert db.brackets[b := db.brackets[b].(state := BracketState.Started)] == db.brackets;
      return None;
    }

    /** The first loop of the next round: the numbers must ascend; the last one is the highest. */
    method HighestRound(rounds: seq<nat>) returns (ascending: bool, highest: int)
      requires Within(rounds, |db.rounds|)
      ensures ascending <==> AscendingNums(db.rounds, rounds)
      ensures ascending ==> highest == HighestNum(db.rounds, rounds)
    {
      highest := 0;
      for i := 0 to |rounds|
        invariant AscendingNums(db.rounds, rounds[..i]) && highest == HighestNum(db.rounds, rounds[..i])
      {
        var num := db.rounds[rounds[i]].num;
        if num <= highest {
          assert !AscendingNums(db.rounds, rounds);
          return false, highest;
        }
        highest := num;
      }
      assert rounds[..|rounds|] == rounds;
      ascending := true;
    }

    /** The second loop: every race must convert for the pairing library. */
    method AllRoundsConvert(rounds: seq<nat>) returns (converted: bool)
      ensures converted <==> RoundsConvert(db.races, rounds)
    {
      for i := 0 to |rounds|
        invariant forall k | 0 <= k < i :: AllConvert(RacesIn(db.races, rounds[k]))
      {
        if !AllConvert(RacesIn(db.races, rounds[i])) {
          assert rounds[i] in rounds;
          return false;
        }
      }
      return true;
    }

    /** The transaction: what a generator has written is rolled back when it returns an error. An abort
        returns nothing, so it rolls nothing back. */
    method HandleGeneratePairings(b: nat, shuffled: seq<int>, answer: Option<seq<Pair>>) returns (r: Option<Error>)
      requires multiset(shuffled) == multiset(PlayersOf(db.entries, b))
      modifies this
      ensures db == Apply(old(db), CmdGeneratePairings(b, shuffled, answer))
      ensures r.None? <==> Step(old(db), CmdGeneratePairings(b, shuffled, answer)).Success?
      ensures r.Some? && r.value != Aborted ==> db == old(db)
      ensures r == Some(Aborted) ==> db == AfterAbort(old(db), b)
    {
      if b >= |db.brackets| {
        return Some(NotFound);
      }
      var bracket := new Bracket.Load(db.brackets[b]);
      var savepoint := db;
      match bracket.state {
        case Unstarted => r := InitialPairings(b, bracket, shuffled);
        case Started => r := NextPairings(b, bracket, answer);
        case Finished => r := Some(Error.InvalidState);
      }
      if r.Some? && r.value != Aborted {
        db := savepoint;
      }
    }
  }
}

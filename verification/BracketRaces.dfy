/** One race of a bracket: src/models/bracket_races.rs.
    `RaceRow` is a stored row; `BracketRace` is the object a handler loads, changes and saves. */
module BracketRaces {
  import opened Wrappers
  import opened Results

  datatype RaceState = New | Scheduled | Finished

  datatype RaceRow = RaceRow(
    bracket: nat,
    round: nat,
    p1: int,
    p2: int,
    state: RaceState,
    r1: Option<PlayerResult>,
    r2: Option<PlayerResult>,
    outcome: Option<Outcome>)

  datatype RaceError = InvalidState(actual: RaceState) | MissingResult

  datatype MatchResult = Draw(p1: int, p2: int) | Player1Win(p1: int, p2: int) | Player2Win(p1: int, p2: int)

  datatype MatchResultError = RaceNotFinished

  function NewRace(bracket: nat, round: nat, p1: int, p2: int): RaceRow {
    RaceRow(bracket, round, p1, p2, New, None, None, None)
  }

  function Rescheduled(row: RaceRow): Result<RaceRow, RaceError> {
    if row.state == Finished then Failure(InvalidState(Finished)) else Success(row.(state := Scheduled))
  }

  function WithResults(row: RaceRow, p1: Option<PlayerResult>, p2: Option<PlayerResult>, force: bool)
    : Result<RaceRow, RaceError>
  {
    if !force && row.state == Finished then Failure(InvalidState(Finished))
    else
      var r1 := if p1.Some? then p1 else row.r1;
      var r2 := if p2.Some? then p2 else row.r2;
      if r1.Some? && r2.Some? then
        Success(row.(r1 := r1, r2 := r2, outcome := Some(OutcomeOf(r1.value, r2.value)), state := Finished))
      else
        Success(row.(r1 := r1, r2 := r2))
  }

  function TryIntoMatchResult(row: RaceRow): Result<MatchResult, MatchResultError> {
    if row.state != Finished || row.outcome.None? then Failure(RaceNotFinished)
    else match row.outcome.value
      case Tie => Success(Draw(row.p1, row.p2))
      case P1Win => Success(Player1Win(row.p1, row.p2))
      case P2Win => Success(Player2Win(row.p1, row.p2))
  }

  /** The stored row after `UPDATE` with the columns of an in-memory race: an absent optional field
      is not written. */
  function Saved(stored: RaceRow, race: RaceRow): RaceRow {
    race.(r1 := if race.r1.Some? then race.r1 else stored.r1,
          r2 := if race.r2.Some? then race.r2 else stored.r2,
          outcome := if race.outcome.Some? then race.outcome else stored.outcome)
  }

  // ----- the object

  class BracketRace {
    const bracket: nat
    const round: nat
    const p1: int
    const p2: int
    var state: RaceState
    var r1: Option<PlayerResult>
    var r2: Option<PlayerResult>
    var outcome: Option<Outcome>

    function Row(): RaceRow
      reads this
    {
      RaceRow(bracket, round, p1, p2, state, r1, r2, outcome)
    }

    constructor Load(row: RaceRow)
      ensures Row() == row
    {
      bracket, round, p1, p2 := row.bracket, row.round, row.p1, row.p2;
      state, r1, r2, outcome := row.state, row.r1, row.r2, row.outcome;
    }

    /** The part of `schedule` that concerns the race itself. */
    method Schedule() returns (r: Option<RaceError>)
      modifies this
      ensures r.None? <==> old(state) != Finished
      ensures r.Some? ==> r.value == InvalidState(Finished)
      ensures Row() == if r.None? then old(Row()).(state := Scheduled) else old(Row())
    {
      match state
      case Finished =>
        return Some(InvalidState(Finished));
      case _ =>
        state := Scheduled;
        return None;
    }

    method AddResults(p1r: Option<PlayerResult>, p2r: Option<PlayerResult>, force: bool)
      returns (r: Option<RaceError>)
      modifies this
      ensures r.None? <==> force || old(state) != Finished
      ensures r.Some? ==> r.value == InvalidState(Finished) && Row() == old(Row())
      ensures r.None? ==> Success(Row()) == WithResults(old(Row()), p1r, p2r, force)
    {
      if !force && state == Finished {
        return Some(InvalidState(state));
      }
      if p1r.Some? {
        r1 := p1r;
      }
      if p2r.Some? {
        r2 := p2r;
      }
      if r1.Some? && r2.Some? {
        r := Finish();
      } else {
        r := None;
      }
    }

    method Finish() returns (r: Option<RaceError>)
      modifies this
      ensures r.None? <==> old(r1.Some? && r2.Some?)
      ensures r.Some? ==> r.value == MissingResult && Row() == old(Row())
      ensures r.None? ==>
        Row() == old(Row()).(outcome := Some(OutcomeOf(old(r1.value), old(r2.value))), state := Finished)
    {
      if r1.None? || r2.None? {
        return Some(MissingResult);
      }
      outcome := Some(OutcomeOf(r1.value, r2.value));
      state := Finished;
      return None;
    }
  }

  // ----- runs of one race

  /** Finished exactly when both results are in, exactly when there is an outcome, and the outcome
      is that of the current results. */
  predicate Consistent(row: RaceRow) {
    && (row.state == Finished <==> row.r1.Some? && row.r2.Some?)
    && (row.outcome.Some? <==> row.r1.Some? && row.r2.Some?)
    && (row.outcome.Some? ==> row.outcome.value == OutcomeOf(row.r1.value, row.r2.value))
  }

  datatype RaceStep =
    | Schedule
    | AddResults(p1: Option<PlayerResult>, p2: Option<PlayerResult>, force: bool)

  function StepRace(row: RaceRow, step: RaceStep): Result<RaceRow, RaceError> {
    match step
    case Schedule => Rescheduled(row)
    case AddResults(p1, p2, force) => WithResults(row, p1, p2, force)
  }

  /** Load the row, change it, save it; a refused step saves nothing. */
  function LoadStepSave(stored: RaceRow, step: RaceStep): RaceRow {
    match StepRace(stored, step)
    case Success(race) => Saved(stored, race)
    case Failure(_) => stored
  }

  function RunRace(stored: RaceRow, steps: seq<RaceStep>): RaceRow
    decreases |steps|
  {
    if steps == [] then stored else RunRace(LoadStepSave(stored, steps[0]), steps[1..])
  }

  /** Writing only the present fields stores the in-memory race, exactly when no optional field that
      is stored is absent in memory. */
  lemma SavedExactly(stored: RaceRow, race: RaceRow)
    ensures Saved(stored, race) == race <==>
      && (race.r1.None? ==> stored.r1.None?)
      && (race.r2.None? ==> stored.r2.None?)
      && (race.outcome.None? ==> stored.outcome.None?)
  {
    assert race == race.(r1 := race.r1, r2 := race.r2, outcome := race.outcome);
  }

  /** No step ever makes an optional field absent, so a save after it stores exactly the object. */
  lemma StepSavesExactly(row: RaceRow, step: RaceStep)
    ensures StepRace(row, step).Success? ==> LoadStepSave(row, step) == StepRace(row, step).value
  {
    if StepRace(row, step).Success? {
      SavedExactly(row, StepRace(row, step).value);
    }
  }

  /** What every run keeps: the row stays consistent, who races whom is fixed, and a finished race
      stays finished. */
  lemma {:induction false} RunKeepsConsistent(row: RaceRow, steps: seq<RaceStep>)
    requires Consistent(row)
    ensures var end := RunRace(row, steps);
      && Consistent(end)
      && (end.bracket, end.round, end.p1, end.p2) == (row.bracket, row.round, row.p1, row.p2)
      && (row.state == Finished ==> end.state == Finished)
      && (end.state == New ==> row.state == New)
    decreases |steps|
  {
    if steps != [] {
      StepSavesExactly(row, steps[0]);
      RunKeepsConsistent(LoadStepSave(row, steps[0]), steps[1..]);
    }
  }

  /** After any run an unfinished race is scheduled exactly when it was at first or some step scheduled it. */
  lemma {:induction false} UnfinishedState(row: RaceRow, steps: seq<RaceStep>)
    requires Consistent(row) && RunRace(row, steps).state != Finished
    ensures RunRace(row, steps).state == Scheduled <==> row.state == Scheduled || Schedule in steps
    decreases |steps|
  {
    if steps != [] {
      var next := LoadStepSave(row, steps[0]);
      assert steps == [steps[0]] + steps[1..];
      StepSavesExactly(row, steps[0]);
      RunKeepsConsistent(row, steps[..1]);
      RunKeepsConsistent(next, steps[1..]);
      UnfinishedState(next, steps[1..]);
    }
  }

  /** The results of a race come from the reports: the stored result of player 1 after a run is the
      last one that was reported for player 1 and accepted. */
  function LastReported(row: RaceRow, steps: seq<RaceStep>): (Option<PlayerResult>, Option<PlayerResult>) {
    if steps == [] then (row.r1, row.r2)
    else
      var before := steps[..|steps| - 1];
      var last := steps[|steps| - 1];
      var (r1, r2) := LastReported(row, before);
      if last.AddResults? && (last.force || RunRace(row, before).state != Finished) then
        (if last.p1.Some? then last.p1 else r1, if last.p2.Some? then last.p2 else r2)
      else (r1, r2)
  }

  lemma {:induction false} RunAppend(row: RaceRow, steps: seq<RaceStep>, last: RaceStep)
    ensures RunRace(row, steps + [last]) == LoadStepSave(RunRace(row, steps), last)
    decreases |steps|
  {
    if steps == [] {
      assert (steps + [last])[1..] == [];
    } else {
      assert (steps + [last])[1..] == steps[1..] + [last];
      RunAppend(LoadStepSave(row, steps[0]), steps[1..], last);
    }
  }

  lemma {:induction false} RunStoresLastReported(row: RaceRow, steps: seq<RaceStep>)
    ensures var end := RunRace(row, steps); (end.r1, end.r2) == LastReported(row, steps)
  {
    if steps != [] {
      var before, last := steps[..|steps| - 1], steps[|steps| - 1];
      assert steps == before + [last];
      RunStoresLastReported(row, before);
      RunAppend(row, before, last);
      StepSavesExactly(RunRace(row, before), last);
    }
  }

  /** A race converts for the pairing library exactly when it is finished. */
  lemma ConvertsIffFinished(row: RaceRow)
    requires Consistent(row)
    ensures TryIntoMatchResult(row).Success? <==> row.state == Finished
    ensures TryIntoMatchResult(row).Success? ==>
      var m := TryIntoMatchResult(row).value;
      && (m.p1, m.p2) == (row.p1, row.p2)
      && (m.Player1Win? <==> Beats(row.r1.value, row.r2.value))
      && (m.Player2Win? <==> Beats(row.r2.value, row.r1.value))
  {
    if row.state == Finished {
      OutcomeFollowsBeats(row.r1.value, row.r2.value);
    }
  }
}

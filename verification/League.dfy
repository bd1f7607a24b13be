/** The league database and the commands that change it. A table is a sequence of rows; a row's id is
    its position, since nothing here is ever deleted. A command is one atomic step that loads rows,
    changes them and saves them: src/models/ and src/discord/interaction_handlers/. */
module League {
  import opened Wrappers
  import opened Results
  import opened BracketRaces
  import opened Pairings

  datatype SeasonState = Created | QualifiersOpen | QualifiersClosed | Started | Finished

  datatype BracketState = Unstarted | Started | Finished

  datatype BracketType = Swiss | RoundRobin

  datatype SeasonRow = SeasonRow(state: SeasonState, finished: Option<int>)

  datatype BracketRow = BracketRow(season: nat, state: BracketState, kind: BracketType)

  datatype RoundRow = RoundRow(num: int, bracket: nat)

  datatype InfoRow = InfoRow(race: nat, scheduledFor: Option<int>, url: Option<string>)

  datatype EntryRow = EntryRow(bracket: nat, player: int)

  datatype Db = Db(
    seasons: seq<SeasonRow>,
    brackets: seq<BracketRow>,
    rounds: seq<RoundRow>,
    races: seq<RaceRow>,
    infos: seq<InfoRow>,
    entries: seq<EntryRow>)

  const EMPTY_DB := Db([], [], [], [], [], [])

  /** `Aborted` is no error that the handler sees: the command panics. */
  datatype Error =
    | Aborted
    | NotFound
    | InvalidState
    | UniqueViolation
    | AssertionFailed
    | SeasonStateError
    | BracketNotFinished
    | RaceStateError(race: RaceError)
    | NotYetReported
    | PlayerNotFound
    | NotConvertible
    | LibraryError
    | AlreadyGenerated
    | Pairing(pairing: PairingError)

  // ----- queries

  predicate Within(ids: seq<nat>, n: nat) {
    forall k | 0 <= k < |ids| :: ids[k] < n
  }

  /** The ids of a bracket's rounds, in the order of insertion. */
  function RoundIds(rounds: seq<RoundRow>, b: nat): (ids: seq<nat>)
    ensures Within(ids, |rounds|)
  {
    if rounds == [] then []
    else
      var n := |rounds| - 1;
      RoundIds(rounds[..n], b) + if rounds[n].bracket == b then [n] else []
  }

  function InsertByNum(rounds: seq<RoundRow>, ids: seq<nat>, r: nat): (s: seq<nat>)
    requires r < |rounds| && Within(ids, |rounds|)
    ensures multiset(s) == multiset(ids) + multiset{r}
    ensures Within(s, |rounds|)
  {
    if ids == [] || rounds[r].num < rounds[ids[0]].num then [r] + ids
    else
      assert ids == [ids[0]] + ids[1..];
      [ids[0]] + InsertByNum(rounds, ids[1..], r)
  }

  function SortByNum(rounds: seq<RoundRow>, ids: seq<nat>): (s: seq<nat>)
    requires Within(ids, |rounds|)
    ensures multiset(s) == multiset(ids)
    ensures Within(s, |rounds|)
  {
    if ids == [] then []
    else
      var n := |ids| - 1;
      assert ids == ids[..n] + [ids[n]];
      InsertByNum(rounds, SortByNum(rounds, ids[..n]), ids[n])
  }

  /** The bracket's rounds, `ORDER BY round_num`. */
  function RoundsOf(db: Db, b: nat): (ids: seq<nat>)
    ensures Within(ids, |db.rounds|)
  {
    SortByNum(db.rounds, RoundIds(db.rounds, b))
  }

  /** The races of a round. */
  function RacesIn(races: seq<RaceRow>, r: nat): seq<RaceRow> {
    if races == [] then []
    else
      var n := |races| - 1;
      RacesIn(races[..n], r) + if races[n].round == r then [races[n]] else []
  }

  /** The players entered in a bracket, once for every entry. */
  function PlayersOf(entries: seq<EntryRow>, b: nat): seq<int> {
    if entries == [] then []
    else
      var n := |entries| - 1;
      PlayersOf(entries[..n], b) + if entries[n].bracket == b then [entries[n].player] else []
  }

  function EnteredIn(entries: seq<EntryRow>, b: nat): set<int> {
    set p | p in PlayersOf(entries, b)
  }

  predicate AllFinished(races: seq<RaceRow>) {
    forall race | race in races :: race.state == RaceState.Finished
  }

  predicate IsActive(db: Db, s: nat) {
    s < |db.seasons| && db.seasons[s].finished.None?
  }

  // ----- seasons

  function CreateSeason(db: Db): Db {
    db.(seasons := db.seasons + [SeasonRow(SeasonState.Created, None)])
  }

  predicate AllBracketsFinished(db: Db, s: nat) {
    forall b | b in db.brackets && b.season == s :: b.state == BracketState.Finished
  }

  function NextSeason(row: SeasonRow, target: SeasonState, bracketsFinished: bool, now: int): Result<SeasonRow, Error> {
    if row.state == target then Success(row)
    else match target
      case Created => Failure(SeasonStateError)
      case QualifiersOpen =>
        if row.state == SeasonState.Created then Success(row.(state := target)) else Failure(SeasonStateError)
      case QualifiersClosed =>
        if row.state == SeasonState.QualifiersOpen then Success(row.(state := target)) else Failure(SeasonStateError)
      case Started =>
        if row.state == SeasonState.QualifiersClosed then Success(row.(state := target)) else Failure(SeasonStateError)
      case Finished =>
        if row.state != SeasonState.Started then Failure(SeasonStateError)
        else if !bracketsFinished then Failure(BracketNotFinished)
        else Success(row.(state := target, finished := Some(now)))
  }

  function SetSeasonState(db: Db, s: nat, target: SeasonState, now: int): Result<Db, Error> {
    if s >= |db.seasons| then Failure(NotFound)
    else match NextSeason(db.seasons[s], target, AllBracketsFinished(db, s), now)
      case Failure(e) => Failure(e)
      case Success(row) => Success(db.(seasons := db.seasons[s := row]))
  }

  // ----- brackets

  function CreateBracket(db: Db, s: nat, kind: BracketType): Result<Db, Error> {
    if !IsActive(db, s) then Failure(NotFound)
    else Success(db.(brackets := db.brackets + [BracketRow(s, BracketState.Unstarted, kind)]))
  }

  function AddPlayer(db: Db, b: nat, player: int): Result<Db, Error> {
    if b >= |db.brackets| || !IsActive(db, db.brackets[b].season) then Failure(NotFound)
    else Success(db.(entries := db.entries + [EntryRow(b, player)]))
  }

  function FinishBracket(db: Db, b: nat): Result<Db, Error> {
    if b >= |db.brackets| then Failure(NotFound)
    else if exists r | r in RoundsOf(db, b) :: !AllFinished(RacesIn(db.races, r)) then Failure(BracketNotFinished)
    else Success(db.(brackets := db.brackets[b := db.brackets[b].(state := BracketState.Finished)]))
  }

  // ----- pairings

  function NewRaces(b: nat, r: nat, pairs: seq<Pair>): (news: seq<RaceRow>)
    ensures |news| == |pairs|
    ensures forall k | 0 <= k < |pairs| :: news[k] == NewRace(b, r, pairs[k].0, pairs[k].1)
  {
    seq(|pairs|, k requires 0 <= k < |pairs| => NewRace(b, r, pairs[k].0, pairs[k].1))
  }

  /** The unique index on round number and bracket. */
  predicate RoundExists(db: Db, b: nat, num: int) {
    RoundRow(num, b) in db.rounds
  }

  /** A new round with its races; the bracket is started. */
  function WithRound(db: Db, b: nat, num: int, pairs: seq<Pair>): Db
    requires b < |db.brackets|
  {
    db.(rounds := db.rounds + [RoundRow(num, b)],
        races := db.races + NewRaces(b, |db.rounds|, pairs),
        brackets := db.brackets[b := db.brackets[b].(state := BracketState.Started)])
  }

  function InitialPairs(db: Db, b: nat, shuffled: seq<int>): Result<seq<Pair>, PairingError>
    requires b < |db.brackets|
  {
    match db.brackets[b].kind
    case Swiss => if |shuffled| % 2 == 0 then Success(PairOff(shuffled)) else Failure(OddPlayerCount)
    case RoundRobin => CheckedRoundRobin(PlayersOf(db.entries, b))
  }

  /** The count of an empty round robin aborts; the other failures are errors. */
  function PairingFailure(e: PairingError): Error {
    if e == CountOverflow then Aborted else Pairing(e)
  }

  function GenerateInitial(db: Db, b: nat, shuffled: seq<int>): Result<Db, Error>
    requires b < |db.brackets|
  {
    if RoundIds(db.rounds, b) != [] then Failure(Error.InvalidState)
    else if RoundExists(db, b, 1) then Failure(UniqueViolation)
    else match InitialPairs(db, b, shuffled)
      case Failure(e) => Failure(PairingFailure(e))
      case Success(pairs) => Success(WithRound(db, b, 1, pairs))
  }

  /** The loop's assertion: round numbers are positive and strictly ascending. */
  predicate AscendingNums(rounds: seq<RoundRow>, ids: seq<nat>)
    requires Within(ids, |rounds|)
  {
    (ids != [] ==> rounds[ids[0]].num > 0)
    && forall k | 0 < k < |ids| :: rounds[ids[k]].num > rounds[ids[k - 1]].num
  }

  function HighestNum(rounds: seq<RoundRow>, ids: seq<nat>): int
    requires Within(ids, |rounds|)
  {
    if ids == [] then 0 else rounds[ids[|ids| - 1]].num
  }

  predicate AllConvert(races: seq<RaceRow>) {
    forall race | race in races :: TryIntoMatchResult(race).Success?
  }

  predicate RoundsConvert(races: seq<RaceRow>, ids: seq<nat>) {
    forall r | r in ids :: AllConvert(RacesIn(races, r))
  }

  /** The last part of the next round: the row of the round, then the players of the pairings. */
  function CommitNext(db: Db, b: nat, num: int, pairings: seq<Pair>): Result<Db, Error>
    requires b < |db.brackets|
  {
    if RoundExists(db, b, num) then Failure(UniqueViolation)
    else match Taken(EnteredIn(db.entries, b), pairings)
      case Failure(e) => Failure(Pairing(e))
      case Success(pairs) => Success(WithRound(db, b, num, pairs))
  }

  /** The number of the next round, if the rounds so far allow one. */
  function NextNumber(db: Db, b: nat): Result<int, Error>
    requires b < |db.brackets|
  {
    if db.brackets[b].kind == RoundRobin then Failure(AlreadyGenerated)
    else if !AscendingNums(db.rounds, RoundsOf(db, b)) then Failure(AssertionFailed)
    else if !RoundsConvert(db.races, RoundsOf(db, b)) then Failure(NotConvertible)
    else Success(HighestNum(db.rounds, RoundsOf(db, b)) + 1)
  }

  /** `answer` is what the pairing library returns, `None` if it fails. */
  function GenerateNext(db: Db, b: nat, answer: Option<seq<Pair>>): Result<Db, Error>
    requires b < |db.brackets|
  {
    match NextNumber(db, b)
    case Failure(e) => Failure(e)
    case Success(num) => if answer.None? then Failure(LibraryError) else CommitNext(db, b, num, answer.value)
  }

  function GeneratePairings(db: Db, b: nat, shuffled: seq<int>, answer: Option<seq<Pair>>): Result<Db, Error> {
    if b >= |db.brackets| then Failure(NotFound)
    else match db.brackets[b].state
      case Unstarted => GenerateInitial(db, b, shuffled)
      case Started => GenerateNext(db, b, answer)
      case Finished => Failure(Error.InvalidState)
  }

  // ----- races

  /** The id of the race's info row, or the number of rows if there is none yet. */
  function InfoIndex(infos: seq<InfoRow>, i: nat): (j: nat)
    ensures j <= |infos|
    ensures j < |infos| ==> infos[j].race == i
    ensures forall k | 0 <= k < j :: infos[k].race != i
  {
    if infos == [] then 0
    else if infos[0].race == i then 0
    else
      assert forall k | 0 <= k < |infos[1..]| :: infos[1..][k] == infos[k + 1];
      1 + InfoIndex(infos[1..], i)
  }

  /** The info row of a race, created if it is not there. */
  function WithInfo(infos: seq<InfoRow>, i: nat): seq<InfoRow> {
    if InfoIndex(infos, i) < |infos| then infos else infos + [InfoRow(i, None, None)]
  }

  function ScheduleRace(db: Db, i: nat, when: int): Result<Db, Error> {
    if i >= |db.races| then Failure(NotFound)
    else match Rescheduled(db.races[i])
      case Failure(e) => Failure(RaceStateError(e))
      case Success(row) =>
        var infos := WithInfo(db.infos, i);
        Success(db.(races := db.races[i := row], infos := infos[InfoIndex(db.infos, i) := InfoRow(i, Some(when), None)]))
  }

  /** Both players are taken out of a map of the race's players, one after the other: that fails if they
      are the same. */
  function ReportRace(db: Db, i: nat, r1: PlayerResult, r2: PlayerResult, force: bool): Result<Db, Error> {
    if i >= |db.races| then Failure(NotFound)
    else if db.races[i].p1 == db.races[i].p2 then Failure(PlayerNotFound)
    else if force && db.races[i].state != RaceState.Finished then Failure(NotYetReported)
    else match WithResults(db.races[i], Some(r1), Some(r2), force)
      case Failure(e) => Failure(RaceStateError(e))
      case Success(row) => Success(db.(races := db.races[i := row], infos := WithInfo(db.infos, i)))
  }

  // ----- commands and runs

  datatype Command =
    | CmdCreateSeason
    | CmdSetSeasonState(season: nat, target: SeasonState, now: int)
    | CmdCreateBracket(season: nat, kind: BracketType)
    | CmdAddPlayer(bracket: nat, player: int)
    | CmdGeneratePairings(bracket: nat, shuffled: seq<int>, answer: Option<seq<Pair>>)
    | CmdFinishBracket(bracket: nat)
    | CmdSchedule(race: nat, when: int)
    | CmdReport(race: nat, r1: PlayerResult, r2: PlayerResult)
    | CmdRereport(race: nat, r1: PlayerResult, r2: PlayerResult)

  function Step(db: Db, cmd: Command): Result<Db, Error> {
    match cmd
    case CmdCreateSeason => Success(CreateSeason(db))
    case CmdSetSeasonState(s, target, now) => SetSeasonState(db, s, target, now)
    case CmdCreateBracket(s, kind) => CreateBracket(db, s, kind)
    case CmdAddPlayer(b, player) => AddPlayer(db, b, player)
    case CmdGeneratePairings(b, shuffled, answer) => GeneratePairings(db, b, shuffled, answer)
    case CmdFinishBracket(b) => FinishBracket(db, b)
    case CmdSchedule(i, when) => ScheduleRace(db, i, when)
    case CmdReport(i, r1, r2) => ReportRace(db, i, r1, r2, false)
    case CmdRereport(i, r1, r2) => ReportRace(db, i, r1, r2, true)
  }

  /** What an aborted generator leaves behind. The panic passes through the transaction without
      rolling it back, and the connection goes back to the pool with the row of the round inserted and
      the transaction open: this is what later commands on that connection see. */
  function AfterAbort(db: Db, b: nat): Db {
    db.(rounds := db.rounds + [RoundRow(1, b)])
  }

  /** A refused command leaves the database as it was, except that reporting a race has by then
      created its info row. */
  function AfterFailure(db: Db, cmd: Command, e: Error): Db {
    if cmd.CmdGeneratePairings? && e == Aborted then AfterAbort(db, cmd.bracket)
    else if (cmd.CmdReport? || cmd.CmdRereport?) && cmd.race < |db.races| then
      db.(infos := WithInfo(db.infos, cmd.race))
    else db
  }

  function Apply(db: Db, cmd: Command): Db {
    match Step(db, cmd)
    case Success(after) => after
    case Failure(e) => AfterFailure(db, cmd, e)
  }

  /** The one thing a command may not choose freely: the shuffle is a shuffle of the entries. */
  ghost predicate Enabled(db: Db, cmd: Command) {
    cmd.CmdGeneratePairings? ==> multiset(cmd.shuffled) == multiset(PlayersOf(db.entries, cmd.bracket))
  }

  ghost predicate IsStep(cmds: seq<Command>, dbs: seq<Db>, i: nat)
    requires |dbs| == |cmds| + 1 && i < |cmds|
  {
    Enabled(dbs[i], cmds[i]) && dbs[i + 1] == Apply(dbs[i], cmds[i])
  }

  /** The databases a sequence of commands goes through, from the empty one. */
  ghost predicate IsRun(cmds: seq<Command>, dbs: seq<Db>) {
    && |dbs| == |cmds| + 1
    && dbs[0] == EMPTY_DB
    && forall i: nat | i < |cmds| :: IsStep(cmds, dbs, i)
  }
}

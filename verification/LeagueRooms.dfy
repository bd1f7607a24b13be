/** The room service over the league's database. The producer queries the database's rows, the consumer
    stores the room's url in them, the commands of the league schedule and finish races, and the scanner
    reports them: in every interleaving of all of these the database and the service's own view of the
    races agree, so what holds of rooms holds of the league. */
module LeagueRooms {
  import opened Wrappers
  import opened Results
  import opened BracketRaces
  import opened Pairings
  import opened League
  import opened LeagueInvariant
  import opened LeagueTheorems
  import LeagueLinks
  import SelfRaces
  import Rooms

  /** The database, and the service: channel, rooms, slugs, clock, and its view of the info rows with the
      history that the database does not hold. */
  datatype Joint = Joint(db: Db, room: Rooms.State)

  datatype Event =
    | Handle(cmd: Command)
    | Wait(until: int)
    | Tick(doubled: bool)
    | Consume(outcome: Rooms.Outcome)
    | Scan(row: nat, url: string, r1: PlayerResult, r2: PlayerResult)
    | Forget(slug: string)
    | Restart

  // ----- what the service reads of the database

  /** The first season without a finish time, from the `s`-th on. */
  function ActiveFrom(seasons: seq<SeasonRow>, s: nat): (r: Option<nat>)
    requires s <= |seasons|
    ensures r.Some? ==> s <= r.value < |seasons| && seasons[r.value].finished.None?
    ensures forall k | s <= k < (if r.Some? then r.value else |seasons|) :: seasons[k].finished.Some?
    decreases |seasons| - s
  {
    if s == |seasons| then None else if seasons[s].finished.None? then Some(s) else ActiveFrom(seasons, s + 1)
  }

  function ActiveSeason(db: Db): Option<nat> {
    ActiveFrom(db.seasons, 0)
  }

  /** Info row `j` is of a race in a bracket of the season. */
  predicate InSeason(db: Db, s: nat, j: nat) {
    && j < |db.infos| && db.infos[j].race < |db.races|
    && db.races[db.infos[j].race].bracket < |db.brackets|
    && db.brackets[db.races[db.infos[j].race].bracket].season == s
  }

  function SeasonRows(db: Db, s: nat, n: nat): (rows: seq<int>)
    requires n <= |db.infos|
    ensures forall j :: j in rows <==> 0 <= j < n && InSeason(db, s, j)
  {
    if n == 0 then [] else SeasonRows(db, s, n - 1) + if InSeason(db, s, n - 1) then [n - 1] else []
  }

  /** The info rows of the active season, none if there is no active season. */
  function ActiveRows(db: Db): seq<int> {
    match ActiveSeason(db)
    case None => []
    case Some(s) => SeasonRows(db, s, |db.infos|)
  }

  // ----- steps

  function WithUrl(db: Db, j: nat, url: string): Db
    requires j < |db.infos|
  {
    db.(infos := db.infos[j := db.infos[j].(url := Some(url))])
  }

  /** What the consumer stores: the url of the room it has opened, in a row that has none. */
  function ConsumedDb(base: string, db: Db, queue: seq<Rooms.Request>, outcome: Rooms.Outcome): Db {
    if queue == [] || !(0 <= queue[0].bri < |db.infos|) || db.infos[queue[0].bri].url.Some? then db
    else match outcome
      case Opened(slug) => WithUrl(db, queue[0].bri, Rooms.UrlFromSlug(base, slug))
      case _ => db
  }

  function DbAfter(base: string, x: Joint, e: Event): Db {
    match e
    case Handle(cmd) => Apply(x.db, cmd)
    case Consume(outcome) => ConsumedDb(base, x.db, x.room.queue, outcome)
    case Scan(j, url, r1, r2) =>
      if j < |x.db.infos| then Apply(WithUrl(x.db, j, url), CmdReport(x.db.infos[j].race, r1, r2)) else x.db
    case _ => x.db
  }

  /** What a command of the league is for the rooms: rescheduling, finishing, or only creating the info
      row of a race; any other command is nothing at all, as waiting until now. */
  function CommandStep(db: Db, cmd: Command, clock: int): Rooms.Step {
    match cmd
    case CmdSchedule(i, when) =>
      if Step(db, cmd).Success? then Rooms.StepReschedule(InfoIndex(db.infos, i), when) else Rooms.StepWait(clock)
    case CmdReport(i, _, _) => ReportStep(db, cmd, i, clock)
    case CmdRereport(i, _, _) => ReportStep(db, cmd, i, clock)
    case _ => Rooms.StepWait(clock)
  }

  function ReportStep(db: Db, cmd: Command, i: nat, clock: int): Rooms.Step {
    if Step(db, cmd).Success? then Rooms.StepReport(InfoIndex(db.infos, i))
    else if i < |db.races| then Rooms.StepTouch(InfoIndex(db.infos, i))
    else Rooms.StepWait(clock)
  }

  function RoomStep(x: Joint, e: Event): Rooms.Step {
    match e
    case Handle(cmd) => CommandStep(x.db, cmd, x.room.clock)
    case Wait(until) => Rooms.StepWait(until)
    case Tick(doubled) => Rooms.StepTick(ActiveRows(x.db), doubled)
    case Consume(outcome) => Rooms.StepConsume(outcome)
    case Scan(j, url, _, _) => Rooms.StepAttach(j, url)
    case Forget(slug) => Rooms.StepForget(slug)
    case Restart => Rooms.StepRestart(ActiveRows(x.db))
  }

  function Next(base: string, x: Joint, e: Event): Joint {
    Joint(DbAfter(base, x, e), Rooms.Apply(base, x.room, RoomStep(x, e)))
  }

  /** Info row `j` is of a race of a player against themself. */
  predicate SelfRow(db: Db, j: int) {
    0 <= j < |db.infos| && db.infos[j].race < |db.races| && SelfRaces.IsSelfRace(db.races[db.infos[j].race])
  }

  /** The scanner reports only an open race of two players, and a room is named after two players: for
      the race of a player against themself it is not even asked for. */
  ghost predicate CanHappen(x: Joint, e: Event) {
    && (e.Handle? ==> Enabled(x.db, e.cmd))
    && (e.Scan? ==> e.row < |x.db.infos| && ReportRace(x.db, x.db.infos[e.row].race, e.r1, e.r2, false).Success?)
    && (e.Consume? && x.room.queue != [] && SelfRow(x.db, x.room.queue[0].bri) ==> e.outcome.CreateFails?)
    && Rooms.Enabled(x.room, RoomStep(x, e))
  }

  ghost predicate IsJointStep(base: string, events: seq<Event>, xs: seq<Joint>, i: nat)
    requires |xs| == |events| + 1 && i < |events|
  {
    CanHappen(xs[i], events[i]) && xs[i + 1] == Next(base, xs[i], events[i])
  }

  ghost predicate IsJointRun(base: string, events: seq<Event>, xs: seq<Joint>) {
    && |xs| == |events| + 1
    && xs[0] == Joint(EMPTY_DB, Rooms.Start(xs[0].room.clock, xs[0].room.lead))
    && forall i: nat | i < |events| :: IsJointStep(base, events, xs, i)
  }

  /** The rooms of a joint run go through a run of their own, so whatever holds over every run of the
      rooms holds here. */
  lemma RoomsOfJointRun(base: string, events: seq<Event>, xs: seq<Joint>) returns (steps: seq<Rooms.Step>, states: seq<Rooms.State>)
    requires IsJointRun(base, events, xs)
    ensures Rooms.IsRun(base, steps, states) && |states| == |xs|
    ensures forall i | 0 <= i < |xs| :: states[i] == xs[i].room
    ensures forall i | 0 <= i < |events| :: steps[i] == RoomStep(xs[i], events[i])
  {
    steps := seq(|events|, i requires 0 <= i < |events| => RoomStep(xs[i], events[i]));
    states := seq(|xs|, i requires 0 <= i < |xs| => xs[i].room);
    forall i: nat | i < |steps|
      ensures Rooms.IsStep(base, steps, states, i)
    {
      assert IsJointStep(base, events, xs, i);
    }
  }

  // ----- agreement

  predicate AgreeAt(races: seq<RaceRow>, row: InfoRow, info: Rooms.Info) {
    && info.scheduledFor == row.scheduledFor && info.url == row.url
    && (info.finished <==> row.race < |races| && races[row.race].state == RaceState.Finished)
  }

  /** The service's view has exactly the info rows, and agrees with them. */
  ghost predicate Agree(races: seq<RaceRow>, rows: seq<InfoRow>, infos: map<int, Rooms.Info>) {
    && (forall b :: b in infos <==> 0 <= b < |rows|)
    && (forall j | 0 <= j < |rows| :: AgreeAt(races, rows[j], infos[j]))
  }

  /** A finished race has an info row: reporting it has created one. */
  predicate FinishedHaveInfo(db: Db) {
    forall i | 0 <= i < |db.races| && db.races[i].state == RaceState.Finished :: InfoIndex(db.infos, i) < |db.infos|
  }

  ghost predicate Paired(x: Joint) {
    FinishedHaveInfo(x.db) && Agree(x.db.races, x.db.infos, x.room.infos)
  }

  ghost predicate JointInv(base: string, x: Joint) {
    && Inv(x.db) && Paired(x)
    && Rooms.Inv(base, x.room) && Rooms.QueueOk(x.room)
  }

  lemma {:induction false} SameIndex(infos: seq<InfoRow>, others: seq<InfoRow>, i: nat)
    requires |infos| == |others| && forall k | 0 <= k < |infos| :: infos[k].race == others[k].race
    ensures InfoIndex(infos, i) == InfoIndex(others, i)
  {
    if infos != [] {
      SameIndex(infos[1..], others[1..], i);
    }
  }

  lemma WithUrlKeepsInv(db: Db, j: nat, url: string)
    requires Inv(db) && j < |db.infos|
    ensures Inv(WithUrl(db, j, url))
  {
    WithUrlInfosOk(db.races, db.infos, WithUrl(db, j, url).infos);
    InfosKeepInv(db, WithUrl(db, j, url).infos);
  }

  lemma WithUrlInfosOk(races: seq<RaceRow>, infos: seq<InfoRow>, after: seq<InfoRow>)
    requires InfosOk(races, infos) && |after| == |infos|
    requires forall k | 0 <= k < |infos| :: after[k].race == infos[k].race && after[k].scheduledFor == infos[k].scheduledFor
    ensures InfosOk(races, after)
  {
    forall i: nat
      ensures InfoIndex(after, i) == InfoIndex(infos, i)
    {
      SameIndex(after, infos, i);
    }
  }

  lemma WithUrlFinished(db: Db, j: nat, url: string)
    requires FinishedHaveInfo(db) && j < |db.infos|
    ensures FinishedHaveInfo(WithUrl(db, j, url))
  {
    forall i: nat
      ensures InfoIndex(WithUrl(db, j, url).infos, i) == InfoIndex(db.infos, i)
    {
      SameIndex(WithUrl(db, j, url).infos, db.infos, i);
    }
  }

  // ----- the service's own steps

  lemma ConsumeAgrees(base: string, x: Joint, outcome: Rooms.Outcome)
    requires Agree(x.db.races, x.db.infos, x.room.infos)
    ensures var after := Next(base, x, Consume(outcome)); Agree(after.db.races, after.db.infos, after.room.infos)
  {
  }

  lemma SendingKeepsInfos(s: Rooms.State, rows: seq<int>, doubled: bool)
    ensures Rooms.Tick(s, rows, doubled).infos == s.infos
  {
    Rooms.SendAllOnlyQueues(s, Rooms.StartingBefore(s, rows, s.clock + s.lead), doubled);
  }

  lemma ConsumePaired(base: string, x: Joint, outcome: Rooms.Outcome)
    requires Paired(x)
    ensures Paired(Next(base, x, Consume(outcome)))
  {
    ConsumeAgrees(base, x, outcome);
    if ConsumedDb(base, x.db, x.room.queue, outcome) != x.db {
      WithUrlFinished(x.db, x.room.queue[0].bri, Rooms.UrlFromSlug(base, outcome.slug));
    }
  }

  lemma ServiceAgrees(base: string, x: Joint, e: Event)
    requires Paired(x) && !e.Handle? && !e.Scan?
    ensures Paired(Next(base, x, e))
  {
    match e
    case Consume(outcome) => ConsumePaired(base, x, outcome);
    case Tick(doubled) => SendingKeepsInfos(x.room, ActiveRows(x.db), doubled);
    case Wait(_) =>
    case Forget(_) =>
    case Restart =>
  }

  lemma ServiceKeepsInv(base: string, x: Joint, e: Event)
    requires Inv(x.db) && !e.Handle? && !e.Scan?
    ensures Inv(Next(base, x, e).db)
  {
    if e.Consume? && ConsumedDb(base, x.db, x.room.queue, e.outcome) != x.db {
      WithUrlKeepsInv(x.db, x.room.queue[0].bri, Rooms.UrlFromSlug(base, e.outcome.slug));
    }
  }

  // ----- the league's commands

  /** Commands that touch neither info rows nor the races that are there, and add only new races. */
  ghost predicate OnlyAddsRaces(db: Db, after: Db) {
    && after.infos == db.infos && |db.races| <= |after.races| && after.races[..|db.races|] == db.races
    && forall i | |db.races| <= i < |after.races| :: after.races[i].state == RaceState.New
  }

  lemma EffectOnlyAddsRaces(db: Db, after: Db, b: nat)
    requires GenerateEffect(db, after, b)
    ensures OnlyAddsRaces(db, after)
  {
    if after != db && after != AfterAbort(db, b) {
      var pairs: seq<Pair> :| CommitsRound(db, after, b, pairs);
      forall i | |db.races| <= i < |after.races|
        ensures after.races[i].state == RaceState.New
      {
        var k := i - |db.races|;
        assert after.races[|db.races| + k] == NewRace(b, |db.rounds|, pairs[k].0, pairs[k].1);
      }
    }
  }

  lemma BracketCommandsAddNothing(db: Db, cmd: Command)
    requires !cmd.CmdGeneratePairings? && !cmd.CmdSchedule? && !cmd.CmdReport? && !cmd.CmdRereport?
    ensures Apply(db, cmd).infos == db.infos && Apply(db, cmd).races == db.races
  {
  }

  lemma OtherCommandsOnlyAddRaces(db: Db, cmd: Command)
    requires Inv(db) && Enabled(db, cmd) && !cmd.CmdSchedule? && !cmd.CmdReport? && !cmd.CmdRereport?
    ensures OnlyAddsRaces(db, Apply(db, cmd))
  {
    if cmd.CmdGeneratePairings? {
      GenerateHasEffect(db, cmd);
      EffectOnlyAddsRaces(db, Apply(db, cmd), cmd.bracket);
    } else {
      BracketCommandsAddNothing(db, cmd);
    }
  }

  lemma AddingRacesAgrees(db: Db, after: Db, infos: map<int, Rooms.Info>)
    requires InfosOk(db.races, db.infos) && FinishedHaveInfo(db) && Agree(db.races, db.infos, infos) && OnlyAddsRaces(db, after)
    ensures FinishedHaveInfo(after) && Agree(after.races, after.infos, infos)
  {
    assert forall i | 0 <= i < |db.races| :: after.races[i] == after.races[..|db.races|][i];
  }

  lemma HasIndex(infos: seq<InfoRow>, i: nat, j: nat)
    requires j < |infos| && infos[j].race == i
    ensures InfoIndex(infos, i) < |infos|
  {
  }

  lemma PlacedRowFinished(db: Db, i: nat, row: RaceRow, j: nat, info: InfoRow, rows: seq<InfoRow>)
    requires FinishedHaveInfo(db) && i < |db.races| && info.race == i
    requires j < |rows| && (j < |db.infos| ==> rows == db.infos) && (j == |db.infos| ==> |rows| == j + 1 && rows[..j] == db.infos)
    requires j <= |db.infos| && (j < |db.infos| ==> db.infos[j].race == i)
    ensures FinishedHaveInfo(db.(races := db.races[i := row], infos := rows[j := info]))
  {
    var after := db.(races := db.races[i := row], infos := rows[j := info]);
    forall k | 0 <= k < |after.races| && after.races[k].state == RaceState.Finished
      ensures InfoIndex(after.infos, k) < |after.infos|
    {
      if k != i {
        var x := InfoIndex(db.infos, k);
        assert after.infos[x] == db.infos[x] by {
          assert j == |db.infos| ==> rows[..j][x] == db.infos[x];
        }
        HasIndex(after.infos, k, x);
      } else {
        HasIndex(after.infos, k, j);
      }
    }
  }

  /** Race `i` gets a new row, and its info row, created if need be, is `info`; the service's view of it
      becomes `view`. Everything else stays. */
  lemma RaceRowAgrees(x: Joint, i: nat, row: RaceRow, info: InfoRow, view: Rooms.Info)
    requires InfosOk(x.db.races, x.db.infos) && Paired(x)
    requires i < |x.db.races| && info.race == i && AgreeAt(x.db.races[i := row], info, view)
    ensures InfoIndex(x.db.infos, i) < |WithInfo(x.db.infos, i)|
    ensures var j := InfoIndex(x.db.infos, i);
      Paired(Joint(x.db.(races := x.db.races[i := row], infos := WithInfo(x.db.infos, i)[j := info]),
                   x.room.(infos := x.room.infos[j := view])))
  {
    var j, rows := InfoIndex(x.db.infos, i), WithInfo(x.db.infos, i);
    PlacedRowFinished(x.db, i, row, j, info, rows);
    WithInfoOthersStay(x.db.races, x.db.infos, i);
    PlacedRowAgrees(x.db.races, x.db.infos, x.room.infos, i, row, j, info, rows, view);
  }

  /** The rows are the given ones, but for row `j`, the only one of race `i`, which can be a new one. */
  predicate OthersStay(before: seq<InfoRow>, rows: seq<InfoRow>, i: nat, j: nat) {
    && |before| <= |rows| && j < |rows| && (|rows| == |before| || (|rows| == |before| + 1 && j == |before|))
    && forall k | 0 <= k < |before| && k != j :: rows[k] == before[k] && before[k].race != i
  }

  lemma WithInfoOthersStay(races: seq<RaceRow>, infos: seq<InfoRow>, i: nat)
    requires InfosOk(races, infos) && i < |races|
    ensures OthersStay(infos, WithInfo(infos, i), i, InfoIndex(infos, i))
  {
    WithInfoOk(races, infos, i);
  }

  lemma PlacedRowAgrees(
    races: seq<RaceRow>, before: seq<InfoRow>, infos: map<int, Rooms.Info>, i: nat, row: RaceRow, j: nat, info: InfoRow,
    rows: seq<InfoRow>, view: Rooms.Info)
    requires Agree(races, before, infos) && i < |races| && OthersStay(before, rows, i, j)
    requires AgreeAt(races[i := row], info, view)
    ensures Agree(races[i := row], rows[j := info], infos[j := view])
  {
    forall k | 0 <= k < |rows| && k != j
      ensures AgreeAt(races[i := row], rows[k], infos[k])
    {
      OtherRowAgrees(races, i, row, before[k], infos[k]);
    }
  }

  lemma OtherRowAgrees(races: seq<RaceRow>, i: nat, row: RaceRow, info: InfoRow, view: Rooms.Info)
    requires i < |races| && info.race != i && AgreeAt(races, info, view)
    ensures AgreeAt(races[i := row], info, view)
  {
  }

  /** The info row of a race as it is, or as it is created. */
  function InfoRowOf(infos: seq<InfoRow>, i: nat): InfoRow {
    if InfoIndex(infos, i) < |infos| then infos[InfoIndex(infos, i)] else InfoRow(i, None, None)
  }

  lemma SameInfoRow(infos: seq<InfoRow>, i: nat)
    ensures InfoIndex(infos, i) < |WithInfo(infos, i)|
    ensures WithInfo(infos, i)[InfoIndex(infos, i) := InfoRowOf(infos, i)] == WithInfo(infos, i)
  {
  }

  /** The service's view of a race that has no info row is that of a new, unfinished race. */
  lemma ViewOf(x: Joint, i: nat)
    requires Paired(x) && i < |x.db.races|
    ensures AgreeAt(x.db.races, InfoRowOf(x.db.infos, i), Rooms.InfoOf(x.room, InfoIndex(x.db.infos, i)))
  {
    var j := InfoIndex(x.db.infos, i);
    assert j < |x.db.infos| ==> AgreeAt(x.db.races, x.db.infos[j], x.room.infos[j]);
  }

  lemma ScheduleAgrees(x: Joint, i: nat, when: int)
    requires InfosOk(x.db.races, x.db.infos) && Paired(x) && ScheduleRace(x.db, i, when).Success?
    ensures Paired(Joint(ScheduleRace(x.db, i, when).value, Rooms.Reschedule(x.room, InfoIndex(x.db.infos, i), when)))
  {
    var j := InfoIndex(x.db.infos, i);
    var info := Rooms.InfoOf(x.room, j);
    ViewOf(x, i);
    RaceRowAgrees(x, i, Rescheduled(x.db.races[i]).value, InfoRow(i, Some(when), None),
                  Rooms.Info(Some(when), None, false, info.scheduling + 1, false));
  }

  lemma ReportAgrees(x: Joint, i: nat, r1: PlayerResult, r2: PlayerResult, force: bool)
    requires InfosOk(x.db.races, x.db.infos) && Paired(x) && ReportRace(x.db, i, r1, r2, force).Success?
    ensures Paired(Joint(ReportRace(x.db, i, r1, r2, force).value, Rooms.Report(x.room, InfoIndex(x.db.infos, i))))
  {
    var j := InfoIndex(x.db.infos, i);
    ViewOf(x, i);
    SameInfoRow(x.db.infos, i);
    RaceRowAgrees(x, i, WithResults(x.db.races[i], Some(r1), Some(r2), force).value, InfoRowOf(x.db.infos, i),
                  Rooms.InfoOf(x.room, j).(finished := true));
  }

  lemma TouchAgrees(x: Joint, i: nat)
    requires InfosOk(x.db.races, x.db.infos) && Paired(x) && i < |x.db.races|
    ensures Paired(Joint(x.db.(infos := WithInfo(x.db.infos, i)), Rooms.Touch(x.room, InfoIndex(x.db.infos, i))))
  {
    ViewOf(x, i);
    SameInfoRow(x.db.infos, i);
    assert x.db.races[i := x.db.races[i]] == x.db.races;
    RaceRowAgrees(x, i, x.db.races[i], InfoRowOf(x.db.infos, i), Rooms.InfoOf(x.room, InfoIndex(x.db.infos, i)));
  }

  lemma ScheduleCommandAgrees(base: string, x: Joint, i: nat, when: int)
    requires InfosOk(x.db.races, x.db.infos) && Paired(x)
    ensures Paired(Next(base, x, Handle(CmdSchedule(i, when))))
  {
    if ScheduleRace(x.db, i, when).Success? {
      ScheduleAgrees(x, i, when);
    }
  }

  predicate IsReport(cmd: Command) {
    cmd.CmdReport? || cmd.CmdRereport?
  }

  lemma ReportNext(base: string, x: Joint, cmd: Command)
    requires IsReport(cmd)
    ensures Step(x.db, cmd).Success? ==>
      Next(base, x, Handle(cmd)) == Joint(Step(x.db, cmd).value, Rooms.Report(x.room, InfoIndex(x.db.infos, cmd.race)))
    ensures Step(x.db, cmd).Failure? && cmd.race < |x.db.races| ==>
      Next(base, x, Handle(cmd))
      == Joint(x.db.(infos := WithInfo(x.db.infos, cmd.race)), Rooms.Touch(x.room, InfoIndex(x.db.infos, cmd.race)))
    ensures cmd.race >= |x.db.races| ==> Next(base, x, Handle(cmd)) == x
  {
  }

  lemma ReportCommandAgrees(base: string, x: Joint, cmd: Command)
    requires InfosOk(x.db.races, x.db.infos) && Paired(x) && IsReport(cmd)
    ensures Paired(Next(base, x, Handle(cmd)))
  {
    ReportNext(base, x, cmd);
    if Step(x.db, cmd).Success? {
      ReportAgrees(x, cmd.race, cmd.r1, cmd.r2, cmd.CmdRereport?);
    } else if cmd.race < |x.db.races| {
      TouchAgrees(x, cmd.race);
    }
  }

  lemma OtherCommandAgrees(base: string, x: Joint, cmd: Command)
    requires InfosOk(x.db.races, x.db.infos) && Paired(x) && OnlyAddsRaces(x.db, Apply(x.db, cmd))
    requires !cmd.CmdSchedule? && !cmd.CmdReport? && !cmd.CmdRereport?
    ensures Paired(Next(base, x, Handle(cmd)))
  {
    AddingRacesAgrees(x.db, Apply(x.db, cmd), x.room.infos);
  }

  lemma CommandAgrees(base: string, x: Joint, cmd: Command)
    requires Inv(x.db) && Paired(x) && Enabled(x.db, cmd)
    ensures Paired(Next(base, x, Handle(cmd)))
  {
    match cmd
    case CmdSchedule(i, when) => ScheduleCommandAgrees(base, x, i, when);
    case CmdReport(_, _, _) => ReportCommandAgrees(base, x, cmd);
    case CmdRereport(_, _, _) => ReportCommandAgrees(base, x, cmd);
    case _ =>
      OtherCommandsOnlyAddRaces(x.db, cmd);
      OtherCommandAgrees(base, x, cmd);
  }

  // ----- the scanner

  /** The service's view while the scanner has stored the url and not yet reported the race. */
  function Attaching(x: Joint, j: nat, url: string): Joint
    requires j < |x.db.infos| && j in x.room.infos
  {
    Joint(WithUrl(x.db, j, url), x.room.(infos := x.room.infos[j := x.room.infos[j].(url := Some(url), attached := true)]))
  }

  lemma AttachingAgrees(x: Joint, j: nat, url: string)
    requires Paired(x) && j < |x.db.infos|
    ensures j in x.room.infos && Paired(Attaching(x, j, url))
  {
    WithUrlFinished(x.db, j, url);
    assert AgreeAt(x.db.races, x.db.infos[j], x.room.infos[j]);
  }

  lemma AttachingKeepsIndex(x: Joint, j: nat, url: string)
    requires InfosOk(x.db.races, x.db.infos) && j < |x.db.infos| && j in x.room.infos
    ensures var infos := Attaching(x, j, url).db.infos;
      InfosOk(x.db.races, infos) && InfoIndex(infos, x.db.infos[j].race) == j
  {
    var infos := Attaching(x, j, url).db.infos;
    WithUrlInfosOk(x.db.races, x.db.infos, infos);
    InfoIndexUnique(infos, x.db.infos[j].race, j);
  }

  lemma ScanNext(base: string, x: Joint, j: nat, url: string, r1: PlayerResult, r2: PlayerResult)
    requires j < |x.db.infos| && j in x.room.infos
    requires ReportRace(x.db, x.db.infos[j].race, r1, r2, false).Success?
    ensures var mid := Attaching(x, j, url); var reported := ReportRace(mid.db, x.db.infos[j].race, r1, r2, false);
      reported.Success? && Next(base, x, Scan(j, url, r1, r2)) == Joint(reported.value, Rooms.Report(mid.room, j))
  {
    var mid := Attaching(x, j, url);
    assert Rooms.Report(mid.room, j).infos == Rooms.Attach(x.room, j, url).infos;
  }

  lemma ScanAgrees(base: string, x: Joint, j: nat, url: string, r1: PlayerResult, r2: PlayerResult)
    requires InfosOk(x.db.races, x.db.infos) && Paired(x) && j < |x.db.infos|
    requires ReportRace(x.db, x.db.infos[j].race, r1, r2, false).Success?
    ensures Paired(Next(base, x, Scan(j, url, r1, r2)))
  {
    AttachingAgrees(x, j, url);
    AttachingKeepsIndex(x, j, url);
    ScanNext(base, x, j, url, r1, r2);
    ReportAgrees(Attaching(x, j, url), x.db.infos[j].race, r1, r2, false);
  }

  lemma ScanKeepsInv(base: string, x: Joint, j: nat, url: string, r1: PlayerResult, r2: PlayerResult)
    requires Inv(x.db) && j < |x.db.infos|
    ensures Inv(Next(base, x, Scan(j, url, r1, r2)).db)
  {
    WithUrlKeepsInv(x.db, j, url);
    StepKeepsInv(WithUrl(x.db, j, url), CmdReport(x.db.infos[j].race, r1, r2));
  }

  // ----- every run

  lemma JointStepAgrees(base: string, x: Joint, e: Event)
    requires Inv(x.db) && Paired(x) && CanHappen(x, e)
    ensures Paired(Next(base, x, e))
  {
    match e
    case Handle(cmd) => CommandAgrees(base, x, cmd);
    case Scan(j, url, r1, r2) => ScanAgrees(base, x, j, url, r1, r2);
    case _ => ServiceAgrees(base, x, e);
  }

  lemma JointStepKeepsDb(base: string, x: Joint, e: Event)
    requires Inv(x.db) && CanHappen(x, e)
    ensures Inv(Next(base, x, e).db)
  {
    match e
    case Handle(cmd) => StepKeepsInv(x.db, cmd);
    case Scan(j, url, r1, r2) => ScanKeepsInv(base, x, j, url, r1, r2);
    case _ => ServiceKeepsInv(base, x, e);
  }

  lemma {:induction false} JointRunKeepsDb(base: string, events: seq<Event>, xs: seq<Joint>, i: nat)
    requires IsJointRun(base, events, xs) && i < |xs|
    ensures Inv(xs[i].db)
  {
    if i == 0 {
      InitialInv();
    } else {
      JointRunKeepsDb(base, events, xs, i - 1);
      assert IsJointStep(base, events, xs, i - 1);
      JointStepKeepsDb(base, xs[i - 1], events[i - 1]);
    }
  }

  lemma {:induction false} JointRunAgrees(base: string, events: seq<Event>, xs: seq<Joint>, i: nat)
    requires IsJointRun(base, events, xs) && i < |xs|
    ensures Paired(xs[i])
  {
    if i > 0 {
      JointRunAgrees(base, events, xs, i - 1);
      JointRunKeepsDb(base, events, xs, i - 1);
      assert IsJointStep(base, events, xs, i - 1);
      JointStepAgrees(base, xs[i - 1], events[i - 1]);
    }
  }

  lemma JointRunKeepsRooms(base: string, events: seq<Event>, xs: seq<Joint>, i: nat)
    requires IsJointRun(base, events, xs) && i < |xs|
    ensures Rooms.Inv(base, xs[i].room) && Rooms.QueueOk(xs[i].room)
  {
    var steps, states := RoomsOfJointRun(base, events, xs);
    Rooms.RunKeepsInv(base, steps, states, i);
  }

  /** In every interleaving of commands, ticks, consumer steps, scans and restarts the league's invariant
      and the rooms' invariants hold, and the service's view of every info row is what the row says. */
  lemma JointRunKeepsInv(base: string, events: seq<Event>, xs: seq<Joint>, i: nat)
    requires IsJointRun(base, events, xs) && i < |xs|
    ensures JointInv(base, xs[i])
  {
    JointRunKeepsDb(base, events, xs, i);
    JointRunAgrees(base, events, xs, i);
    JointRunKeepsRooms(base, events, xs, i);
  }

  // ----- what this means for the league

  /** Over every joint run: the info row of an unfinished race has a url exactly when the race's current
      scheduling has a saved room, and then it is the url of that room. */
  lemma UrlIffRoomInLeague(base: string, events: seq<Event>, xs: seq<Joint>, i: nat, j: nat)
    requires IsJointRun(base, events, xs) && i < |xs| && j < |xs[i].db.infos|
    requires var db := xs[i].db; db.infos[j].race < |db.races| ==> db.races[db.infos[j].race].state != RaceState.Finished
    ensures var url := xs[i].db.infos[j].url; var room := xs[i].room; var scheduling := Rooms.InfoOf(room, j).scheduling;
      && (url.Some? <==> exists r | r in room.rooms :: Rooms.SavedFor(r, j, scheduling))
      && (forall r | r in room.rooms && Rooms.SavedFor(r, j, scheduling) :: url == Some(Rooms.UrlFromSlug(base, r.slug)))
  {
    JointRunKeepsInv(base, events, xs, i);
    Rooms.UrlIffRoomNow(base, xs[i].room, j);
  }

  /** The channel drained. */
  function Drained(base: string, x: Joint, outcomes: seq<Rooms.Outcome>): Joint {
    if outcomes == [] then x
    else
      var n := |outcomes| - 1;
      Next(base, Drained(base, x, outcomes[..n]), Consume(outcomes[n]))
  }

  lemma {:induction false} DrainedAgrees(base: string, x: Joint, outcomes: seq<Rooms.Outcome>)
    requires Agree(x.db.races, x.db.infos, x.room.infos)
    ensures var end := Drained(base, x, outcomes);
      && end.room == Rooms.ConsumeAll(base, x.room, outcomes)
      && Agree(end.db.races, end.db.infos, end.room.infos)
      && |end.db.infos| == |x.db.infos|
  {
    if outcomes != [] {
      var n := |outcomes| - 1;
      DrainedAgrees(base, x, outcomes[..n]);
      ConsumeAgrees(base, Drained(base, x, outcomes[..n]), outcomes[n]);
    }
  }

  /** From every state with the invariant, so from every reachable one: a tick asks for a room for the
      info row of every unfinished race of the active season that starts before the lead time and has no
      url; once the channel is drained, it has one exactly when a room was opened for one of its
      requests. */
  lemma UpcomingLeagueRacesGetRooms(base: string, x: Joint, doubled: bool, outcomes: seq<Rooms.Outcome>, s: nat, j: nat)
    requires References(x.db) && InfosOk(x.db.races, x.db.infos) && Agree(x.db.races, x.db.infos, x.room.infos)
    requires ActiveSeason(x.db) == Some(s) && |outcomes| == |Next(base, x, Tick(doubled)).room.queue|
    requires LeagueLinks.IsOpen(x.db, s, x.room.clock + x.room.lead, j)
    ensures var queue := Next(base, x, Tick(doubled)).room.queue;
      && (x.db.infos[j].url.None? ==> exists r | r in queue :: r.bri == j)
      && var end := Drained(base, Next(base, x, Tick(doubled)), outcomes);
      && j < |end.db.infos|
      && (end.db.infos[j].url.Some? <==> x.db.infos[j].url.Some? || Rooms.OpenedFor(queue, outcomes, j))
  {
    SendingKeepsInfos(x.room, ActiveRows(x.db), doubled);
    DueInView(x, s, j);
    assert AgreeAt(x.db.races, x.db.infos[j], x.room.infos[j]);
    Rooms.UpcomingGetRooms(base, x.room, ActiveRows(x.db), doubled, outcomes, j);
    DrainedRow(base, Next(base, x, Tick(doubled)), outcomes, j);
  }

  lemma DrainedRow(base: string, x: Joint, outcomes: seq<Rooms.Outcome>, j: nat)
    requires Agree(x.db.races, x.db.infos, x.room.infos) && j < |x.db.infos|
    ensures var end := Drained(base, x, outcomes); var room := Rooms.ConsumeAll(base, x.room, outcomes);
      j < |end.db.infos| && j in room.infos && end.db.infos[j].url == room.infos[j].url
  {
    DrainedAgrees(base, x, outcomes);
    var end := Drained(base, x, outcomes);
    assert AgreeAt(end.db.races, end.db.infos[j], end.room.infos[j]);
  }

  /** What the query finds in the database is what starts soon in the service's view. */
  lemma DueInView(x: Joint, s: nat, j: nat)
    requires References(x.db) && InfosOk(x.db.races, x.db.infos) && Agree(x.db.races, x.db.infos, x.room.infos)
    requires ActiveSeason(x.db) == Some(s)
    ensures LeagueLinks.IsOpen(x.db, s, x.room.clock + x.room.lead, j) <==>
      j in ActiveRows(x.db) && Rooms.StartsBefore(x.room, j, x.room.clock + x.room.lead)
  {
    assert j < |x.db.infos| ==> AgreeAt(x.db.races, x.db.infos[j], x.room.infos[j]);
  }

  /** Only waiting moves the clock, and the lead time stays. */
  lemma OnlyWaitingMovesClock(base: string, x: Joint, e: Event)
    ensures var after := Next(base, x, e);
      after.room.clock == (if e.Wait? then e.until else x.room.clock) && after.room.lead == x.room.lead
  {
    RoomStepWaits(x, e);
    StepClock(base, x.room, RoomStep(x, e));
  }

  lemma RoomStepWaits(x: Joint, e: Event)
    ensures RoomStep(x, e).StepWait? ==> RoomStep(x, e).until == if e.Wait? then e.until else x.room.clock
    ensures e.Wait? ==> RoomStep(x, e).StepWait?
  {
  }

  lemma StepClock(base: string, s: Rooms.State, step: Rooms.Step)
    ensures var after := Rooms.Apply(base, s, step);
      after.clock == (if step.StepWait? then step.until else s.clock) && after.lead == s.lead
  {
    if step.StepTick? {
      Rooms.SendAllOnlyQueues(s, Rooms.StartingBefore(s, step.rows, s.clock + s.lead), step.doubled);
    }
  }

  // ----- races of a player against themself

  /** No room is of such a race, and its info row has no url. */
  ghost predicate SelfRacesRoomless(x: Joint) {
    && (forall r | r in x.room.rooms :: 0 <= r.bri < |x.db.infos| && !SelfRow(x.db, r.bri))
    && (forall j | 0 <= j < |x.db.infos| && SelfRow(x.db, j) :: x.db.infos[j].url.None?)
  }

  /** Rows stay those of the same races and players, and get no url. */
  predicate KeepsRows(db: Db, after: Db) {
    && |db.races| <= |after.races| && (forall i | 0 <= i < |db.races| :: SameMatch(db.races[i], after.races[i]))
    && |db.infos| <= |after.infos|
    && (forall j | 0 <= j < |db.infos| ::
          after.infos[j].race == db.infos[j].race && (after.infos[j].url == db.infos[j].url || after.infos[j].url.None?))
    && (forall j | |db.infos| <= j < |after.infos| :: after.infos[j].url.None?)
  }

  lemma RowsKeptAreRoomless(x: Joint, after: Joint)
    requires InfosOk(x.db.races, x.db.infos) && KeepsRows(x.db, after.db)
    requires SelfRacesRoomless(x) && after.room.rooms == x.room.rooms
    ensures SelfRacesRoomless(after)
  {
    assert forall j | 0 <= j < |x.db.infos| :: SelfRow(after.db, j) <==> SelfRow(x.db, j);
  }

  lemma ScheduleKeepsRows(db: Db, i: nat, when: int)
    ensures KeepsRows(db, Apply(db, CmdSchedule(i, when)))
  {
  }

  lemma ReportKeepsRows(db: Db, cmd: Command)
    requires IsReport(cmd)
    ensures KeepsRows(db, Apply(db, cmd))
  {
  }

  lemma AddingRacesKeepsRows(db: Db, after: Db)
    requires OnlyAddsRaces(db, after)
    ensures KeepsRows(db, after)
  {
    assert forall i | 0 <= i < |db.races| :: after.races[i] == after.races[..|db.races|][i];
  }

  lemma CommandKeepsRows(db: Db, cmd: Command)
    requires Inv(db) && Enabled(db, cmd)
    ensures KeepsRows(db, Apply(db, cmd))
  {
    match cmd
    case CmdSchedule(i, when) => ScheduleKeepsRows(db, i, when);
    case CmdReport(_, _, _) => ReportKeepsRows(db, cmd);
    case CmdRereport(_, _, _) => ReportKeepsRows(db, cmd);
    case _ =>
      OtherCommandsOnlyAddRaces(db, cmd);
      AddingRacesKeepsRows(db, Apply(db, cmd));
  }

  lemma CommandOpensNothing(base: string, x: Joint, cmd: Command)
    ensures Next(base, x, Handle(cmd)).room.rooms == x.room.rooms
  {
  }

  lemma ConsumeRoomless(base: string, x: Joint, outcome: Rooms.Outcome)
    requires Agree(x.db.races, x.db.infos, x.room.infos) && SelfRacesRoomless(x) && CanHappen(x, Consume(outcome))
    ensures SelfRacesRoomless(Next(base, x, Consume(outcome)))
  {
    var after := Next(base, x, Consume(outcome));
    assert forall j | 0 <= j < |x.db.infos| :: SelfRow(after.db, j) <==> SelfRow(x.db, j);
  }

  lemma UrlKeepsRoomless(x: Joint, j: nat, url: string)
    requires InfosOk(x.db.races, x.db.infos) && SelfRacesRoomless(x) && j < |x.db.infos| && !SelfRow(x.db, j)
    ensures var mid := Joint(WithUrl(x.db, j, url), x.room);
      InfosOk(mid.db.races, mid.db.infos) && SelfRacesRoomless(mid)
  {
    var mid := WithUrl(x.db, j, url);
    assert forall k | 0 <= k < |x.db.infos| :: SelfRow(mid, k) <==> SelfRow(x.db, k);
    WithUrlInfosOk(x.db.races, x.db.infos, mid.infos);
  }

  lemma ScanRoomless(base: string, x: Joint, j: nat, url: string, r1: PlayerResult, r2: PlayerResult)
    requires InfosOk(x.db.races, x.db.infos) && SelfRacesRoomless(x) && CanHappen(x, Scan(j, url, r1, r2))
    ensures SelfRacesRoomless(Next(base, x, Scan(j, url, r1, r2)))
  {
    var mid := Joint(WithUrl(x.db, j, url), x.room);
    UrlKeepsRoomless(x, j, url);
    ReportKeepsRows(mid.db, CmdReport(x.db.infos[j].race, r1, r2));
    RowsKeptAreRoomless(mid, Next(base, x, Scan(j, url, r1, r2)));
  }

  lemma CommandRoomless(base: string, x: Joint, cmd: Command)
    requires Inv(x.db) && SelfRacesRoomless(x) && Enabled(x.db, cmd)
    ensures SelfRacesRoomless(Next(base, x, Handle(cmd)))
  {
    CommandKeepsRows(x.db, cmd);
    CommandOpensNothing(base, x, cmd);
    RowsKeptAreRoomless(x, Next(base, x, Handle(cmd)));
  }

  lemma QuietRoomless(base: string, x: Joint, e: Event)
    requires SelfRacesRoomless(x) && !e.Handle? && !e.Consume? && !e.Scan?
    ensures SelfRacesRoomless(Next(base, x, e))
  {
    if e.Tick? {
      Rooms.SendAllOnlyQueues(x.room, Rooms.StartingBefore(x.room, ActiveRows(x.db), x.room.clock + x.room.lead), e.doubled);
    }
  }

  lemma StepRoomless(base: string, x: Joint, e: Event)
    requires Inv(x.db) && Agree(x.db.races, x.db.infos, x.room.infos) && SelfRacesRoomless(x) && CanHappen(x, e)
    ensures SelfRacesRoomless(Next(base, x, e))
  {
    match e
    case Handle(cmd) => CommandRoomless(base, x, cmd);
    case Consume(outcome) => ConsumeRoomless(base, x, outcome);
    case Scan(j, url, r1, r2) => ScanRoomless(base, x, j, url, r1, r2);
    case _ => QuietRoomless(base, x, e);
  }

  /** Over every joint run no room is ever opened for a race of a player against themself, and its info
      row never gets a url. */
  lemma {:induction false} SelfRacesStayRoomless(base: string, events: seq<Event>, xs: seq<Joint>, i: nat)
    requires IsJointRun(base, events, xs) && i < |xs|
    ensures SelfRacesRoomless(xs[i])
  {
    if i > 0 {
      SelfRacesStayRoomless(base, events, xs, i - 1);
      JointRunKeepsInv(base, events, xs, i - 1);
      assert IsJointStep(base, events, xs, i - 1);
      StepRoomless(base, xs[i - 1], events[i - 1]);
    }
  }
}

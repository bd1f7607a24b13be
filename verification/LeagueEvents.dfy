/** The event worker over the league's database: which races it looks at, and what two passes make of
    the guilds' events: src/discord/helper_bot/mod.rs. */
module LeagueEvents {
  import opened Wrappers
  import opened BracketRaces
  import opened League
  import opened LeagueInvariant
  import opened RaceEvents
  import opened EventSync
  import LeagueLinks

  /** What the database here does not hold of a race: the texts of its event, and whether it has a
      restream channel. */
  datatype Texts = Texts(name: string, location: string, description: Option<string>, hasRestream: bool)

  /** The race of info row `j` belongs to a season that has started. */
  predicate Current(db: Db, j: nat)
    requires References(db) && InfosOk(db.races, db.infos) && j < |db.infos|
  {
    db.seasons[db.brackets[db.races[db.infos[j].race].bracket].season].state == SeasonState.Started
  }

  /** The season that info row `j` belongs to, by way of race and bracket. */
  ghost predicate BelongsTo(db: Db, j: nat, s: nat) {
    exists i: nat, b: nat | i < |db.races| && b < |db.brackets| ::
      j < |db.infos| && db.infos[j].race == i && db.races[i].bracket == b && db.brackets[b].season == s
  }

  /** Info row `j` belongs to a season that has started and is not over. */
  ghost predicate Running(db: Db, j: nat) {
    exists s: nat | s < |db.seasons| :: BelongsTo(db, j, s) && db.seasons[s].state == SeasonState.Started
  }

  lemma CurrentIffRunning(db: Db, j: nat)
    requires References(db) && InfosOk(db.races, db.infos) && j < |db.infos|
    ensures Current(db, j) <==> Running(db, j)
  {
    var s := db.brackets[db.races[db.infos[j].race].bracket].season;
    assert BelongsTo(db, j, s);
  }

  function BundleOf(db: Db, texts: nat -> Texts, j: nat): Result<Bundle, LeagueLinks.ContentError>
    requires References(db) && InfosOk(db.races, db.infos) && j < |db.infos|
  {
    var race := db.races[db.infos[j].race];
    var t := texts(j);
    match LeagueLinks.GetEventContent(race, db.infos[j], t.name, t.location, t.description)
    case Failure(e) => Failure(e)
    case Success(status) => Success(Bundle(j, race.p1, race.p2, t.hasRestream, status))
  }

  /** The races that the worker looks at; one race without content fails the whole pass. */
  function SeasonBundles(db: Db, texts: nat -> Texts, n: nat): Result<seq<Bundle>, LeagueLinks.ContentError>
    requires References(db) && InfosOk(db.races, db.infos) && n <= |db.infos|
  {
    if n == 0 then Success([])
    else match SeasonBundles(db, texts, n - 1)
      case Failure(e) => Failure(e)
      case Success(front) =>
        if !Current(db, n - 1) then Success(front)
        else match BundleOf(db, texts, n - 1)
          case Failure(e) => Failure(e)
          case Success(bundle) => Success(front + [bundle])
  }

  lemma ContentIsThere(db: Db, texts: nat -> Texts, j: nat)
    requires Inv(db) && j < |db.infos|
    ensures BundleOf(db, texts, j).Success?
  {
    LeagueLinks.ContentIsNeverMissing(db, j, texts(j).name, texts(j).location, texts(j).description);
  }

  lemma {:induction false} BundlesByContent(db: Db, texts: nat -> Texts, n: nat)
    requires References(db) && InfosOk(db.races, db.infos) && n <= |db.infos|
    requires forall j | 0 <= j < n :: BundleOf(db, texts, j).Success?
    ensures SeasonBundles(db, texts, n).Success?
    ensures var bundles := SeasonBundles(db, texts, n).value;
      && DistinctBris(bundles)
      && (forall b :: b in bundles <==> 0 <= b.bri < n && Current(db, b.bri) && BundleOf(db, texts, b.bri) == Success(b))
  {
    if n > 0 {
      BundlesByContent(db, texts, n - 1);
      var front := SeasonBundles(db, texts, n - 1).value;
      if Current(db, n - 1) {
        AppendBundle(front, n - 1, BundleOf(db, texts, n - 1).value);
      }
    }
  }

  lemma AppendBundle(front: seq<Bundle>, n: nat, bundle: Bundle)
    requires DistinctBris(front) && (forall b | b in front :: 0 <= b.bri < n) && bundle.bri == n
    ensures DistinctBris(front + [bundle])
    ensures forall b :: b in front + [bundle] <==> b in front || b == bundle
  {
    assert forall k | 0 <= k < |front| :: front[k] in front;
  }

  /** In every reachable database the bundles of a pass can be made: one for every info row of a race
      in a started season, no two for the same row. */
  lemma BundlesAreThere(db: Db, texts: nat -> Texts)
    requires Inv(db)
    ensures SeasonBundles(db, texts, |db.infos|).Success?
    ensures var bundles := SeasonBundles(db, texts, |db.infos|).value;
      && DistinctBris(bundles)
      && (forall b :: b in bundles <==>
            0 <= b.bri < |db.infos| && Running(db, b.bri) && BundleOf(db, texts, b.bri) == Success(b))
  {
    forall j: nat | j < |db.infos| {
      CurrentIffRunning(db, j);
    }
    forall j | 0 <= j < |db.infos|
      ensures BundleOf(db, texts, j).Success?
    {
      ContentIsThere(db, texts, j);
    }
    BundlesByContent(db, texts, |db.infos|);
  }

  // ----- what should be there

  /** The race is scheduled and concerns the guild: the guild is the main one, or a criterion of it asks
      for no player or one of the two, and for nothing about the restream or what holds of it. */
  predicate IsWanted(db: Db, texts: nat -> Texts, main: int, g: GuildCriteria, j: nat)
    requires References(db) && InfosOk(db.races, db.infos) && j < |db.infos|
  {
    var race := db.races[db.infos[j].race];
    race.state == RaceState.Scheduled && Concerns(main, g.id, g.criteria, race.p1, race.p2, texts(j).hasRestream)
  }

  /** A wanted race has its event, linked and live, with its texts, from the scheduled time to 100
      minutes later; any other race of the season has no live event. */
  predicate InPlace(db: Db, texts: nat -> Texts, main: int, g: GuildCriteria, j: nat, s: State)
    requires References(db) && InfosOk(db.races, db.infos) && j < |db.infos|
  {
    var k := (g.id, j);
    if IsWanted(db, texts, main, g, j) then
      && Live(s, k)
      && var e := s.events[EventKey(s, k)];
         && Some(e.start) == db.infos[j].scheduledFor && e.end == Some(e.start + 6000)
         && e.name == texts(j).name && e.description == texts(j).description
         && e.metadata == Some(Metadata(Some(texts(j).location)))
    else !Live(s, k)
  }

  /** An event that is wanted and missing is not already in the past. */
  predicate NotTooLate(db: Db, texts: nat -> Texts, main: int, g: GuildCriteria, j: nat, s: State, now: int)
    requires References(db) && InfosOk(db.races, db.infos) && j < |db.infos|
  {
    IsWanted(db, texts, main, g, j) && !Live(s, (g.id, j)) ==>
      db.infos[j].scheduledFor.Some? && db.infos[j].scheduledFor.value >= now
  }

  /** What should be there for a race in a guild. */
  function DesiredEvent(db: Db, texts: nat -> Texts, main: int, g: GuildCriteria, j: nat): Desired
    requires References(db) && InfosOk(db.races, db.infos) && j < |db.infos|
  {
    var t, when := texts(j), db.infos[j].scheduledFor;
    if IsWanted(db, texts, main, g, j) && when.Some? then
      Wanted(Content(t.name, t.location, t.description, when.value, when.value + 6000))
    else NoEvent
  }

  lemma BundleSays(db: Db, texts: nat -> Texts, main: int, g: GuildCriteria, j: nat, b: Bundle)
    requires Inv(db) && j < |db.infos| && BundleOf(db, texts, j) == Success(b)
    ensures DesiredIn(main, g, b) == DesiredEvent(db, texts, main, g, j)
    ensures IsWanted(db, texts, main, g, j) ==> db.infos[j].scheduledFor.Some?
  {
    assert BundleContent(db, texts, j, b) by {
      LeagueLinks.ContentIsNeverMissing(db, j, texts(j).name, texts(j).location, texts(j).description);
    }
    InterestingIffConcerns(main, g, b);
  }

  /** The bundle holds the race's players and the content that its state and time call for. */
  predicate BundleContent(db: Db, texts: nat -> Texts, j: nat, b: Bundle)
    requires References(db) && InfosOk(db.races, db.infos) && j < |db.infos|
  {
    var race, t, when := db.races[db.infos[j].race], texts(j), db.infos[j].scheduledFor;
    && (b.p1, b.p2, b.hasRestream) == (race.p1, race.p2, t.hasRestream)
    && (race.state == RaceState.Scheduled ==> when.Some?)
    && b.status == if race.state == RaceState.Scheduled && when.Some?
                   then Wanted(Content(t.name, t.location, t.description, when.value, when.value + 6000)) else NoEvent
  }

  lemma InPlaceIsSettled(db: Db, texts: nat -> Texts, main: int, g: GuildCriteria, j: nat, s: State)
    requires References(db) && InfosOk(db.races, db.infos) && j < |db.infos|
    requires IsWanted(db, texts, main, g, j) ==> db.infos[j].scheduledFor.Some?
    ensures Settled(s, Task(g.id, j, DesiredEvent(db, texts, main, g, j))) <==> InPlace(db, texts, main, g, j, s)
  {
  }

  lemma InTimeIsCreatable(db: Db, texts: nat -> Texts, main: int, g: GuildCriteria, j: nat, s: State, now: int)
    requires References(db) && InfosOk(db.races, db.infos) && j < |db.infos|
    requires IsWanted(db, texts, main, g, j) ==> db.infos[j].scheduledFor.Some?
    ensures Creatable(s, Task(g.id, j, DesiredEvent(db, texts, main, g, j)), now) <==> NotTooLate(db, texts, main, g, j, s, now)
  {
  }

  // ----- two passes

  ghost predicate AllPlaced(db: Db, texts: nat -> Texts, main: int, guilds: seq<GuildCriteria>, s: State)
    requires References(db) && InfosOk(db.races, db.infos)
  {
    forall g, j: nat | g in guilds && j < |db.infos| && Running(db, j) :: InPlace(db, texts, main, g, j, s)
  }

  ghost predicate AllInTime(db: Db, texts: nat -> Texts, main: int, guilds: seq<GuildCriteria>, s: State, now: int)
    requires References(db) && InfosOk(db.races, db.infos)
  {
    forall g, j: nat | g in guilds && j < |db.infos| && Running(db, j) :: NotTooLate(db, texts, main, g, j, s, now)
  }

  /** The tasks of a pass are those of the guilds and the current races. */
  lemma TasksOfLeague(db: Db, texts: nat -> Texts, main: int, guilds: seq<GuildCriteria>, t: Task)
    requires Inv(db) && SeasonBundles(db, texts, |db.infos|).Success?
    ensures t in PassTasks(main, guilds, SeasonBundles(db, texts, |db.infos|).value, NO_FAULTS) <==>
      && 0 <= t.bri < |db.infos| && Running(db, t.bri)
      && exists g | g in guilds ::
           g.id == t.guild && BundleOf(db, texts, t.bri).Success? && t.desired == DesiredIn(main, g, BundleOf(db, texts, t.bri).value)
  {
    BundlesAreThere(db, texts);
    var bundles := SeasonBundles(db, texts, |db.infos|).value;
    PassIsOnlyThese(main, guilds, bundles, t, NO_FAULTS);
    if 0 <= t.bri < |db.infos| && Running(db, t.bri) && BundleOf(db, texts, t.bri).Success? {
      var b := BundleOf(db, texts, t.bri).value;
      assert b in bundles;
      if g :| g in guilds && g.id == t.guild && t.desired == DesiredIn(main, g, b) {
        PassCoversAll(main, guilds, bundles, g, b, NO_FAULTS);
      }
    }
  }

  lemma ConvergedIffPlaced(db: Db, texts: nat -> Texts, main: int, guilds: seq<GuildCriteria>, s: State)
    requires Inv(db) && SeasonBundles(db, texts, |db.infos|).Success?
    ensures Converged(s, PassTasks(main, guilds, SeasonBundles(db, texts, |db.infos|).value, NO_FAULTS)) <==>
      AllPlaced(db, texts, main, guilds, s)
  {
    var tasks := PassTasks(main, guilds, SeasonBundles(db, texts, |db.infos|).value, NO_FAULTS);
    forall g, j: nat | g in guilds && j < |db.infos| && Running(db, j)
      ensures Converged(s, tasks) ==> InPlace(db, texts, main, g, j, s)
    {
      ContentIsThere(db, texts, j);
      var b := BundleOf(db, texts, j).value;
      TasksOfLeague(db, texts, main, guilds, Task(g.id, j, DesiredIn(main, g, b)));
      BundleSays(db, texts, main, g, j, b);
      InPlaceIsSettled(db, texts, main, g, j, s);
    }
    if AllPlaced(db, texts, main, guilds, s) {
      forall t | t in tasks
        ensures Settled(s, t)
      {
        TasksOfLeague(db, texts, main, guilds, t);
        var b := BundleOf(db, texts, t.bri).value;
        var g :| g in guilds && g.id == t.guild && t.desired == DesiredIn(main, g, b);
        BundleSays(db, texts, main, g, t.bri, b);
        InPlaceIsSettled(db, texts, main, g, t.bri, s);
      }
    }
  }

  lemma CreatableIffInTime(db: Db, texts: nat -> Texts, main: int, guilds: seq<GuildCriteria>, s: State, now: int)
    requires Inv(db) && SeasonBundles(db, texts, |db.infos|).Success?
    ensures var tasks := PassTasks(main, guilds, SeasonBundles(db, texts, |db.infos|).value, NO_FAULTS);
      (forall t | t in tasks :: Creatable(s, t, now)) <==> AllInTime(db, texts, main, guilds, s, now)
  {
    var tasks := PassTasks(main, guilds, SeasonBundles(db, texts, |db.infos|).value, NO_FAULTS);
    forall g, j: nat | g in guilds && j < |db.infos| && Running(db, j)
      ensures (forall t | t in tasks :: Creatable(s, t, now)) ==> NotTooLate(db, texts, main, g, j, s, now)
    {
      ContentIsThere(db, texts, j);
      var b := BundleOf(db, texts, j).value;
      TasksOfLeague(db, texts, main, guilds, Task(g.id, j, DesiredIn(main, g, b)));
      BundleSays(db, texts, main, g, j, b);
      InTimeIsCreatable(db, texts, main, g, j, s, now);
    }
    if AllInTime(db, texts, main, guilds, s, now) {
      forall t | t in tasks
        ensures Creatable(s, t, now)
      {
        TasksOfLeague(db, texts, main, guilds, t);
        var b := BundleOf(db, texts, t.bri).value;
        var g :| g in guilds && g.id == t.guild && t.desired == DesiredIn(main, g, b);
        BundleSays(db, texts, main, g, t.bri, b);
        InTimeIsCreatable(db, texts, main, g, t.bri, s, now);
      }
    }
  }

  /** With the league's database as it is and no failures, from any link rows and events: after two
      passes every guild's events are those of the league's schedule, exactly when no wanted and
      missing event was in the past at the first pass; and then a third pass does nothing. */
  lemma LeagueEventsConverge(
    db: Db, texts: nat -> Texts, main: int, guilds: seq<GuildCriteria>, s: State, now1: int, now2: int, now3: int)
    requires Inv(db) && Valid(s) && DistinctGuilds(guilds) && now1 <= now2
    ensures SeasonBundles(db, texts, |db.infos|).Success?
    ensures var tasks := PassTasks(main, guilds, SeasonBundles(db, texts, |db.infos|).value, NO_FAULTS);
      var s2 := RepairAll(RepairAll(s, tasks, now1, NO_FAULTS), tasks, now2, NO_FAULTS);
      && (AllPlaced(db, texts, main, guilds, s2) <==> AllInTime(db, texts, main, guilds, s, now1))
      && (AllPlaced(db, texts, main, guilds, s2) ==> RepairAll(s2, tasks, now3, NO_FAULTS) == s2)
  {
    BundlesAreThere(db, texts);
    var bundles := SeasonBundles(db, texts, |db.infos|).value;
    var tasks := PassTasks(main, guilds, bundles, NO_FAULTS);
    TwoPassesSettleIff(s, main, guilds, bundles, now1, now2, now3);
    ConvergedIffPlaced(db, texts, main, guilds, RepairAll(RepairAll(s, tasks, now1, NO_FAULTS), tasks, now2, NO_FAULTS));
    CreatableIffInTime(db, texts, main, guilds, s, now1);
  }
}

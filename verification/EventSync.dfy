/** The sync loop as it works, consuming its two lookup maps, proved to do what module RaceEvents
    says of a pass: src/discord/helper_bot/mod.rs. */
module EventSync {
  import opened Wrappers
  import opened RaceEvents

  ghost predicate DistinctBris(bundles: seq<Bundle>) {
    forall i, j | 0 <= i < j < |bundles| :: bundles[i].bri != bundles[j].bri
  }

  ghost predicate DistinctGuilds(guilds: seq<GuildCriteria>) {
    forall i, j | 0 <= i < j < |guilds| :: guilds[i].id != guilds[j].id
  }

  function TasksFor(main: int, guild: GuildCriteria, bundles: seq<Bundle>): (tasks: seq<Task>)
    ensures |tasks| == |bundles|
    ensures forall j | 0 <= j < |bundles| :: tasks[j] == Task(guild.id, bundles[j].bri, DesiredIn(main, guild, bundles[j]))
  {
    seq(|bundles|, j requires 0 <= j < |bundles| => Task(guild.id, bundles[j].bri, DesiredIn(main, guild, bundles[j])))
  }

  /** For every race a guild wants the race's event if the race concerns it, and none otherwise. */
  lemma TasksFollowConcerns(main: int, guild: GuildCriteria, bundles: seq<Bundle>, j: nat)
    requires j < |bundles|
    ensures var b := bundles[j];
      TasksFor(main, guild, bundles)[j] == Task(guild.id, b.bri,
        if Concerns(main, guild.id, guild.criteria, b.p1, b.p2, b.hasRestream) then b.status else NoEvent)
  {
    InterestingIffConcerns(main, guild, bundles[j]);
  }

  /** The tasks of a whole pass: a guild whose events cannot be listed is skipped. */
  function PassTasks(main: int, guilds: seq<GuildCriteria>, bundles: seq<Bundle>, faults: Faults): seq<Task> {
    if guilds == [] then []
    else
      var n := |guilds| - 1;
      PassTasks(main, guilds[..n], bundles, faults)
      + if guilds[n].id in faults.listing then [] else TasksFor(main, guilds[n], bundles)
  }

  datatype CallResult = Touched(id: int) | Nothing | Failed

  class EventStore {
    var s: State

    /** The call for one race, if one is needed. Returns the event that was created or ended. */
    method UpdateDiscordEvents(guild: int, desired: Desired, existing: Option<(int, Event)>, now: int, fails: bool)
      returns (r: CallResult)
      requires existing.Some? ==> (guild, existing.value.0) in s.events && s.events[(guild, existing.value.0)] == existing.value.1
      modifies this
      ensures existing.Some? && desired.NoEvent? ==>
        var (id, e) := existing.value;
        var called := old(s).(log := old(s).log + [EndEvent(guild, id, EndStatus(e))]);
        && r == (if fails then Failed else Touched(id))
        && s == if fails then called else called.(events := old(s).events - {(guild, id)})
      ensures existing.None? && desired.NoEvent? ==> r == Nothing && s == old(s)
      ensures existing.Some? && desired.Wanted? ==>
        var (id, e) := existing.value;
        var c := desired.content;
        var called := old(s).(log := old(s).log + [EditEvent(guild, id, c)]);
        && (r == if fails && !EventsMatch(e, c) then Failed else Nothing)
        && s == if EventsMatch(e, c) then old(s) else if fails then called
                else called.(events := old(s).events[(guild, id) := Edited(e, c)])
      ensures existing.None? && desired.Wanted? ==>
        var c := desired.content;
        var called := old(s).(log := old(s).log + [CreateEvent(guild, c)]);
        if c.start < now then r == Nothing && s == old(s)
        else if fails then r == Failed && s == called
        else
          && r == Touched(old(s).nextId)
          && s == called.(events := old(s).events[(guild, old(s).nextId) := Created(c)], nextId := old(s).nextId + 1)
    {
      match (existing, desired) {
        case (Some((id, e)), NoEvent) =>
          s := s.(log := s.log + [EndEvent(guild, id, EndStatus(e))]);
          if fails { return Failed; }
          s := s.(events := s.events - {(guild, id)});
          return Touched(id);
        case (None, NoEvent) =>
          return Nothing;
        case (Some((id, e)), Wanted(c)) =>
          if EventsMatch(e, c) { return Nothing; }
          s := s.(log := s.log + [EditEvent(guild, id, c)]);
          if fails { return Failed; }
          s := s.(events := s.events[(guild, id) := Edited(e, c)]);
          return Nothing;
        case (None, Wanted(c)) =>
          if c.start < now { return Nothing; }
          s := s.(log := s.log + [CreateEvent(guild, c)]);
          if fails { return Failed; }
          var id := s.nextId;
          s := s.(events := s.events[(guild, id) := Created(c)], nextId := id + 1);
          return Touched(id);
      }
    }

    /** `INSERT` of a link row, refused by either unique index. */
    method InsertLink(k: Key, id: int, fails: bool) returns (ok: bool)
      modifies this
      ensures ok <==> !fails && k !in old(s).links && id !in old(s).links.Values
      ensures s == if ok then old(s).(log := old(s).log + [WriteLink(k.0, k.1)], links := old(s).links[k := id])
                   else old(s).(log := old(s).log + [WriteLink(k.0, k.1)])
    {
      s := s.(log := s.log + [WriteLink(k.0, k.1)]);
      ok := !fails && k !in s.links && id !in s.links.Values;
      if ok {
        s := s.(links := s.links[k := id]);
      }
    }

    /** `UPDATE` of a link row, refused by the unique index on event ids. */
    method UpdateLink(k: Key, id: int, fails: bool) returns (ok: bool)
      requires k in s.links
      modifies this
      ensures ok <==> !fails && forall j | j in old(s).links && j != k :: old(s).links[j] != id
      ensures s == if ok then old(s).(log := old(s).log + [WriteLink(k.0, k.1)], links := old(s).links[k := id])
                   else old(s).(log := old(s).log + [WriteLink(k.0, k.1)])
    {
      s := s.(log := s.log + [WriteLink(k.0, k.1)]);
      ok := !fails && forall j | j in s.links && j != k :: s.links[j] != id;
      if ok {
        s := s.(links := s.links[k := id]);
      }
    }

    /** The body of the loop, for one race, with what the lookup maps gave. */
    method SyncOne(t: Task, raceEvent: Option<int>, existing: Option<(int, Event)>, now: int, faults: Faults)
      requires Valid(s)
      requires raceEvent.Some? <==> t.Key() in s.links
      requires raceEvent.Some? ==> raceEvent.value == s.links[t.Key()]
      requires existing.Some? <==> Live(s, t.Key())
      requires existing.Some? ==> existing.value == (s.links[t.Key()], s.events[EventKey(s, t.Key())])
      modifies this
      ensures s == Repair(old(s), t, now, faults) && Valid(s)
    {
      RepairKeepsValid(s, t, now, faults);
      var k := t.Key();
      var called := UpdateDiscordEvents(t.guild, t.desired, existing, now, k in faults.call);
      match called {
        case Touched(id) =>
          var ok;
          if raceEvent.Some? {
            ok := UpdateLink(k, id, k in faults.write);
          } else {
            ok := InsertLink(k, id, k in faults.write);
          }
          assert ok <==> k !in faults.write;  // no write is ever refused by a unique index
        case Nothing =>
        case Failed =>
      }
    }

    /** The guild's live events; together with the loaded rows they say what is there for every race. */
    method ExistingEventsById(guild: int, ghost bundles: seq<Bundle>, ghost loaded: map<int, int>) returns (events: map<int, Event>)
      requires forall b | b in bundles :: b.bri in loaded <==> (guild, b.bri) in s.links
      requires forall b | b in bundles && b.bri in loaded :: loaded[b.bri] == s.links[(guild, b.bri)]
      ensures AgreeFrom(s, guild, bundles, 0, loaded, events)
    {
      events := EventsOf(s, guild);
      InitiallyAgree(s, guild, bundles, loaded);
    }

    method SyncEventsInAGuild(
      main: int, guild: GuildCriteria, bundles: seq<Bundle>, loaded: map<int, int>, now: int, faults: Faults)
      requires Valid(s) && DistinctBris(bundles)
      requires forall b | b in bundles :: b.bri in loaded <==> (guild.id, b.bri) in s.links
      requires forall b | b in bundles && b.bri in loaded :: loaded[b.bri] == s.links[(guild.id, b.bri)]
      modifies this
      ensures Valid(s)
      ensures s == if guild.id in faults.listing then old(s)
                   else RepairAll(old(s), TasksFor(main, guild, bundles), now, faults)
    {
      if guild.id in faults.listing {
        return;
      }
      var raceEvents := loaded;
      var existingEvents := ExistingEventsById(guild.id, bundles, loaded);
      ghost var s0 := s;
      ghost var tasks := TasksFor(main, guild, bundles);
      TasksAreDistinct(main, guild, bundles);
      for i := 0 to |bundles|
        invariant Valid(s) && s == RepairAll(s0, tasks[..i], now, faults)
        invariant AgreeFrom(s0, guild.id, bundles, i, raceEvents, existingEvents)
      {
        var bundle := bundles[i];
        var raceEvent, existing := None, None;
        AgreesNow(s0, s, guild.id, bundles, i, raceEvents, existingEvents, tasks, now, faults);
        RepairNext(s0, tasks, i, now, faults);
        if bundle.bri in raceEvents {
          var id := raceEvents[bundle.bri];
          raceEvent := Some(id);
          if id in existingEvents {
            existing := Some((id, existingEvents[id]));
          }
          RestStillAgrees(s0, guild.id, bundles, i, raceEvents, existingEvents);
          raceEvents := raceEvents - {bundle.bri};
          existingEvents := existingEvents - {id};
        }
        SyncOne(Task(guild.id, bundle.bri, DesiredIn(main, guild, bundle)), raceEvent, existing, now, faults);
      }
      assert tasks[..|bundles|] == tasks;
    }

    /** A whole pass, with the loaded link rows grouped by guild. */
    method SyncRaceStatus(
      main: int, guilds: seq<GuildCriteria>, bundles: seq<Bundle>, rows: seq<LinkRow>, now: int, faults: Faults)
      requires Valid(s) && DistinctBris(bundles) && DistinctGuilds(guilds)
      requires SortedByGuild(rows) && UniqueRows(rows)
      requires forall g, b, e :: LinkRow(g, b, e) in rows <==>
        (g, b) in s.links && s.links[(g, b)] == e && exists bundle | bundle in bundles :: bundle.bri == b
      modifies this
      ensures Valid(s) && s == RepairAll(old(s), PassTasks(main, guilds, bundles, faults), now, faults)
    {
      var byGuild := GroupByGuild(rows);
      ghost var s0 := s;
      for i := 0 to |guilds|
        invariant Valid(s) && s == RepairAll(s0, PassTasks(main, guilds[..i], bundles, faults), now, faults)
        invariant SameForRest(guilds, i, byGuild, GroupByGuild(rows))
      {
        var guild := guilds[i];
        var loaded := if guild.id in byGuild then byGuild[guild.id] else map[];
        NextGuildIsOther(guilds, i, byGuild, GroupByGuild(rows));
        byGuild := byGuild - {guild.id};
        LoadedForGuild(s0, s, main, guilds, i, bundles, rows, loaded, now, faults);
        SyncEventsInAGuild(main, guild, bundles, loaded, now, faults);
        assert guilds[..i + 1][..i] == guilds[..i];
        ghost var tasks := PassTasks(main, guilds[..i], bundles, faults);
        RepairAllAppend(s0, tasks, TasksFor(main, guild, bundles), now, faults);
        assert tasks + [] == tasks;
      }
      assert guilds[..|guilds|] == guilds;
    }
  }

  /** For the guilds from the `i`-th on both maps hold the same. */
  ghost predicate SameForRest(guilds: seq<GuildCriteria>, i: nat, left: map<int, map<int, int>>, all: map<int, map<int, int>>) {
    forall j | i <= j < |guilds| ::
      && (guilds[j].id in left <==> guilds[j].id in all)
      && (guilds[j].id in left ==> left[guilds[j].id] == all[guilds[j].id])
  }

  lemma NextGuildIsOther(guilds: seq<GuildCriteria>, i: nat, left: map<int, map<int, int>>, all: map<int, map<int, int>>)
    requires DistinctGuilds(guilds) && i < |guilds| && SameForRest(guilds, i, left, all)
    ensures SameForRest(guilds, i + 1, left - {guilds[i].id}, all)
  {
  }

  /** The live events of a guild by id. */
  function EventsOf(s: State, guild: int): (m: map<int, Event>)
    ensures forall id :: id in m <==> (guild, id) in s.events
    ensures forall id | id in m :: m[id] == s.events[(guild, id)]
  {
    map ek | ek in s.events && ek.0 == guild :: ek.1 := s.events[ek]
  }

  lemma InitiallyAgree(s: State, guild: int, bundles: seq<Bundle>, loaded: map<int, int>)
    requires forall b | b in bundles :: b.bri in loaded <==> (guild, b.bri) in s.links
    requires forall b | b in bundles && b.bri in loaded :: loaded[b.bri] == s.links[(guild, b.bri)]
    ensures AgreeFrom(s, guild, bundles, 0, loaded, EventsOf(s, guild))
  {
    forall j | 0 <= j < |bundles|
      ensures Agrees(s, guild, bundles[j].bri, loaded, EventsOf(s, guild))
    {
      assert bundles[j] in bundles;
    }
  }

  /** What the lookup maps say about a race agrees with the state at the start of the pass. */
  ghost predicate Agrees(s: State, guild: int, bri: int, raceEvents: map<int, int>, existing: map<int, Event>) {
    var k := (guild, bri);
    && (bri in raceEvents <==> k in s.links)
    && (bri in raceEvents ==>
          && raceEvents[bri] == s.links[k]
          && (raceEvents[bri] in existing <==> Live(s, k))
          && (raceEvents[bri] in existing ==> existing[raceEvents[bri]] == s.events[EventKey(s, k)]))
  }

  /** Taking one race out of the two maps leaves what they say about the others. */
  lemma OthersStillAgree(s: State, guild: int, bri: int, other: int, raceEvents: map<int, int>, existing: map<int, Event>)
    requires Valid(s) && bri != other && bri in raceEvents
    requires Agrees(s, guild, bri, raceEvents, existing) && Agrees(s, guild, other, raceEvents, existing)
    ensures Agrees(s, guild, other, raceEvents - {bri}, existing - {raceEvents[bri]})
  {
  }

  ghost predicate AgreeFrom(s: State, guild: int, bundles: seq<Bundle>, i: nat, raceEvents: map<int, int>, existing: map<int, Event>) {
    forall j | i <= j < |bundles| :: Agrees(s, guild, bundles[j].bri, raceEvents, existing)
  }

  lemma RestStillAgrees(s: State, guild: int, bundles: seq<Bundle>, i: nat, raceEvents: map<int, int>, existing: map<int, Event>)
    requires Valid(s) && DistinctBris(bundles) && i < |bundles| && bundles[i].bri in raceEvents
    requires AgreeFrom(s, guild, bundles, i, raceEvents, existing)
    ensures AgreeFrom(s, guild, bundles, i + 1, raceEvents - {bundles[i].bri}, existing - {raceEvents[bundles[i].bri]})
  {
    forall j | i + 1 <= j < |bundles|
      ensures Agrees(s, guild, bundles[j].bri, raceEvents - {bundles[i].bri}, existing - {raceEvents[bundles[i].bri]})
    {
      OthersStillAgree(s, guild, bundles[i].bri, bundles[j].bri, raceEvents, existing);
    }
  }

  lemma TasksAreDistinct(main: int, guild: GuildCriteria, bundles: seq<Bundle>)
    requires DistinctBris(bundles)
    ensures DistinctKeys(TasksFor(main, guild, bundles))
  {
    var tasks := TasksFor(main, guild, bundles);
    forall i, j | 0 <= i < j < |tasks|
      ensures tasks[i].Key() != tasks[j].Key()
    {
      assert tasks[i].bri == bundles[i].bri && tasks[j].bri == bundles[j].bri;
    }
  }

  lemma PrefixIsDistinct(tasks: seq<Task>, i: nat)
    requires DistinctKeys(tasks) && i < |tasks|
    ensures DistinctKeys(tasks[..i]) && tasks[i].Key() !in KeysOf(tasks[..i])
  {
    forall t | t in tasks[..i]
      ensures t.Key() != tasks[i].Key()
    {
      var j :| 0 <= j < i && tasks[j] == t;
    }
  }

  /** What the loop has not reached yet is as it was. */
  lemma StillSame(s: State, tasks: seq<Task>, i: nat, now: int, faults: Faults)
    requires Valid(s) && DistinctKeys(tasks) && i < |tasks|
    ensures SameAt(s, RepairAll(s, tasks[..i], now, faults), tasks[i].Key())
  {
    PrefixIsDistinct(tasks, i);
    RepairAllIsSynced(s, tasks[..i], now, faults);
    OthersStay(s, RepairAll(s, tasks[..i], now, faults), tasks[..i], now, faults, tasks[i].Key());
  }

  /** So the lookup maps say what is true when a race's turn comes. */
  lemma AgreesNow(
    s0: State, s: State, guild: int, bundles: seq<Bundle>, i: nat, raceEvents: map<int, int>, existing: map<int, Event>,
    tasks: seq<Task>, now: int, faults: Faults)
    requires Valid(s0) && DistinctKeys(tasks) && i < |tasks| == |bundles|
    requires tasks[i].Key() == (guild, bundles[i].bri) && s == RepairAll(s0, tasks[..i], now, faults)
    requires AgreeFrom(s0, guild, bundles, i, raceEvents, existing)
    ensures Agrees(s, guild, bundles[i].bri, raceEvents, existing)
  {
    assert Agrees(s0, guild, bundles[i].bri, raceEvents, existing);
    StillSame(s0, tasks, i, now, faults);
  }

  lemma RepairNext(s: State, tasks: seq<Task>, i: nat, now: int, faults: Faults)
    requires i < |tasks|
    ensures RepairAll(s, tasks[..i + 1], now, faults) == Repair(RepairAll(s, tasks[..i], now, faults), tasks[i], now, faults)
  {
    assert tasks[..i + 1][..i] == tasks[..i];
  }

  lemma {:induction false} RepairAllAppend(s: State, a: seq<Task>, b: seq<Task>, now: int, faults: Faults)
    ensures RepairAll(s, a + b, now, faults) == RepairAll(RepairAll(s, a, now, faults), b, now, faults)
  {
    if b == [] {
      assert a + b == a;
    } else {
      var n := |b| - 1;
      assert (a + b)[..|a| + n] == a + b[..n];
      RepairAllAppend(s, a, b[..n], now, faults);
    }
  }

  lemma AppendKeys(front: seq<Task>, last: seq<Task>)
    requires DistinctKeys(front) && DistinctKeys(last)
    requires forall t, i | t in front && 0 <= i < |last| :: t.guild != last[i].guild
    ensures DistinctKeys(front + last)
  {
    var all := front + last;
    forall i, j | 0 <= i < j < |all|
      ensures all[i].Key() != all[j].Key()
    {
      if i < |front| <= j {
        assert all[i] in front && all[j] == last[j - |front|];
      } else if j < |front| {
        assert all[i] == front[i] && all[j] == front[j];
      } else {
        assert all[i] == last[i - |front|] && all[j] == last[j - |front|];
      }
    }
  }

  lemma {:induction false} PassGuilds(main: int, guilds: seq<GuildCriteria>, bundles: seq<Bundle>, faults: Faults)
    ensures forall t | t in PassTasks(main, guilds, bundles, faults) :: exists g | g in guilds :: g.id == t.guild
  {
    if guilds != [] {
      var n := |guilds| - 1;
      assert guilds == guilds[..n] + [guilds[n]] && guilds[n] in guilds;
      PassGuilds(main, guilds[..n], bundles, faults);
      forall t | t in TasksFor(main, guilds[n], bundles)
        ensures t.guild == guilds[n].id
      {
        var j :| 0 <= j < |bundles| && TasksFor(main, guilds[n], bundles)[j] == t;
      }
    }
  }

  lemma EarlierGuilds(main: int, guilds: seq<GuildCriteria>, bundles: seq<Bundle>, faults: Faults)
    requires DistinctGuilds(guilds) && guilds != []
    ensures var n := |guilds| - 1;
      forall t | t in PassTasks(main, guilds[..n], bundles, faults) :: t.guild != guilds[n].id
  {
    var n := |guilds| - 1;
    PassGuilds(main, guilds[..n], bundles, faults);
    forall t | t in PassTasks(main, guilds[..n], bundles, faults)
      ensures t.guild != guilds[n].id
    {
      var g :| g in guilds[..n] && g.id == t.guild;
      var i :| 0 <= i < n && guilds[i] == g;
    }
  }

  lemma {:induction false} PassKeys(main: int, guilds: seq<GuildCriteria>, bundles: seq<Bundle>, faults: Faults)
    requires DistinctBris(bundles) && DistinctGuilds(guilds)
    ensures DistinctKeys(PassTasks(main, guilds, bundles, faults))
  {
    if guilds != [] {
      var n := |guilds| - 1;
      PassKeys(main, guilds[..n], bundles, faults);
      TasksAreDistinct(main, guilds[n], bundles);
      EarlierGuilds(main, guilds, bundles, faults);
      AppendKeys(PassTasks(main, guilds[..n], bundles, faults), TasksFor(main, guilds[n], bundles));
      AppendKeys(PassTasks(main, guilds[..n], bundles, faults), []);
    }
  }

  /** The rows loaded for a guild are still its rows when its turn comes. */
  lemma LoadedForGuild(
    s0: State, s: State, main: int, guilds: seq<GuildCriteria>, i: nat, bundles: seq<Bundle>, rows: seq<LinkRow>,
    loaded: map<int, int>, now: int, faults: Faults)
    requires Valid(s0) && DistinctBris(bundles) && DistinctGuilds(guilds) && i < |guilds|
    requires s == RepairAll(s0, PassTasks(main, guilds[..i], bundles, faults), now, faults)
    requires SortedByGuild(rows) && UniqueRows(rows)
    requires forall g, b, e :: LinkRow(g, b, e) in rows <==>
      (g, b) in s0.links && s0.links[(g, b)] == e && exists bundle | bundle in bundles :: bundle.bri == b
    requires var m := GroupByGuild(rows); loaded == if guilds[i].id in m then m[guilds[i].id] else map[]
    ensures forall b | b in bundles :: b.bri in loaded <==> (guilds[i].id, b.bri) in s.links
    ensures forall b | b in bundles && b.bri in loaded :: loaded[b.bri] == s.links[(guilds[i].id, b.bri)]
  {
    var guild := guilds[i].id;
    var tasks := PassTasks(main, guilds[..i], bundles, faults);
    PassKeys(main, guilds[..i], bundles, faults);
    PassGuilds(main, guilds[..i], bundles, faults);
    RepairAllIsSynced(s0, tasks, now, faults);
    forall b | b in bundles
      ensures b.bri in loaded <==> (guild, b.bri) in s.links
      ensures b.bri in loaded ==> loaded[b.bri] == s.links[(guild, b.bri)]
    {
      var k := (guild, b.bri);
      forall t | t in tasks
        ensures t.Key() != k
      {
        var g :| g in guilds[..i] && g.id == t.guild;
        var j :| 0 <= j < i && guilds[j] == g;
      }
      OthersStay(s0, s, tasks, now, faults, k);
      if k in s0.links {
        GroupingLosesNothing(rows, guild, b.bri, s0.links[k]);
      }
      if b.bri in loaded {
        GroupingLosesNothing(rows, guild, b.bri, loaded[b.bri]);
      }
    }
  }

  /** Two passes without failures over all guilds, from any link rows and events: they settle every
      task exactly when no missing event was already in the past, and then a third pass does nothing. */
  lemma TwoPassesSettleIff(s: State, main: int, guilds: seq<GuildCriteria>, bundles: seq<Bundle>, now1: int, now2: int, now3: int)
    requires Valid(s) && DistinctBris(bundles) && DistinctGuilds(guilds) && now1 <= now2
    ensures var tasks := PassTasks(main, guilds, bundles, NO_FAULTS);
      var s2 := RepairAll(RepairAll(s, tasks, now1, NO_FAULTS), tasks, now2, NO_FAULTS);
      && (Converged(s2, tasks) <==> forall t | t in tasks :: Creatable(s, t, now1))
      && (Converged(s2, tasks) ==> RepairAll(s2, tasks, now3, NO_FAULTS) == s2)
  {
    PassKeys(main, guilds, bundles, NO_FAULTS);
    var tasks := PassTasks(main, guilds, bundles, NO_FAULTS);
    var s1 := RepairAll(s, tasks, now1, NO_FAULTS);
    var s2 := RepairAll(s1, tasks, now2, NO_FAULTS);
    RepairAllIsSynced(s, tasks, now1, NO_FAULTS);
    RepairAllIsSynced(s1, tasks, now2, NO_FAULTS);
    TwoPassesConverge(s, s1, s2, tasks, now1, now2);
    if Converged(s2, tasks) {
      SettledPassIsSilent(s2, tasks, now3, NO_FAULTS);
    }
  }

  /** The whole service: with fixed desired content and no failures, whatever links and events there
      were, two passes over all guilds settle every race in every guild and the third does nothing. */
  lemma ServiceConverges(s: State, main: int, guilds: seq<GuildCriteria>, bundles: seq<Bundle>, now1: int, now2: int, now3: int)
    requires Valid(s) && DistinctBris(bundles) && DistinctGuilds(guilds) && now1 <= now2
    requires forall t | t in PassTasks(main, guilds, bundles, NO_FAULTS) :: Creatable(s, t, now1)
    ensures var tasks := PassTasks(main, guilds, bundles, NO_FAULTS);
      var s2 := RepairAll(RepairAll(s, tasks, now1, NO_FAULTS), tasks, now2, NO_FAULTS);
      && (forall g, b | g in guilds && b in bundles :: Settled(s2, Task(g.id, b.bri, DesiredIn(main, g, b))))
      && RepairAll(s2, tasks, now3, NO_FAULTS) == s2
  {
    TwoPassesSettleIff(s, main, guilds, bundles, now1, now2, now3);
    forall g, b | g in guilds && b in bundles
      ensures Task(g.id, b.bri, DesiredIn(main, g, b)) in PassTasks(main, guilds, bundles, NO_FAULTS)
    {
      PassCoversAll(main, guilds, bundles, g, b, NO_FAULTS);
    }
  }

  lemma {:induction false} PassCoversAll(
    main: int, guilds: seq<GuildCriteria>, bundles: seq<Bundle>, g: GuildCriteria, b: Bundle, faults: Faults)
    requires g in guilds && g.id !in faults.listing && b in bundles
    ensures Task(g.id, b.bri, DesiredIn(main, g, b)) in PassTasks(main, guilds, bundles, faults)
  {
    var n := |guilds| - 1;
    assert guilds == guilds[..n] + [guilds[n]];
    if g in guilds[..n] {
      PassCoversAll(main, guilds[..n], bundles, g, b, faults);
    } else {
      var j :| 0 <= j < |bundles| && bundles[j] == b;
      assert TasksFor(main, g, bundles)[j] == Task(g.id, b.bri, DesiredIn(main, g, b));
    }
  }

  /** The tasks of a pass are those of the guilds that could be listed and their races, and no others. */
  lemma {:induction false} PassIsOnlyThese(main: int, guilds: seq<GuildCriteria>, bundles: seq<Bundle>, t: Task, faults: Faults)
    ensures t in PassTasks(main, guilds, bundles, faults) ==>
      exists g, b :: g in guilds && g.id !in faults.listing && b in bundles && t == Task(g.id, b.bri, DesiredIn(main, g, b))
  {
    if t in PassTasks(main, guilds, bundles, faults) {
      var n := |guilds| - 1;
      assert guilds == guilds[..n] + [guilds[n]];
      if t in PassTasks(main, guilds[..n], bundles, faults) {
        PassIsOnlyThese(main, guilds[..n], bundles, t, faults);
      } else {
        var j :| 0 <= j < |bundles| && TasksFor(main, guilds[n], bundles)[j] == t;
        assert guilds[n] in guilds && bundles[j] in bundles;
      }
    }
  }

  /** What a pass with failures does for one race in one guild: it repairs what can be repaired, if the
      guild could be listed, and otherwise leaves link row and event as they were. */
  lemma FaultyPass(
    s: State, main: int, guilds: seq<GuildCriteria>, bundles: seq<Bundle>, now: int, faults: Faults, g: GuildCriteria, b: Bundle)
    requires Valid(s) && DistinctBris(bundles) && DistinctGuilds(guilds) && g in guilds && b in bundles
    ensures var after := RepairAll(s, PassTasks(main, guilds, bundles, faults), now, faults);
      && (g.id in faults.listing ==> SameAt(s, after, (g.id, b.bri)))
      && (g.id !in faults.listing ==> Repaired(s, after, Task(g.id, b.bri, DesiredIn(main, g, b)), now, faults))
  {
    var tasks := PassTasks(main, guilds, bundles, faults);
    PassKeys(main, guilds, bundles, faults);
    RepairAllIsSynced(s, tasks, now, faults);
    if g.id in faults.listing {
      forall t | t in tasks
        ensures t.Key() != (g.id, b.bri)
      {
        PassIsOnlyThese(main, guilds, bundles, t, faults);
      }
      OthersStay(s, RepairAll(s, tasks, now, faults), tasks, now, faults, (g.id, b.bri));
    } else {
      PassCoversAll(main, guilds, bundles, g, b, faults);
    }
  }
}

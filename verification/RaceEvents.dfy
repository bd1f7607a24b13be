/** Keeping the scheduled events of every guild in step with the races:
    src/discord/helper_bot/mod.rs. One pass compares, for every guild and race, what the event should
    look like with the event that the link row names, and repairs the difference. */
module RaceEvents {
  import opened Wrappers

  // ----- events and what they should look like

  datatype EventStatus = Scheduled | Active | Completed | Cancelled

  datatype Metadata = Metadata(location: Option<string>)

  datatype Event = Event(
    name: string,
    description: Option<string>,
    start: int,
    end: Option<int>,
    metadata: Option<Metadata>,
    status: EventStatus)

  datatype Content = Content(name: string, location: string, description: Option<string>, start: int, end: int)

  /** `NoEvent`: end the event if there is one, and do not create one. */
  datatype Desired = NoEvent | Wanted(content: Content)

  function EventsMatch(e: Event, c: Content): bool {
    && e.name == c.name && e.description == c.description && e.start == c.start && e.end == Some(c.end)
    && e.metadata.Some? && e.metadata.value.location == Some(c.location)
  }

  /** Creating an event does not send the description. */
  function Created(c: Content): Event {
    Event(c.name, None, c.start, Some(c.end), Some(Metadata(Some(c.location))), Scheduled)
  }

  function Edited(e: Event, c: Content): Event {
    Event(c.name, c.description, c.start, Some(c.end), Some(Metadata(Some(c.location))), e.status)
  }

  /** An event matches exactly when editing it would change nothing; a new event matches exactly when
      there is no description to send. */
  lemma MatchIffEditIsIdle(e: Event, c: Content)
    ensures EventsMatch(e, c) <==> Edited(e, c) == e
    ensures EventsMatch(Edited(e, c), c)
    ensures EventsMatch(Created(c), c) <==> c.description == None
  {
    if EventsMatch(e, c) {
      assert e.metadata.value == Metadata(Some(c.location));
    }
  }

  function EndStatus(e: Event): EventStatus {
    if e.status == Active then Completed else Cancelled
  }

  /** An event that was created here, and edited any number of times, is cancelled and not completed if it
      has not become active. */
  lemma UnstartedIsCancelled(e: Event, c: Content)
    ensures EndStatus(Created(c)) == Cancelled
    ensures EndStatus(e) == Cancelled ==> EndStatus(Edited(e, c)) == Cancelled
  {
  }

  // ----- which races concern which guild

  datatype Criterion = Criterion(player: Option<int>, restream: Option<bool>)

  datatype GuildCriteria = GuildCriteria(id: int, criteria: seq<Criterion>)

  datatype Bundle = Bundle(bri: int, p1: int, p2: int, hasRestream: bool, status: Desired)

  predicate Passes(c: Criterion, b: Bundle) {
    && (c.player.Some? ==> b.p1 == c.player.value || b.p2 == c.player.value)
    && (c.restream.Some? ==> c.restream.value == b.hasRestream)
  }

  predicate Interesting(main: int, guild: GuildCriteria, b: Bundle) {
    guild.id == main || exists c | c in guild.criteria :: Passes(c, b)
  }

  function DesiredIn(main: int, guild: GuildCriteria, b: Bundle): Desired {
    if Interesting(main, guild, b) then b.status else NoEvent
  }

  /** A race of these players concerns a guild: every race concerns the main guild, and any other guild
      needs a criterion that asks for no player or for one of the two, and asks nothing about the
      restream or just what holds of it. */
  predicate Concerns(main: int, guild: int, criteria: seq<Criterion>, p1: int, p2: int, hasRestream: bool) {
    guild == main || exists c | c in criteria ::
      c.player in [None, Some(p1), Some(p2)] && c.restream in [None, Some(hasRestream)]
  }

  lemma InterestingIffConcerns(main: int, guild: GuildCriteria, b: Bundle)
    ensures Interesting(main, guild, b) <==> Concerns(main, guild.id, guild.criteria, b.p1, b.p2, b.hasRestream)
  {
    forall c: Criterion
      ensures Passes(c, b) <==> c.player in [None, Some(b.p1), Some(b.p2)] && c.restream in [None, Some(b.hasRestream)]
    {
      assert c.player == None || c.player == Some(c.player.value);
      assert c.restream == None || c.restream == Some(c.restream.value);
    }
  }

  /** It does not matter who is player 1. */
  lemma SidesDoNotMatter(main: int, guild: GuildCriteria, b: Bundle)
    ensures DesiredIn(main, guild, b.(p1 := b.p2, p2 := b.p1)) == DesiredIn(main, guild, b)
  {
    var swapped := b.(p1 := b.p2, p2 := b.p1);
    assert forall c | c in guild.criteria :: Passes(c, swapped) <==> Passes(c, b);
  }

  // ----- the state that a pass reads and writes

  type Key = (int, int)

  datatype Action =
    | EndEvent(guild: int, id: int, status: EventStatus)
    | EditEvent(guild: int, id: int, content: Content)
    | CreateEvent(guild: int, content: Content)
    | WriteLink(guild: int, bri: int)

  /** The live events, by guild and event id; the link rows, by guild and race info; a bound on all
      event ids handed out so far; and the log of calls and row writes. Ended events leave the
      listing. */
  datatype State = State(events: map<Key, Event>, links: map<Key, int>, nextId: int, log: seq<Action>)

  /** Event ids are not reused, and the link table's unique index on event ids holds. */
  ghost predicate Valid(s: State) {
    && (forall k | k in s.events :: k.1 < s.nextId)
    && (forall k | k in s.links :: s.links[k] < s.nextId)
    && (forall j, k | j in s.links && k in s.links && s.links[j] == s.links[k] :: j == k)
  }

  /** One guild, one race: what should be there. */
  datatype Task = Task(guild: int, bri: int, desired: Desired) {
    function Key(): Key {
      (guild, bri)
    }
  }

  /** The live event that the link row of a task names. */
  predicate Live(s: State, k: Key) {
    k in s.links && (k.0, s.links[k]) in s.events
  }

  function EventKey(s: State, k: Key): Key
    requires Live(s, k)
  {
    (k.0, s.links[k])
  }

  /** Which calls fail in a pass: listing a guild's events, the call for a task, the row write for a
      task. */
  datatype Faults = Faults(listing: set<int>, call: set<Key>, write: set<Key>)

  const NO_FAULTS := Faults({}, {}, {})

  function Linked(s: State, k: Key, id: int, faults: Faults): State {
    var logged := s.(log := s.log + [WriteLink(k.0, k.1)]);
    if k in faults.write then logged else logged.(links := s.links[k := id])
  }

  /** One step of the loop, on the whole state. */
  function Repair(s: State, t: Task, now: int, faults: Faults): State {
    var k := t.Key();
    match t.desired
    case NoEvent =>
      if !Live(s, k) then s
      else
        var ek := EventKey(s, k);
        var called := s.(log := s.log + [EndEvent(k.0, ek.1, EndStatus(s.events[ek]))]);
        if k in faults.call then called else Linked(called.(events := s.events - {ek}), k, ek.1, faults)
    case Wanted(c) =>
      if Live(s, k) then
        var ek := EventKey(s, k);
        if EventsMatch(s.events[ek], c) then s
        else
          var called := s.(log := s.log + [EditEvent(k.0, ek.1, c)]);
          if k in faults.call then called else called.(events := s.events[ek := Edited(s.events[ek], c)])
      else if c.start < now then s
      else
        var called := s.(log := s.log + [CreateEvent(k.0, c)]);
        if k in faults.call then called
        else
          var ek := (k.0, s.nextId);
          Linked(called.(events := s.events[ek := Created(c)], nextId := s.nextId + 1), k, ek.1, faults)
  }

  function RepairAll(s: State, tasks: seq<Task>, now: int, faults: Faults): State {
    if tasks == [] then s
    else
      var n := |tasks| - 1;
      Repair(RepairAll(s, tasks[..n], now, faults), tasks[n], now, faults)
  }

  // ----- what a pass does, task by task

  ghost predicate DistinctKeys(tasks: seq<Task>) {
    forall i, j | 0 <= i < j < |tasks| :: tasks[i].Key() != tasks[j].Key()
  }

  /** The link row and the live event of a key are the same in both states. */
  ghost predicate SameAt(s: State, after: State, k: Key) {
    && (k in after.links <==> k in s.links)
    && (k in s.links ==> after.links[k] == s.links[k])
    && (Live(after, k) <==> Live(s, k))
    && (Live(s, k) ==> after.events[EventKey(after, k)] == s.events[EventKey(s, k)])
  }

  /** What becomes of one task. */
  ghost predicate Repaired(s: State, after: State, t: Task, now: int, faults: Faults) {
    var k := t.Key();
    if k in faults.call then SameAt(s, after, k)
    else match t.desired
      case NoEvent =>
        && !Live(after, k)
        && (k in after.links <==> k in s.links) && (k in s.links ==> after.links[k] == s.links[k])
      case Wanted(c) =>
        if Live(s, k) then
          && k in after.links && after.links[k] == s.links[k]
          && Live(after, k)
          && var e := s.events[EventKey(s, k)];
             after.events[EventKey(after, k)] == if EventsMatch(e, c) then e else Edited(e, c)
        else if c.start < now || k in faults.write then SameAt(s, after, k)
        else
          && k in after.links && s.nextId <= after.links[k]
          && Live(after, k) && after.events[EventKey(after, k)] == Created(c)
  }

  /** No task's link row names the event. */
  ghost predicate Unlinked(s: State, tasks: seq<Task>, ek: Key) {
    forall t | t in tasks && t.Key() in s.links :: (t.guild, s.links[t.Key()]) != ek
  }

  function KeysOf(tasks: seq<Task>): set<Key> {
    set t | t in tasks :: t.Key()
  }

  /** A pass over the tasks: every task is repaired, and nothing else is touched. */
  ghost predicate Synced(s: State, after: State, tasks: seq<Task>, now: int, faults: Faults) {
    && s.nextId <= after.nextId
    && (forall t | t in tasks :: Repaired(s, after, t, now, faults))
    && (forall k | k !in KeysOf(tasks) :: k in after.links <==> k in s.links)
    && (forall k | k !in KeysOf(tasks) && k in s.links :: after.links[k] == s.links[k])
    && (forall ek | ek in s.events && Unlinked(s, tasks, ek) :: ek in after.events && after.events[ek] == s.events[ek])
    && (forall ek | ek in after.events && ek !in s.events :: s.nextId <= ek.1)
  }

  // ----- the loop does that

  lemma RepairKeepsValid(s: State, t: Task, now: int, faults: Faults)
    requires Valid(s)
    ensures Valid(Repair(s, t, now, faults))
  {
    match t.desired
    case NoEvent => EndingKeepsValid(s, t, now, faults);
    case Wanted(_) =>
  }

  lemma EndingKeepsValid(s: State, t: Task, now: int, faults: Faults)
    requires Valid(s) && t.desired.NoEvent?
    ensures Valid(Repair(s, t, now, faults))
  {
  }

  lemma RepairIsSynced(s: State, t: Task, now: int, faults: Faults)
    requires Valid(s)
    ensures Synced(s, Repair(s, t, now, faults), [t], now, faults)
  {
    var after, k := Repair(s, t, now, faults), t.Key();
    assert t in [t];
    assert KeysOf([t]) == {k};
    assert Repaired(s, after, t, now, faults);
    forall ek | ek in s.events && Unlinked(s, [t], ek)
      ensures ek in after.events && after.events[ek] == s.events[ek]
    {
      assert Live(s, k) ==> ek != EventKey(s, k);
    }
  }

  /** A key that a pass does not handle keeps its link row and its live event. */
  lemma OthersStay(s: State, after: State, tasks: seq<Task>, now: int, faults: Faults, k: Key)
    requires Valid(s) && Synced(s, after, tasks, now, faults) && k !in KeysOf(tasks)
    ensures SameAt(s, after, k)
  {
    if k in s.links {
      var ek := (k.0, s.links[k]);
      forall t | t in tasks && t.Key() in s.links
        ensures (t.guild, s.links[t.Key()]) != ek
      {
        assert t.Key() in KeysOf(tasks);
      }
    }
  }

  lemma RepairedAfterOther(s: State, mid: State, after: State, t: Task, now: int, faults: Faults)
    requires Repaired(s, mid, t, now, faults) && SameAt(mid, after, t.Key())
    ensures Repaired(s, after, t, now, faults)
  {
  }

  lemma RepairedFromSame(s: State, mid: State, after: State, t: Task, now: int, faults: Faults)
    requires SameAt(s, mid, t.Key()) && s.nextId <= mid.nextId && Repaired(mid, after, t, now, faults)
    ensures Repaired(s, after, t, now, faults)
  {
  }

  lemma AppendRepaired(s: State, mid: State, after: State, front: seq<Task>, t: Task, x: Task, now: int, faults: Faults)
    requires Valid(s) && Valid(mid) && t.Key() !in KeysOf(front)
    requires Synced(s, mid, front, now, faults) && Synced(mid, after, [t], now, faults)
    requires x in front || x == t
    ensures Repaired(s, after, x, now, faults)
  {
    assert KeysOf([t]) == {t.Key()};
    if x in front {
      assert x.Key() in KeysOf(front);
      OthersStay(mid, after, [t], now, faults, x.Key());
      RepairedAfterOther(s, mid, after, x, now, faults);
    } else {
      OthersStay(s, mid, front, now, faults, t.Key());
      assert t in [t];
      RepairedFromSame(s, mid, after, t, now, faults);
    }
  }

  lemma AppendUnlinked(s: State, mid: State, after: State, front: seq<Task>, t: Task, ek: Key, now: int, faults: Faults)
    requires t.Key() !in KeysOf(front)
    requires Synced(s, mid, front, now, faults) && Synced(mid, after, [t], now, faults)
    requires ek in s.events && Unlinked(s, front + [t], ek)
    ensures ek in after.events && after.events[ek] == s.events[ek]
  {
    assert forall x | x in front :: x in front + [t];
    assert t in front + [t];
    assert Unlinked(s, front, ek);
    assert Unlinked(mid, [t], ek);
  }

  lemma SyncedAppend(s: State, mid: State, after: State, front: seq<Task>, t: Task, now: int, faults: Faults)
    requires Valid(s) && Valid(mid) && t.Key() !in KeysOf(front)
    requires Synced(s, mid, front, now, faults) && Synced(mid, after, [t], now, faults)
    ensures Synced(s, after, front + [t], now, faults)
  {
    var tasks := front + [t];
    assert KeysOf([t]) == {t.Key()};
    assert KeysOf(tasks) == KeysOf(front) + KeysOf([t]);
    forall x | x in tasks
      ensures Repaired(s, after, x, now, faults)
    {
      AppendRepaired(s, mid, after, front, t, x, now, faults);
    }
    forall ek | ek in s.events && Unlinked(s, tasks, ek)
      ensures ek in after.events && after.events[ek] == s.events[ek]
    {
      AppendUnlinked(s, mid, after, front, t, ek, now, faults);
    }
  }

  lemma {:induction false} RepairAllIsSynced(s: State, tasks: seq<Task>, now: int, faults: Faults)
    requires Valid(s) && DistinctKeys(tasks)
    ensures Valid(RepairAll(s, tasks, now, faults))
    ensures Synced(s, RepairAll(s, tasks, now, faults), tasks, now, faults)
  {
    if tasks != [] {
      var n := |tasks| - 1;
      var mid := RepairAll(s, tasks[..n], now, faults);
      RepairAllIsSynced(s, tasks[..n], now, faults);
      RepairKeepsValid(mid, tasks[n], now, faults);
      RepairIsSynced(mid, tasks[n], now, faults);
      assert tasks == tasks[..n] + [tasks[n]];
      SyncedAppend(s, mid, RepairAll(s, tasks, now, faults), tasks[..n], tasks[n], now, faults);
    }
  }

  // ----- convergence

  /** Every wanted race has a linked, live event that matches; every other race has none. */
  ghost predicate Converged(s: State, tasks: seq<Task>) {
    forall t | t in tasks :: Settled(s, t)
  }

  predicate Settled(s: State, t: Task) {
    match t.desired
    case NoEvent => !Live(s, t.Key())
    case Wanted(c) => Live(s, t.Key()) && EventsMatch(s.events[EventKey(s, t.Key())], c)
  }

  /** An event that is wanted and missing does not start in the past. */
  predicate Creatable(s: State, t: Task, now: int) {
    t.desired.Wanted? && !Live(s, t.Key()) ==> t.desired.content.start >= now
  }

  /** From any link rows and events whatever, two passes without failures settle every race, exactly
      when no missing event is already in the past at the first pass. */
  lemma TwoPassesConverge(s0: State, s1: State, s2: State, tasks: seq<Task>, now1: int, now2: int)
    requires Synced(s0, s1, tasks, now1, NO_FAULTS) && Synced(s1, s2, tasks, now2, NO_FAULTS)
    requires now1 <= now2
    ensures Converged(s2, tasks) <==> forall t | t in tasks :: Creatable(s0, t, now1)
  {
    forall t | t in tasks
      ensures Settled(s2, t) <==> Creatable(s0, t, now1)
    {
      assert Repaired(s0, s1, t, now1, NO_FAULTS);
      assert Repaired(s1, s2, t, now2, NO_FAULTS);
    }
  }

  /** One pass is enough exactly when, besides, no event that has to be created has a description:
      creation does not send it. */
  lemma OnePassConverges(s0: State, s1: State, tasks: seq<Task>, now: int)
    requires Synced(s0, s1, tasks, now, NO_FAULTS)
    ensures Converged(s1, tasks) <==>
      forall t | t in tasks ::
        t.desired.Wanted? && !Live(s0, t.Key()) ==> t.desired.content.start >= now && t.desired.content.description == None
  {
    forall t | t in tasks
      ensures Settled(s1, t) <==>
        (t.desired.Wanted? && !Live(s0, t.Key()) ==> t.desired.content.start >= now && t.desired.content.description == None)
    {
      assert Repaired(s0, s1, t, now, NO_FAULTS);
    }
  }

  /** A pass over a settled state makes no call and writes no row. */
  lemma {:induction false} SettledPassIsSilent(s: State, tasks: seq<Task>, now: int, faults: Faults)
    requires Converged(s, tasks)
    ensures RepairAll(s, tasks, now, faults) == s
  {
    if tasks != [] {
      var n := |tasks| - 1;
      assert forall t | t in tasks[..n] :: t in tasks;
      SettledPassIsSilent(s, tasks[..n], now, faults);
      assert Settled(s, tasks[n]);
    }
  }

  /** Only a settled state is left alone, or one whose missing events are all in the past. */
  lemma {:induction false} SilentPassIsSettled(s: State, tasks: seq<Task>, now: int, faults: Faults)
    requires |RepairAll(s, tasks, now, faults).log| == |s.log|
    requires forall t | t in tasks :: Creatable(s, t, now)
    ensures Converged(s, tasks)
  {
    if tasks != [] {
      var n := |tasks| - 1;
      var mid := RepairAll(s, tasks[..n], now, faults);
      assert tasks == tasks[..n] + [tasks[n]];
      LogGrows(s, tasks[..n], now, faults);
      RepairLogs(mid, tasks[n], now, faults);
      SilentPassIsSettled(s, tasks[..n], now, faults);
      assert tasks[n] in tasks && Creatable(s, tasks[n], now);
    }
  }

  lemma RepairLogs(s: State, t: Task, now: int, faults: Faults)
    ensures |Repair(s, t, now, faults).log| >= |s.log|
    ensures |Repair(s, t, now, faults).log| == |s.log| ==> Repair(s, t, now, faults) == s
    ensures |Repair(s, t, now, faults).log| == |s.log| && Creatable(s, t, now) ==> Settled(s, t)
  {
  }

  lemma {:induction false} LogGrows(s: State, tasks: seq<Task>, now: int, faults: Faults)
    ensures |RepairAll(s, tasks, now, faults).log| >= |s.log|
    ensures |RepairAll(s, tasks, now, faults).log| == |s.log| ==> RepairAll(s, tasks, now, faults) == s
  {
    if tasks != [] {
      var n := |tasks| - 1;
      LogGrows(s, tasks[..n], now, faults);
      RepairLogs(RepairAll(s, tasks[..n], now, faults), tasks[n], now, faults);
    }
  }

  // ----- what Discord makes of the calls

  /** Discord lets an event go from scheduled to active to completed, or from scheduled to cancelled. */
  predicate MayBecome(was: EventStatus, now: EventStatus) {
    (was, now) in {(Scheduled, Active), (Active, Completed), (Scheduled, Cancelled)}
  }

  /** What the calls of a log make of the live events, `None` if Discord refuses one: ending, by a status
      that ends, or editing only an event that is there, and creating none in the past. Row writes are no
      calls. */
  function Replay(events: map<Key, Event>, nextId: int, log: seq<Action>, now: int): Option<(map<Key, Event>, int)> {
    if log == [] then Some((events, nextId))
    else match Replay(events, nextId, log[..|log| - 1], now)
      case None => None
      case Some((before, id)) => Called(before, id, log[|log| - 1], now)
  }

  function Called(events: map<Key, Event>, nextId: int, call: Action, now: int): Option<(map<Key, Event>, int)> {
    match call
    case EndEvent(guild, id, status) =>
      if (guild, id) in events && status in {Completed, Cancelled} && MayBecome(events[(guild, id)].status, status)
      then Some((events - {(guild, id)}, nextId)) else None
    case EditEvent(guild, id, c) =>
      if (guild, id) in events then Some((events[(guild, id) := Edited(events[(guild, id)], c)], nextId)) else None
    case CreateEvent(guild, c) =>
      if c.start >= now then Some((events[(guild, nextId) := Created(c)], nextId + 1)) else None
    case WriteLink(_, _) => Some((events, nextId))
  }

  /** Ended events leave the listing. */
  predicate NoneEnded(events: map<Key, Event>) {
    forall k | k in events :: events[k].status in {Scheduled, Active}
  }

  /** Running the calls of one log after those of another. */
  lemma {:induction false} ReplayAppend(events: map<Key, Event>, nextId: int, log: seq<Action>, more: seq<Action>, now: int)
    requires Replay(events, nextId, log, now).Some?
    ensures var (mid, id) := Replay(events, nextId, log, now).value;
      Replay(events, nextId, log + more, now) == Replay(mid, id, more, now)
  {
    if more == [] {
      assert log + more == log;
    } else {
      var n := |more| - 1;
      ReplayAppend(events, nextId, log, more[..n], now);
      assert (log + more)[..|log| + n] == log + more[..n];
    }
  }

  lemma ReplayOne(events: map<Key, Event>, nextId: int, call: Action, now: int)
    ensures Replay(events, nextId, [call], now) == Called(events, nextId, call, now)
  {
    assert [call][..0] == [];
  }

  lemma ReplayTwo(events: map<Key, Event>, nextId: int, call: Action, guild: int, bri: int, now: int)
    ensures Replay(events, nextId, [call, WriteLink(guild, bri)], now) == Called(events, nextId, call, now)
  {
    assert [call, WriteLink(guild, bri)][..1] == [call];
    ReplayOne(events, nextId, call, now);
  }

  predicate EndsOrCreates(a: Action) {
    a.EndEvent? || a.CreateEvent?
  }

  /** A link row is written right after each call that ends or creates an event, in the guild of that
      call, and at no other time. */
  predicate WritesFollowCalls(calls: seq<Action>) {
    && (forall i | 0 <= i < |calls| && EndsOrCreates(calls[i]) ::
          i + 1 < |calls| && calls[i + 1].WriteLink? && calls[i + 1].guild == calls[i].guild)
    && (forall i | 0 <= i < |calls| && calls[i].WriteLink? :: i > 0 && EndsOrCreates(calls[i - 1]))
  }

  lemma WritesFollowAppend(a: seq<Action>, b: seq<Action>)
    requires WritesFollowCalls(a) && WritesFollowCalls(b)
    ensures WritesFollowCalls(a + b)
  {
  }

  /** The calls of one step of the loop. */
  lemma RepairCalls(s: State, t: Task, now: int) returns (calls: seq<Action>)
    requires NoneEnded(s.events)
    ensures WritesFollowCalls(calls)
    ensures var after := Repair(s, t, now, NO_FAULTS);
      && after.log == s.log + calls && NoneEnded(after.events)
      && Replay(s.events, s.nextId, calls, now) == Some((after.events, after.nextId))
  {
    var k := t.Key();
    match t.desired
    case NoEvent =>
      if Live(s, k) {
        var call := EndEvent(k.0, s.links[k], EndStatus(s.events[EventKey(s, k)]));
        calls := [call, WriteLink(k.0, k.1)];
        ReplayTwo(s.events, s.nextId, call, k.0, k.1, now);
        assert s.log + [call] + [WriteLink(k.0, k.1)] == s.log + calls;
      } else {
        calls := [];
      }
    case Wanted(c) =>
      if Live(s, k) && !EventsMatch(s.events[EventKey(s, k)], c) {
        calls := [EditEvent(k.0, s.links[k], c)];
        ReplayOne(s.events, s.nextId, calls[0], now);
      } else if !Live(s, k) && c.start >= now {
        calls := [CreateEvent(k.0, c), WriteLink(k.0, k.1)];
        ReplayTwo(s.events, s.nextId, calls[0], k.0, k.1, now);
        assert s.log + [calls[0]] + [WriteLink(k.0, k.1)] == s.log + calls;
      } else {
        calls := [];
      }
  }

  /** Discord accepts every call of a pass, and the calls account for every change: running the log of
      the pass from the events as they were gives the events as they are. */
  lemma {:induction false} CallsAreAccepted(s: State, tasks: seq<Task>, now: int) returns (calls: seq<Action>)
    requires NoneEnded(s.events)
    ensures WritesFollowCalls(calls)
    ensures var after := RepairAll(s, tasks, now, NO_FAULTS);
      && after.log == s.log + calls && NoneEnded(after.events)
      && Replay(s.events, s.nextId, calls, now) == Some((after.events, after.nextId))
  {
    calls := [];
    if tasks != [] {
      var n := |tasks| - 1;
      var front := CallsAreAccepted(s, tasks[..n], now);
      var last := RepairCalls(RepairAll(s, tasks[..n], now, NO_FAULTS), tasks[n], now);
      ReplayAppend(s.events, s.nextId, front, last, now);
      calls := front + last;
      WritesFollowAppend(front, last);
    }
  }

  // ----- grouping the link rows by guild

  datatype LinkRow = LinkRow(guild: int, bri: int, event: int)

  predicate SortedByGuild(rows: seq<LinkRow>) {
    forall i, j | 0 <= i < j < |rows| :: rows[i].guild <= rows[j].guild
  }

  predicate UniqueRows(rows: seq<LinkRow>) {
    forall i, j | 0 <= i < j < |rows| :: (rows[i].guild, rows[i].bri) != (rows[j].guild, rows[j].bri)
  }

  /** The length of the first run of rows of one guild. */
  function RunLength(rows: seq<LinkRow>): (n: nat)
    ensures n <= |rows|
    ensures rows != [] ==> n > 0
    ensures forall i | 0 <= i < n :: rows[i].guild == rows[0].guild
    ensures 0 < n < |rows| ==> rows[n].guild != rows[0].guild
  {
    if |rows| <= 1 then |rows|
    else if rows[1].guild != rows[0].guild then 1
    else
      var rest := RunLength(rows[1..]);
      assert forall i | 0 < i <= rest :: rows[1..][i - 1] == rows[i];
      1 + rest
  }

  function RowsToMap(rows: seq<LinkRow>): map<int, int> {
    if rows == [] then map[]
    else
      var n := |rows| - 1;
      RowsToMap(rows[..n])[rows[n].bri := rows[n].event]
  }

  /** Consecutive rows of one guild become a map; of two runs of one guild the later one wins. */
  function GroupByGuild(rows: seq<LinkRow>): map<int, map<int, int>> {
    if rows == [] then map[]
    else
      var n := RunLength(rows);
      var rest := GroupByGuild(rows[n..]);
      if rows[0].guild in rest then rest else rest[rows[0].guild := RowsToMap(rows[..n])]
  }

  lemma {:induction false} RowsToMapMembers(rows: seq<LinkRow>, bri: int)
    requires forall i, j | 0 <= i < j < |rows| :: rows[i].bri != rows[j].bri
    ensures bri in RowsToMap(rows) <==> exists r | r in rows :: r.bri == bri
    ensures forall r | r in rows :: r.bri in RowsToMap(rows) && RowsToMap(rows)[r.bri] == r.event
  {
    if rows != [] {
      var n := |rows| - 1;
      assert rows == rows[..n] + [rows[n]];
      RowsToMapMembers(rows[..n], bri);
      forall r | r in rows[..n]
        ensures r.bri != rows[n].bri
      {
        var i :| 0 <= i < n && rows[i] == r;
      }
    }
  }

  lemma RestIsOther(rows: seq<LinkRow>, r: LinkRow)
    requires SortedByGuild(rows) && rows != [] && r in rows[RunLength(rows)..]
    ensures r.guild != rows[0].guild
  {
    var n := RunLength(rows);
    var i :| 0 <= i < |rows| - n && rows[n..][i] == r;
    assert rows[n + i] == r && rows[0].guild < rows[n].guild <= rows[n + i].guild;
  }

  lemma RunHasDistinctBris(rows: seq<LinkRow>)
    requires UniqueRows(rows) && rows != []
    ensures var n := RunLength(rows); forall i, j | 0 <= i < j < n :: rows[..n][i].bri != rows[..n][j].bri
  {
    var n := RunLength(rows);
    forall i, j | 0 <= i < j < n
      ensures rows[..n][i].bri != rows[..n][j].bri
    {
      assert rows[i].guild == rows[j].guild;
    }
  }

  /** The first run is the whole of its guild. */
  lemma FirstRun(rows: seq<LinkRow>, r: LinkRow)
    requires SortedByGuild(rows) && rows != []
    ensures var n := RunLength(rows);
      r in rows <==> if r.guild == rows[0].guild then r in rows[..n] else r in rows[n..]
  {
    var n := RunLength(rows);
    SplitMembers(rows, n, r);
    if r in rows[n..] {
      RestIsOther(rows, r);
    }
  }

  lemma SplitMembers<T>(s: seq<T>, n: nat, x: T)
    requires n <= |s|
    ensures x in s <==> x in s[..n] || x in s[n..]
  {
    assert s == s[..n] + s[n..];
  }

  /** Nothing is lost: the two-level map holds an event under a guild and a race exactly when that
      row was loaded. */
  lemma {:induction false} GroupingLosesNothing(rows: seq<LinkRow>, guild: int, bri: int, event: int)
    requires SortedByGuild(rows) && UniqueRows(rows)
    ensures LinkRow(guild, bri, event) in rows <==>
      var m := GroupByGuild(rows); guild in m && bri in m[guild] && m[guild][bri] == event
    decreases |rows|
  {
    if rows != [] {
      var n := RunLength(rows);
      FirstRun(rows, LinkRow(guild, bri, event));
      RunHasDistinctBris(rows);
      forall r | r in rows[n..]
        ensures r.guild != rows[0].guild
      {
        RestIsOther(rows, r);
      }
      FirstGuildIsGone(rows[n..], rows[0].guild);
      if guild == rows[0].guild {
        RowsToMapMembers(rows[..n], bri);
        forall r | r in rows[..n] && r.bri == bri
          ensures r.guild == guild && RowsToMap(rows[..n])[bri] == r.event
        {
          var i :| 0 <= i < n && rows[..n][i] == r;
          assert rows[i].guild == rows[0].guild;
        }
      } else {
        GroupingLosesNothing(rows[n..], guild, bri, event);
      }
    }
  }

  lemma {:induction false} FirstGuildIsGone(rows: seq<LinkRow>, guild: int)
    requires forall r | r in rows :: r.guild != guild
    ensures guild !in GroupByGuild(rows)
    decreases |rows|
  {
    if rows != [] {
      assert forall r | r in rows[RunLength(rows)..] :: r in rows;
      FirstGuildIsGone(rows[RunLength(rows)..], guild);
      assert rows[0] in rows;
    }
  }
}

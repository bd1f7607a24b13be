/** Opening racetime.gg rooms: a producer that sends the same race info many times, and one consumer
    that opens a room for each scheduling: src/racetime_bot/mod.rs and
    src/workers/upcoming_races_worker.rs. A consumer step is atomic here. */
module Rooms {
  import opened Wrappers

  // ----- room urls

  /** `base` is the site's base url with the category. */
  function UrlFromSlug(base: string, slug: string): string {
    base + "/" + slug
  }

  /** The base goes into the regular expression as it is, so a dot in it matches any character. */
  predicate CharMatches(pattern: char, c: char) {
    if pattern == '.' then c != '\n' else pattern == c
  }

  predicate UrlMatchAt(base: string, url: string, i: nat) {
    && i + |base| + 1 < |url|
    && (forall k | 0 <= k < |base| :: CharMatches(base[k], url[i + k]))
    && url[i + |base|] == '/' && url[i + |base| + 1] != '/'
  }

  function FirstUrlMatch(base: string, url: string, i: nat): (r: Option<nat>)
    requires i <= |url|
    ensures r.Some? ==> i <= r.value && UrlMatchAt(base, url, r.value)
    ensures r.Some? ==> forall k: nat | i <= k < r.value :: !UrlMatchAt(base, url, k)
    ensures r.None? ==> forall k: nat | i <= k :: !UrlMatchAt(base, url, k)
    decreases |url| - i
  {
    if UrlMatchAt(base, url, i) then Some(i) else if i == |url| then None else FirstUrlMatch(base, url, i + 1)
  }

  function SegmentEnd(url: string, j: nat): (e: nat)
    requires j <= |url|
    ensures j <= e <= |url| && '/' !in url[j..e]
    ensures e < |url| ==> url[e] == '/'
    decreases |url| - j
  {
    if j == |url| || url[j] == '/' then j
    else
      var e := SegmentEnd(url, j + 1);
      assert url[j..e] == [url[j]] + url[j + 1..e];
      e
  }

  function SlugFromUrl(base: string, url: string): Option<string> {
    match FirstUrlMatch(base, url, 0)
    case None => None
    case Some(i) => var j := i + |base| + 1; Some(url[j..SegmentEnd(url, j)])
  }

  predicate ProperSlug(slug: string) {
    slug != "" && '/' !in slug
  }

  lemma {:induction false} LastSegment(url: string, j: nat)
    requires j <= |url| && '/' !in url[j..]
    ensures SegmentEnd(url, j) == |url|
    decreases |url| - j
  {
    if j < |url| {
      assert url[j] in url[j..];
      assert url[j..] == [url[j]] + url[j + 1..];
      LastSegment(url, j + 1);
    }
  }

  /** Whatever the url, a slug that is read from it is not empty and has no slash. */
  lemma SlugsAreProper(base: string, url: string)
    requires SlugFromUrl(base, url).Some?
    ensures ProperSlug(SlugFromUrl(base, url).value)
  {
    var j := FirstUrlMatch(base, url, 0).value + |base| + 1;
    assert SegmentEnd(url, j) >= SegmentEnd(url, j + 1);
  }

  /** At `i` the url has the base, in which a dot stands for any character of the line, a slash, and a
      slug that goes on to the next slash or to the end. */
  predicate SlugAt(base: string, url: string, i: nat, slug: string) {
    var j := i + |base| + 1;
    && ProperSlug(slug) && j + |slug| <= |url|
    && (forall k | 0 <= k < |base| :: url[i + k] == base[k] || (base[k] == '.' && url[i + k] != '\n'))
    && url[j - 1] == '/' && url[j..j + |slug|] == slug
    && (j + |slug| < |url| ==> url[j + |slug|] == '/')
  }

  /** It is the first such place. */
  ghost predicate FirstSlugAt(base: string, url: string, i: nat, slug: string) {
    SlugAt(base, url, i, slug) && forall k: nat, other | k < i :: !SlugAt(base, url, k, other)
  }

  /** For any url whatever: the slug that is read is the one at the first place where there is one. */
  lemma SlugFromUrlExactly(base: string, url: string, slug: string)
    ensures SlugFromUrl(base, url) == Some(slug) <==> exists i: nat :: FirstSlugAt(base, url, i, slug)
  {
    if SlugFromUrl(base, url) == Some(slug) {
      FirstSlugIff(base, url, FirstUrlMatch(base, url, 0).value, slug);
    }
    if i: nat :| FirstSlugAt(base, url, i, slug) {
      FirstSlugIff(base, url, i, slug);
    }
  }

  lemma FirstSlugIff(base: string, url: string, i: nat, slug: string)
    ensures FirstSlugAt(base, url, i, slug) <==>
      FirstUrlMatch(base, url, 0) == Some(i) && SlugFromUrl(base, url) == Some(slug)
  {
    forall k: nat
      ensures UrlMatchAt(base, url, k) <==> exists other :: SlugAt(base, url, k, other)
    {
      SomeSlugAtIff(base, url, k);
    }
    SlugAtIff(base, url, i, slug);
    var first := FirstUrlMatch(base, url, 0);
    if FirstSlugAt(base, url, i, slug) {
      assert UrlMatchAt(base, url, first.value);
      assert first.value == i;
    } else if first == Some(i) && SlugFromUrl(base, url) == Some(slug) {
      forall k: nat, other | k < i
        ensures !SlugAt(base, url, k, other)
      {
        assert !UrlMatchAt(base, url, k);
      }
    }
  }

  lemma SomeSlugAtIff(base: string, url: string, k: nat)
    ensures UrlMatchAt(base, url, k) <==> exists other :: SlugAt(base, url, k, other)
  {
    if UrlMatchAt(base, url, k) {
      var j := k + |base| + 1;
      SlugAtIff(base, url, k, url[j..SegmentEnd(url, j)]);
    }
    if other :| SlugAt(base, url, k, other) {
      SlugAtIff(base, url, k, other);
    }
  }

  lemma SlugAtIff(base: string, url: string, i: nat, slug: string)
    ensures SlugAt(base, url, i, slug) <==>
      var j := i + |base| + 1;
      UrlMatchAt(base, url, i) && slug == url[j..SegmentEnd(url, j)]
  {
    var j := i + |base| + 1;
    if UrlMatchAt(base, url, i) {
      var e := SegmentEnd(url, j);
      assert e > j by {
        assert SegmentEnd(url, j) >= SegmentEnd(url, j + 1);
      }
      if slug == url[j..e] {
        assert SlugAt(base, url, i, slug);
      }
      if SlugAt(base, url, i, slug) {
        SegmentIsSlug(url, j, slug);
      }
    }
    if SlugAt(base, url, i, slug) {
      assert slug[0] in slug && url[j] == url[j..j + |slug|][0];
    }
  }

  lemma SegmentIsSlug(url: string, j: nat, slug: string)
    requires '/' !in slug && j + |slug| <= |url| && url[j..j + |slug|] == slug
    requires j + |slug| < |url| ==> url[j + |slug|] == '/'
    ensures SegmentEnd(url, j) == j + |slug|
  {
    var e := SegmentEnd(url, j);
    assert forall k | 0 <= k < |slug| :: slug[k] == url[j + k] && slug[k] in slug;
    assert forall k | j <= k < e :: url[k] in url[j..e];
  }

  /** A slug is read back from its url exactly when it is not empty and has no slash. */
  lemma SlugRoundTrip(base: string, slug: string)
    ensures SlugFromUrl(base, UrlFromSlug(base, slug)) == Some(slug) <==> ProperSlug(slug)
  {
    var url := UrlFromSlug(base, slug);
    var j := |base| + 1;
    assert url[j..] == slug;
    if ProperSlug(slug) {
      assert url[j] == slug[0] && slug[0] in slug;
      assert UrlMatchAt(base, url, 0);
      LastSegment(url, j);
      assert url[j..|url|] == slug;
    } else if SlugFromUrl(base, url).Some? {
      SlugsAreProper(base, url);
    }
  }

  // ----- state

  /** `scheduling` counts how often the race was scheduled; `attached` says that the scanner has put
      the url of a race that it found in place of the room's. */
  datatype Info = Info(scheduledFor: Option<int>, url: Option<string>, finished: bool, scheduling: nat, attached: bool)

  /** A room that exists on the site. It is `saved` if storing its url succeeded. */
  datatype Room = Room(slug: string, bri: int, scheduling: nat, saved: bool)

  /** A waiting request. The program sends only the id; the scheduling for which it was sent is
      history. */
  datatype Request = Request(bri: int, scheduling: nat)

  /** `requested` remembers every request ever sent. Rooms are requested `lead` before the start. */
  datatype State = State(
    infos: map<int, Info>,
    queue: seq<Request>,
    rooms: seq<Room>,
    slugs: map<string, int>,
    requested: set<Request>,
    clock: int,
    lead: int)

  /** How the calls of one consumer step turn out. */
  datatype Outcome = CreateFails | SaveFails(slug: string) | Opened(slug: string)

  const NEW_INFO := Info(None, None, false, 0, false)

  function InfoOf(s: State, b: int): Info {
    if b in s.infos then s.infos[b] else NEW_INFO
  }

  // ----- steps

  /** Unfinished and scheduled before the given time. */
  predicate StartsBefore(s: State, b: int, when: int) {
    b in s.infos && !s.infos[b].finished && s.infos[b].scheduledFor.Some? && s.infos[b].scheduledFor.value < when
  }

  /** The query for the season's unfinished races that start before the given time; `rows` are the
      season's races, in whatever order. */
  function StartingBefore(s: State, rows: seq<int>, when: int): (found: seq<int>)
    ensures forall b :: b in found <==> b in rows && StartsBefore(s, b, when)
  {
    if rows == [] then []
    else
      assert rows == [rows[0]] + rows[1..];
      (if StartsBefore(s, rows[0], when) then [rows[0]] else []) + StartingBefore(s, rows[1..], when)
  }

  function Sent(s: State, r: Request): State {
    s.(queue := s.queue + [r], requested := s.requested + {r})
  }

  function Send(s: State, b: int, doubled: bool): State
    requires b in s.infos
  {
    var r := Request(b, s.infos[b].scheduling);
    s.(queue := s.queue + if doubled then [r, r] else [r], requested := s.requested + {r})
  }

  lemma SentTwice(s: State, r: Request)
    ensures Sent(Sent(s, r), r) == s.(queue := s.queue + [r, r], requested := s.requested + {r})
  {
    assert s.queue + [r] + [r] == s.queue + [r, r];
    assert s.requested + {r} + {r} == s.requested + {r};
  }

  /** The loop of the producer: sends every listed race that has no url, twice in the testing build. */
  function SendAll(s: State, upcoming: seq<int>, doubled: bool): State {
    if upcoming == [] then s
    else
      var n := |upcoming| - 1;
      var before := SendAll(s, upcoming[..n], doubled);
      var b := upcoming[n];
      if b in before.infos && before.infos[b].url.None? then Send(before, b, doubled) else before
  }

  lemma SendNext(s: State, upcoming: seq<int>, i: nat, doubled: bool)
    requires i < |upcoming|
    ensures var before := SendAll(s, upcoming[..i], doubled); var b := upcoming[i];
      SendAll(s, upcoming[..i + 1], doubled) ==
      if b in before.infos && before.infos[b].url.None? then Send(before, b, doubled) else before
  {
    assert upcoming[..i + 1][..i] == upcoming[..i];
  }

  function Tick(s: State, rows: seq<int>, doubled: bool): State {
    SendAll(s, StartingBefore(s, rows, s.clock + s.lead), doubled)
  }

  /** `learn_about_bri`; refused if the slug is known for another race. */
  function Learn(slugs: map<string, int>, slug: string, b: int): Option<map<string, int>> {
    if slug in slugs && slugs[slug] != b then None else Some(slugs[slug := b])
  }

  /** One round of the receive loop. */
  function Consume(base: string, s: State, outcome: Outcome): State {
    if s.queue == [] then s
    else
      var b := s.queue[0].bri;
      var popped := s.(queue := s.queue[1..]);
      if b !in s.infos || s.infos[b].url.Some? then popped
      else match outcome
        case CreateFails => popped
        case SaveFails(slug) => popped.(rooms := s.rooms + [Room(slug, b, s.infos[b].scheduling, false)])
        case Opened(slug) =>
          var learned := Learn(s.slugs, slug, b);
          popped.(rooms := s.rooms + [Room(slug, b, s.infos[b].scheduling, true)],
                  infos := s.infos[b := s.infos[b].(url := Some(UrlFromSlug(base, slug)))],
                  slugs := if learned.Some? then learned.value else s.slugs)
  }

  function Reschedule(s: State, b: int, when: int): State {
    var info := InfoOf(s, b);
    if info.finished then s
    else s.(infos := s.infos[b := Info(Some(when), None, false, info.scheduling + 1, false)])
  }

  /** The scanner stores the url of the race it found, and the race is finished. */
  function Attach(s: State, b: int, url: string): State {
    if b !in s.infos then s
    else s.(infos := s.infos[b := s.infos[b].(url := Some(url), finished := true, attached := true)])
  }

  function Report(s: State, b: int): State {
    s.(infos := s.infos[b := InfoOf(s, b).(finished := true)])
  }

  /** An info row is created for a race that has none. */
  function Touch(s: State, b: int): State {
    s.(infos := s.infos[b := InfoOf(s, b)])
  }

  /** The slug that a restart learns for a race, if any. */
  function RelearnedSlug(base: string, info: Info): Option<string> {
    if info.finished || info.url.None? then None else SlugFromUrl(base, info.url.value)
  }

  /** Learning the unfinished races again, in the order of the query. */
  function Relearn(base: string, s: State, order: seq<int>): map<string, int> {
    if order == [] then map[]
    else
      var n := |order| - 1;
      var before := Relearn(base, s, order[..n]);
      if order[n] !in s.infos then before
      else match RelearnedSlug(base, s.infos[order[n]])
        case None => before
        case Some(slug) =>
          var learned := Learn(before, slug, order[n]);
          if learned.Some? then learned.value else before
  }

  datatype Step =
    | StepWait(until: int)
    | StepTick(rows: seq<int>, doubled: bool)
    | StepConsume(outcome: Outcome)
    | StepReschedule(bri: int, when: int)
    | StepAttach(bri: int, url: string)
    | StepReport(bri: int)
    | StepTouch(bri: int)
    | StepForget(slug: string)
    | StepRestart(order: seq<int>)

  function Apply(base: string, s: State, step: Step): State {
    match step
    case StepWait(until) => s.(clock := until)
    case StepTick(rows, doubled) => Tick(s, rows, doubled)
    case StepConsume(outcome) => Consume(base, s, outcome)
    case StepReschedule(b, when) => Reschedule(s, b, when)
    case StepAttach(b, url) => Attach(s, b, url)
    case StepReport(b) => Report(s, b)
    case StepTouch(b) => Touch(s, b)
    case StepForget(slug) => s.(slugs := s.slugs - {slug})
    case StepRestart(order) => s.(slugs := Relearn(base, s, order), queue := [])
  }

  /** The site gives every room a proper slug of its own. */
  predicate Fresh(s: State, slug: string) {
    ProperSlug(slug) && forall r | r in s.rooms :: r.slug != slug
  }

  /** Time does not run backwards, and the site answers with a fresh slug. */
  predicate Enabled(s: State, step: Step) {
    && (step.StepConsume? && !step.outcome.CreateFails? ==> Fresh(s, step.outcome.slug))
    && (step.StepWait? ==> step.until >= s.clock)
  }

  function Start(clock: int, lead: int): State {
    State(map[], [], [], map[], {}, clock, lead)
  }

  ghost predicate IsStep(base: string, steps: seq<Step>, states: seq<State>, i: nat)
    requires |states| == |steps| + 1 && i < |steps|
  {
    Enabled(states[i], steps[i]) && states[i + 1] == Apply(base, states[i], steps[i])
  }

  ghost predicate IsRun(base: string, steps: seq<Step>, states: seq<State>) {
    && |states| == |steps| + 1
    && states[0] == Start(states[0].clock, states[0].lead)
    && forall i: nat | i < |steps| :: IsStep(base, steps, states, i)
  }

  // ----- the invariant

  predicate SavedFor(r: Room, b: int, scheduling: nat) {
    r.bri == b && r.scheduling == scheduling && r.saved
  }

  /** The current scheduling of the race has a room whose url was stored. */
  predicate HasRoom(s: State, b: int) {
    exists r | r in s.rooms :: SavedFor(r, b, InfoOf(s, b).scheduling)
  }

  predicate OfScheduling(r: Room, b: int, scheduling: nat) {
    r.bri == b && r.scheduling == scheduling
  }

  /** Slugs are unique, and after a saved room no other is opened for its scheduling. */
  predicate RoomsOk(s: State) {
    && (forall i | 0 <= i < |s.rooms| ::
          && s.rooms[i].scheduling <= InfoOf(s, s.rooms[i].bri).scheduling && ProperSlug(s.rooms[i].slug))
    && (forall i, j | 0 <= i < j < |s.rooms| :: s.rooms[i].slug != s.rooms[j].slug)
    && (forall i, j | 0 <= i < j < |s.rooms| && s.rooms[i].saved ::
          !OfScheduling(s.rooms[j], s.rooms[i].bri, s.rooms[i].scheduling))
  }

  /** A stored url is that of the current scheduling's room, or the scanner's. */
  predicate UrlOk(base: string, s: State, b: int) {
    var info := InfoOf(s, b);
    && (info.attached ==> info.finished && info.url.Some?)
    && (info.url.None? ==> !HasRoom(s, b))
    && (info.url.Some? && !info.attached ==>
          exists r | r in s.rooms :: SavedFor(r, b, info.scheduling) && info.url.value == UrlFromSlug(base, r.slug))
  }

  predicate SlugsOk(s: State) {
    forall slug | slug in s.slugs :: exists r | r in s.rooms :: r.slug == slug && r.bri == s.slugs[slug]
  }

  ghost predicate Inv(base: string, s: State) {
    RoomsOk(s) && (forall b :: UrlOk(base, s, b)) && SlugsOk(s)
  }

  lemma {:induction false} SendAllOnlyQueues(s: State, upcoming: seq<int>, doubled: bool)
    ensures var after := SendAll(s, upcoming, doubled);
      after == s.(queue := after.queue, requested := after.requested)
  {
    if upcoming != [] {
      SendAllOnlyQueues(s, upcoming[..|upcoming| - 1], doubled);
    }
  }

  lemma SameRoomsKeepInv(base: string, s: State, after: State)
    requires Inv(base, s)
    requires after.rooms == s.rooms && after.infos == s.infos && SlugsOk(after)
    ensures Inv(base, after)
  {
    forall b
      ensures UrlOk(base, after, b)
    {
      assert UrlOk(base, s, b);
    }
  }

  /** A change to one race that opens no room and either keeps its scheduling or starts a new one. */
  lemma InfoChangeKeepsInv(base: string, s: State, after: State, b: int)
    requires Inv(base, s)
    requires after.rooms == s.rooms && after.slugs == s.slugs
    requires b in after.infos && after.infos == s.infos[b := after.infos[b]]
    requires InfoOf(after, b).scheduling >= InfoOf(s, b).scheduling
    requires UrlOk(base, after, b)
    ensures Inv(base, after)
  {
    forall c
      ensures UrlOk(base, after, c)
    {
      assert UrlOk(base, s, c);
    }
  }

  lemma OpenKeepsInv(base: string, s: State, slug: string, saved: bool)
    requires Inv(base, s) && Fresh(s, slug) && s.queue != []
    requires s.queue[0].bri in s.infos && s.infos[s.queue[0].bri].url.None?
    ensures Inv(base, Consume(base, s, if saved then Opened(slug) else SaveFails(slug)))
  {
    var b := s.queue[0].bri;
    var after := Consume(base, s, if saved then Opened(slug) else SaveFails(slug));
    var room := Room(slug, b, s.infos[b].scheduling, saved);
    assert UrlOk(base, s, b);
    assert after.rooms[|s.rooms|] == room;
    assert forall r | r in s.rooms :: r in after.rooms;
    assert slug !in s.slugs;
    forall c
      ensures UrlOk(base, after, c)
    {
      assert UrlOk(base, s, c);
      assert c == b && saved ==> SavedFor(room, b, after.infos[b].scheduling);
    }
    OpenKeepsRooms(base, s, after, room);
  }

  lemma OpenKeepsRooms(base: string, s: State, after: State, room: Room)
    requires RoomsOk(s) && Fresh(s, room.slug) && after.rooms == s.rooms + [room]
    requires forall c :: InfoOf(after, c).scheduling == InfoOf(s, c).scheduling
    requires room.scheduling == InfoOf(s, room.bri).scheduling && !HasRoom(s, room.bri)
    ensures RoomsOk(after)
  {
    forall i, j | 0 <= i < j < |after.rooms| && after.rooms[i].saved
      ensures !OfScheduling(after.rooms[j], after.rooms[i].bri, after.rooms[i].scheduling)
    {
      assert after.rooms[i] in s.rooms;
      assert j == |s.rooms| ==> !SavedFor(after.rooms[i], room.bri, room.scheduling);
    }
  }

  lemma {:induction false} RelearnedAreRooms(base: string, s: State, order: seq<int>, slug: string)
    requires Inv(base, s) && slug in Relearn(base, s, order)
    ensures var b := Relearn(base, s, order)[slug];
      b in order && b in s.infos && RelearnedSlug(base, s.infos[b]) == Some(slug)
      && exists r | r in s.rooms :: SavedFor(r, b, s.infos[b].scheduling) && r.slug == slug
  {
    var n := |order| - 1;
    var b := Relearn(base, s, order)[slug];
    assert order == order[..n] + [order[n]];
    if slug in Relearn(base, s, order[..n]) && Relearn(base, s, order[..n])[slug] == b {
      RelearnedAreRooms(base, s, order[..n], slug);
    } else {
      RelearnsRoom(base, s, b, slug);
    }
  }

  /** An unfinished race whose url names a slug has a room of that slug. */
  lemma RelearnsRoom(base: string, s: State, b: int, slug: string)
    requires Inv(base, s) && b in s.infos && RelearnedSlug(base, s.infos[b]) == Some(slug)
    ensures exists r | r in s.rooms :: SavedFor(r, b, s.infos[b].scheduling) && r.slug == slug
  {
    assert UrlOk(base, s, b);
    var r :| r in s.rooms && SavedFor(r, b, s.infos[b].scheduling) && s.infos[b].url.value == UrlFromSlug(base, r.slug);
    var i :| 0 <= i < |s.rooms| && s.rooms[i] == r;
    SlugRoundTrip(base, r.slug);
  }

  lemma StepKeepsInv(base: string, s: State, step: Step)
    requires Inv(base, s) && Enabled(s, step)
    ensures Inv(base, Apply(base, s, step))
  {
    var after := Apply(base, s, step);
    match step
    case StepWait(until) =>
      SameRoomsKeepInv(base, s, after);
    case StepTick(rows, doubled) =>
      SendAllOnlyQueues(s, StartingBefore(s, rows, s.clock + s.lead), doubled);
      SameRoomsKeepInv(base, s, after);
    case StepConsume(outcome) =>
      if s.queue == [] || s.queue[0].bri !in s.infos || s.infos[s.queue[0].bri].url.Some? || outcome.CreateFails? {
        SameRoomsKeepInv(base, s, after);
      } else {
        OpenKeepsInv(base, s, outcome.slug, outcome.Opened?);
      }
    case StepReschedule(b, when) =>
      if !InfoOf(s, b).finished {
        RescheduleClears(base, s, b, when);
        InfoChangeKeepsInv(base, s, after, b);
      }
    case StepAttach(b, url) =>
      if b in s.infos {
        InfoChangeKeepsInv(base, s, after, b);
      }
    case StepReport(b) =>
      assert UrlOk(base, s, b);
      InfoChangeKeepsInv(base, s, after, b);
    case StepTouch(b) =>
      assert UrlOk(base, s, b);
      InfoChangeKeepsInv(base, s, after, b);
    case StepForget(slug) =>
      SameRoomsKeepInv(base, s, after);
    case StepRestart(order) =>
      forall slug | slug in after.slugs
        ensures exists r | r in after.rooms :: r.slug == slug && r.bri == after.slugs[slug]
      {
        RelearnedAreRooms(base, s, order, slug);
      }
      SameRoomsKeepInv(base, s, after);
  }

  lemma RescheduleClears(base: string, s: State, b: int, when: int)
    requires Inv(base, s) && !InfoOf(s, b).finished
    ensures UrlOk(base, Reschedule(s, b, when), b)
  {
    forall r | r in s.rooms
      ensures !SavedFor(r, b, InfoOf(s, b).scheduling + 1)
    {
      var i :| 0 <= i < |s.rooms| && s.rooms[i] == r;
    }
  }

  // ----- the waiting requests

  /** A request was sent for the current scheduling or an earlier one; if for the current one, then its
      start was before the lead time. */
  predicate RequestedOk(s: State) {
    forall r | r in s.requested ::
      && r.bri in s.infos && r.scheduling <= s.infos[r.bri].scheduling
      && (r.scheduling == s.infos[r.bri].scheduling ==>
            s.infos[r.bri].scheduledFor.Some? && s.infos[r.bri].scheduledFor.value < s.clock + s.lead)
  }

  /** The requests of a race wait in the order of its schedulings. */
  predicate InOrder(queue: seq<Request>) {
    forall i, j | 0 <= i < j < |queue| && queue[i].bri == queue[j].bri :: queue[i].scheduling <= queue[j].scheduling
  }

  /** If an old request of a race is still waiting, then so is every newer one that was sent. */
  predicate NewerWait(queue: seq<Request>, requested: set<Request>) {
    forall r, newer | r in queue && newer in requested && r.bri == newer.bri && r.scheduling < newer.scheduling ::
      newer in queue
  }

  predicate QueueOk(s: State) {
    && RequestedOk(s)
    && (forall r | r in s.queue :: r in s.requested)
    && InOrder(s.queue) && NewerWait(s.queue, s.requested)
  }

  lemma SendKeepsQueue(s: State, b: int, doubled: bool)
    requires QueueOk(s) && StartsBefore(s, b, s.clock + s.lead)
    ensures QueueOk(Send(s, b, doubled))
  {
    var r, after := Request(b, s.infos[b].scheduling), Send(s, b, doubled);
    assert forall i | 0 <= i < |after.queue| :: if i < |s.queue| then after.queue[i] == s.queue[i] else after.queue[i] == r;
    assert forall i | 0 <= i < |s.queue| :: s.queue[i] in s.queue;
  }

  lemma {:induction false} SendAllKeepsQueue(s: State, upcoming: seq<int>, doubled: bool)
    requires QueueOk(s) && forall b | b in upcoming :: StartsBefore(s, b, s.clock + s.lead)
    ensures QueueOk(SendAll(s, upcoming, doubled))
  {
    if upcoming != [] {
      var n := |upcoming| - 1;
      assert upcoming[n] in upcoming;
      assert forall b | b in upcoming[..n] :: b in upcoming;
      SendAllKeepsQueue(s, upcoming[..n], doubled);
      SendAllOnlyQueues(s, upcoming[..n], doubled);
      var before := SendAll(s, upcoming[..n], doubled);
      if before.infos[upcoming[n]].url.None? {
        SendKeepsQueue(before, upcoming[n], doubled);
      }
    }
  }

  lemma PopKeepsWaiting(queue: seq<Request>, requested: set<Request>)
    requires InOrder(queue) && NewerWait(queue, requested) && queue != []
    ensures InOrder(queue[1..]) && NewerWait(queue[1..], requested)
  {
    var rest := queue[1..];
    assert queue == [queue[0]] + rest;
    forall r, newer | r in rest && newer in requested && r.bri == newer.bri && r.scheduling < newer.scheduling
      ensures newer in rest
    {
      var i :| 0 <= i < |rest| && rest[i] == r;
      assert r == queue[i + 1] && r in queue;
    }
  }

  lemma ConsumeKeepsQueue(base: string, s: State, outcome: Outcome)
    requires QueueOk(s)
    ensures QueueOk(Consume(base, s, outcome))
  {
    if s.queue != [] {
      PopKeepsWaiting(s.queue, s.requested);
    }
  }

  lemma RescheduleKeepsQueue(s: State, b: int, when: int)
    requires QueueOk(s)
    ensures QueueOk(Reschedule(s, b, when))
  {
  }

  lemma StepKeepsQueue(base: string, s: State, step: Step)
    requires QueueOk(s) && Enabled(s, step)
    ensures QueueOk(Apply(base, s, step))
  {
    match step
    case StepTick(rows, doubled) =>
      SendAllKeepsQueue(s, StartingBefore(s, rows, s.clock + s.lead), doubled);
    case StepConsume(outcome) => ConsumeKeepsQueue(base, s, outcome);
    case StepWait(_) =>
    case StepReschedule(b, when) => RescheduleKeepsQueue(s, b, when);
    case StepAttach(_, _) =>
    case StepReport(_) =>
    case StepTouch(_) =>
    case StepForget(_) =>
    case StepRestart(_) =>
  }

  // ----- every run

  lemma {:induction false} RunKeepsInv(base: string, steps: seq<Step>, states: seq<State>, i: nat)
    requires IsRun(base, steps, states) && i < |states|
    ensures Inv(base, states[i]) && QueueOk(states[i])
  {
    if i > 0 {
      RunKeepsInv(base, steps, states, i - 1);
      assert IsStep(base, steps, states, i - 1);
      StepKeepsInv(base, states[i - 1], steps[i - 1]);
      StepKeepsQueue(base, states[i - 1], steps[i - 1]);
    }
  }

  // ----- how many rooms are opened

  /** Over every run, whatever fails: of several rooms opened for one scheduling, storing the url failed
      for all but the last. */
  lemma OnlyLastRoomIsSaved(base: string, steps: seq<Step>, states: seq<State>, i: nat)
    requires IsRun(base, steps, states) && i < |states|
    ensures var rooms := states[i].rooms;
      forall j, k | 0 <= j < k < |rooms| && OfScheduling(rooms[k], rooms[j].bri, rooms[j].scheduling) :: !rooms[j].saved
  {
    RunKeepsInv(base, steps, states, i);
  }

  /** Over every run at most one room is opened for a scheduling, if storing the url failed for none of
      the rooms of just this scheduling. */
  lemma OneRoomPerScheduling(base: string, steps: seq<Step>, states: seq<State>, i: nat, b: int, scheduling: nat)
    requires IsRun(base, steps, states) && i < |states|
    requires forall r | r in states[i].rooms && OfScheduling(r, b, scheduling) :: r.saved
    ensures var rooms := states[i].rooms;
      forall j, k | 0 <= j < k < |rooms| :: !(OfScheduling(rooms[j], b, scheduling) && OfScheduling(rooms[k], b, scheduling))
  {
    OnlyLastRoomIsSaved(base, steps, states, i);
    assert forall j | 0 <= j < |states[i].rooms| :: states[i].rooms[j] in states[i].rooms;
  }

  /** The step opens a room. */
  predicate Opens(s: State, outcome: Outcome) {
    s.queue != [] && s.queue[0].bri in s.infos && s.infos[s.queue[0].bri].url.None? && !outcome.CreateFails?
  }

  /** A consumer step opens a room for a scheduling that has one already exactly when it opens a room
      and storing the url of an earlier room of that scheduling failed. */
  lemma SecondRoomIff(base: string, s: State, outcome: Outcome)
    requires Inv(base, s) && s.queue != []
    ensures var b := s.queue[0].bri; var after := Consume(base, s, outcome);
      && (|after.rooms| == |s.rooms| + 1 <==> Opens(s, outcome))
      && ((|after.rooms| == |s.rooms| + 1
           && exists r | r in s.rooms :: OfScheduling(r, after.rooms[|s.rooms|].bri, after.rooms[|s.rooms|].scheduling)) <==>
          Opens(s, outcome) && exists r | r in s.rooms :: OfScheduling(r, b, s.infos[b].scheduling) && !r.saved)
  {
    var b := s.queue[0].bri;
    assert UrlOk(base, s, b);
    if Opens(s, outcome) {
      assert !HasRoom(s, b);
      forall r | r in s.rooms && OfScheduling(r, b, s.infos[b].scheduling)
        ensures !r.saved
      {
        assert !SavedFor(r, b, InfoOf(s, b).scheduling);
      }
    }
  }

  // ----- what a tick asks for

  /** The request is for the current scheduling of an unfinished race that starts before the lead time
      and has no url. */
  predicate IsDue(s: State, r: Request) {
    && r.bri in s.infos
    && var info := s.infos[r.bri];
       && !info.finished && info.url.None? && r.scheduling == info.scheduling
       && info.scheduledFor.Some? && info.scheduledFor.value < s.clock + s.lead
  }

  function Copies(n: nat, doubled: bool): nat {
    if doubled then n + n else n
  }

  lemma {:induction false} FoundAsOften(s: State, rows: seq<int>, when: int, b: int)
    ensures multiset(StartingBefore(s, rows, when))[b] == if StartsBefore(s, b, when) then multiset(rows)[b] else 0
  {
    if rows != [] {
      FoundAsOften(s, rows[1..], when, b);
      assert rows == [rows[0]] + rows[1..];
    }
  }

  lemma {:induction false} SentAsOften(s: State, upcoming: seq<int>, doubled: bool, r: Request)
    requires forall b | b in upcoming :: b in s.infos
    ensures s.queue <= SendAll(s, upcoming, doubled).queue
    ensures multiset(SendAll(s, upcoming, doubled).queue)[r] == multiset(s.queue)[r] +
      if r.bri in s.infos && s.infos[r.bri].url.None? && r.scheduling == s.infos[r.bri].scheduling
      then Copies(multiset(upcoming)[r.bri], doubled) else 0
  {
    if upcoming != [] {
      var n := |upcoming| - 1;
      assert upcoming == upcoming[..n] + [upcoming[n]];
      SentAsOften(s, upcoming[..n], doubled, r);
      SendAllOnlyQueues(s, upcoming[..n], doubled);
      SentOnce(SendAll(s, upcoming[..n], doubled), upcoming[n], doubled, r);
      assert multiset(upcoming)[r.bri] == multiset(upcoming[..n])[r.bri] + if upcoming[n] == r.bri then 1 else 0;
    }
  }

  lemma SentOnce(s: State, b: int, doubled: bool, r: Request)
    requires b in s.infos
    ensures multiset(Send(s, b, doubled).queue)[r] == multiset(s.queue)[r] +
      if r == Request(b, s.infos[b].scheduling) then Copies(1, doubled) else 0
  {
  }

  /** A tick puts exactly the due requests behind those that wait: once for each listing of the race,
      twice in the testing build. */
  lemma TickSendsExactly(s: State, rows: seq<int>, doubled: bool, r: Request)
    ensures s.queue <= Tick(s, rows, doubled).queue
    ensures multiset(Tick(s, rows, doubled).queue)[r] == multiset(s.queue)[r] +
      if IsDue(s, r) then Copies(multiset(rows)[r.bri], doubled) else 0
  {
    var found := FoundForTick(s, rows, doubled, r.bri);
    SentIfDue(s, rows, found, doubled, r);
  }

  lemma FoundForTick(s: State, rows: seq<int>, doubled: bool, b: int) returns (found: seq<int>)
    ensures Tick(s, rows, doubled) == SendAll(s, found, doubled) && forall x | x in found :: x in s.infos
    ensures multiset(found)[b] == if StartsBefore(s, b, s.clock + s.lead) then multiset(rows)[b] else 0
  {
    found := StartingBefore(s, rows, s.clock + s.lead);
    FoundAsOften(s, rows, s.clock + s.lead, b);
  }

  lemma SentIfDue(s: State, rows: seq<int>, found: seq<int>, doubled: bool, r: Request)
    requires forall b | b in found :: b in s.infos
    requires multiset(found)[r.bri] == if StartsBefore(s, r.bri, s.clock + s.lead) then multiset(rows)[r.bri] else 0
    ensures s.queue <= SendAll(s, found, doubled).queue
    ensures multiset(SendAll(s, found, doubled).queue)[r] == multiset(s.queue)[r] +
      if IsDue(s, r) then Copies(multiset(rows)[r.bri], doubled) else 0
  {
    SentAsOften(s, found, doubled, r);
    DueIff(s, r);
  }

  lemma DueIff(s: State, r: Request)
    ensures IsDue(s, r) <==>
      StartsBefore(s, r.bri, s.clock + s.lead) && s.infos[r.bri].url.None? && r.scheduling == s.infos[r.bri].scheduling
  {
  }

  /** Step `k` was a tick that sent the request, and the bot was not restarted up to `i`. */
  ghost predicate SentSince(steps: seq<Step>, states: seq<State>, k: nat, i: nat, r: Request)
    requires |states| == |steps| + 1 && k < i < |states|
  {
    && steps[k].StepTick? && r.bri in steps[k].rows && IsDue(states[k], r)
    && forall m | k < m < i :: !steps[m].StepRestart?
  }

  /** Over every run: what waits was sent by a tick at which it was due, and the bot was not restarted
      since. */
  lemma {:induction false} WaitingWasDue(base: string, steps: seq<Step>, states: seq<State>, i: nat, r: Request)
    requires IsRun(base, steps, states) && i < |states| && r in states[i].queue
    ensures exists k: nat | k < i :: SentSince(steps, states, k, i, r)
  {
    if i > 0 {
      var was, step := states[i - 1], steps[i - 1];
      assert IsStep(base, steps, states, i - 1);
      if r in was.queue && !step.StepRestart? {
        WaitingWasDue(base, steps, states, i - 1, r);
        var k: nat :| k < i - 1 && SentSince(steps, states, k, i - 1, r);
        assert SentSince(steps, states, k, i, r);
      } else {
        StepSends(base, was, step, r);
        assert SentSince(steps, states, i - 1, i, r);
      }
    }
  }

  lemma StepSends(base: string, s: State, step: Step, r: Request)
    requires r in Apply(base, s, step).queue && (r !in s.queue || step.StepRestart?)
    ensures step.StepTick? && r.bri in step.rows && IsDue(s, r)
  {
    if step.StepTick? {
      TickSendsExactly(s, step.rows, step.doubled, r);
    }
  }

  // ----- when rooms are opened

  /** The race was rescheduled in the first `i` steps after the request was sent. */
  ghost predicate RescheduledSince(steps: seq<Step>, states: seq<State>, i: nat, r: Request)
    requires |states| == |steps| + 1 && i < |states|
  {
    exists k | 0 <= k < i ::
      steps[k].StepReschedule? && steps[k].bri == r.bri && !InfoOf(states[k], r.bri).finished && r in states[k].requested
  }

  /** No step lowers the number of a scheduling, only rescheduling raises it, and a request is always
      sent for the current scheduling. */
  lemma StepSchedulings(base: string, s: State, step: Step, b: int)
    ensures var after := Apply(base, s, step); var was, now := InfoOf(s, b).scheduling, InfoOf(after, b).scheduling;
      && now == (if step.StepReschedule? && step.bri == b && !InfoOf(s, b).finished then was + 1 else was)
      && s.requested <= after.requested
      && (forall r | r in after.requested && r !in s.requested && r.bri == b :: r.scheduling == now)
  {
    if step.StepTick? {
      var upcoming := StartingBefore(s, step.rows, s.clock + s.lead);
      SendAllOnlyQueues(s, upcoming, step.doubled);
      SendsAreCurrent(s, upcoming, step.doubled, b);
    }
  }

  lemma {:induction false} SendsAreCurrent(s: State, upcoming: seq<int>, doubled: bool, b: int)
    ensures var after := SendAll(s, upcoming, doubled);
      && s.requested <= after.requested
      && (forall r | r in after.requested && r !in s.requested && r.bri == b :: r.scheduling == InfoOf(s, b).scheduling)
  {
    if upcoming != [] {
      SendsAreCurrent(s, upcoming[..|upcoming| - 1], doubled, b);
      SendAllOnlyQueues(s, upcoming[..|upcoming| - 1], doubled);
    }
  }

  /** Over every run: a request is older than the current scheduling exactly when its race was
      rescheduled since it was sent. */
  lemma {:induction false} OlderIffRescheduled(base: string, steps: seq<Step>, states: seq<State>, i: nat, r: Request)
    requires IsRun(base, steps, states) && i < |states| && r in states[i].requested
    ensures r.scheduling < InfoOf(states[i], r.bri).scheduling <==> RescheduledSince(steps, states, i, r)
  {
    if i > 0 {
      if r in states[i - 1].requested {
        OlderIffRescheduled(base, steps, states, i - 1, r);
        RequestGrowsOlder(base, steps, states, i - 1, r);
      } else {
        NewRequestIsCurrent(base, steps, states, i - 1, r);
      }
    }
  }

  lemma RequestGrowsOlder(base: string, steps: seq<Step>, states: seq<State>, i: nat, r: Request)
    requires IsRun(base, steps, states) && i < |steps| && r in states[i].requested
    requires r.scheduling < InfoOf(states[i], r.bri).scheduling <==> RescheduledSince(steps, states, i, r)
    ensures r.scheduling < InfoOf(states[i + 1], r.bri).scheduling <==> RescheduledSince(steps, states, i + 1, r)
  {
    assert IsStep(base, steps, states, i);
    StepSchedulings(base, states[i], steps[i], r.bri);
    RequestsAreNotNewer(base, steps, states, i, r);
    OneMoreStep(steps, states, i, r);
  }

  lemma NewRequestIsCurrent(base: string, steps: seq<Step>, states: seq<State>, i: nat, r: Request)
    requires IsRun(base, steps, states) && i < |steps| && r !in states[i].requested && r in states[i + 1].requested
    ensures r.scheduling == InfoOf(states[i + 1], r.bri).scheduling && !RescheduledSince(steps, states, i + 1, r)
  {
    assert IsStep(base, steps, states, i);
    StepSchedulings(base, states[i], steps[i], r.bri);
    NotYetRequested(base, steps, states, i, r);
  }

  lemma RequestsAreNotNewer(base: string, steps: seq<Step>, states: seq<State>, i: nat, r: Request)
    requires IsRun(base, steps, states) && i < |states| && r in states[i].requested
    ensures r.scheduling <= InfoOf(states[i], r.bri).scheduling
  {
    RunKeepsInv(base, steps, states, i);
  }

  lemma OneMoreStep(steps: seq<Step>, states: seq<State>, i: nat, r: Request)
    requires |states| == |steps| + 1 && i < |steps|
    ensures RescheduledSince(steps, states, i + 1, r) <==>
      || RescheduledSince(steps, states, i, r)
      || (steps[i].StepReschedule? && steps[i].bri == r.bri && !InfoOf(states[i], r.bri).finished && r in states[i].requested)
  {
  }

  /** A request that is not there yet was not there before. */
  lemma {:induction false} NotYetRequested(base: string, steps: seq<Step>, states: seq<State>, i: nat, r: Request)
    requires IsRun(base, steps, states) && i < |states| && r !in states[i].requested
    ensures forall k | 0 <= k <= i :: r !in states[k].requested
  {
    if i > 0 {
      assert IsStep(base, steps, states, i - 1);
      StepSchedulings(base, states[i - 1], steps[i - 1], r.bri);
      NotYetRequested(base, steps, states, i - 1, r);
    }
  }

  /** Over every run: a consumer step opens a room for a scheduling that no tick has asked for exactly
      when the race was rescheduled after each of its waiting requests was sent. */
  lemma UnrequestedRoomIff(base: string, steps: seq<Step>, states: seq<State>, i: nat, outcome: Outcome)
    requires IsRun(base, steps, states) && i < |states| && Opens(states[i], outcome)
    ensures var s := states[i]; var b := s.queue[0].bri;
      Request(b, s.infos[b].scheduling) !in s.requested <==>
      forall r | r in s.queue && r.bri == b :: RescheduledSince(steps, states, i, r)
  {
    var s := states[i];
    var head := s.queue[0];
    var current := Request(head.bri, s.infos[head.bri].scheduling);
    RunKeepsInv(base, steps, states, i);
    forall r | r in s.queue && r.bri == head.bri
      ensures RescheduledSince(steps, states, i, r) <==> r.scheduling < current.scheduling
    {
      OlderIffRescheduled(base, steps, states, i, r);
    }
    assert head in s.queue;
    if current in s.requested && head.scheduling < current.scheduling {
      assert current in s.queue;
    }
  }

  /** Over every run: a room that is opened earlier than the lead time before the start is one that no
      tick has asked for, and its race was rescheduled after each of its waiting requests was sent. */
  lemma EarlyRoomIsStale(base: string, steps: seq<Step>, states: seq<State>, i: nat, outcome: Outcome)
    requires IsRun(base, steps, states) && i < |states| && Opens(states[i], outcome)
    requires var s := states[i]; var when := s.infos[s.queue[0].bri].scheduledFor;
      when.Some? && when.value >= s.clock + s.lead
    ensures var s := states[i]; var b := s.queue[0].bri;
      && Request(b, s.infos[b].scheduling) !in s.requested
      && forall r | r in s.queue && r.bri == b :: RescheduledSince(steps, states, i, r)
  {
    RunKeepsInv(base, steps, states, i);
    UnrequestedRoomIff(base, steps, states, i, outcome);
  }

  lemma OneSavedRoom(s: State, r: Room, x: Room, b: int, scheduling: nat)
    requires RoomsOk(s) && r in s.rooms && x in s.rooms && SavedFor(r, b, scheduling) && SavedFor(x, b, scheduling)
    ensures r == x
  {
    var j :| 0 <= j < |s.rooms| && s.rooms[j] == r;
    var k :| 0 <= k < |s.rooms| && s.rooms[k] == x;
  }

  /** Over every run, an unfinished race has a url exactly when its current scheduling has a room,
      and then it is the url of that room. */
  lemma UrlIffRoom(base: string, steps: seq<Step>, states: seq<State>, i: nat, b: int)
    requires IsRun(base, steps, states) && i < |states| && !InfoOf(states[i], b).finished
    ensures var s := states[i]; var info := InfoOf(s, b);
      && (info.url.Some? <==> HasRoom(s, b))
      && (forall r | r in s.rooms && SavedFor(r, b, info.scheduling) :: info.url == Some(UrlFromSlug(base, r.slug)))
  {
    RunKeepsInv(base, steps, states, i);
    UrlIffRoomNow(base, states[i], b);
  }

  lemma UrlIffRoomNow(base: string, s: State, b: int)
    requires Inv(base, s) && !InfoOf(s, b).finished
    ensures var info := InfoOf(s, b);
      && (info.url.Some? <==> HasRoom(s, b))
      && (forall r | r in s.rooms && SavedFor(r, b, info.scheduling) :: info.url == Some(UrlFromSlug(base, r.slug)))
  {
    assert UrlOk(base, s, b);
    forall r | r in s.rooms && SavedFor(r, b, InfoOf(s, b).scheduling)
      ensures InfoOf(s, b).url == Some(UrlFromSlug(base, r.slug))
    {
      var x :| x in s.rooms && SavedFor(x, b, InfoOf(s, b).scheduling) && InfoOf(s, b).url.value == UrlFromSlug(base, x.slug);
      OneSavedRoom(s, r, x, b, InfoOf(s, b).scheduling);
    }
  }

  /** A new room's slug is never refused as one that belongs to another race. */
  lemma LearningNeverConflicts(base: string, s: State, slug: string, b: int)
    requires Inv(base, s) && Fresh(s, slug)
    ensures slug !in s.slugs && Learn(s.slugs, slug, b).Some?
  {
    assert slug in s.slugs ==> exists r | r in s.rooms :: r.slug == slug;
  }

  /** The site tells of a room by its slug: the bot handles the room as that race's. */
  predicate Knows(s: State, slug: string, b: int) {
    slug in s.slugs && s.slugs[slug] == b
  }

  /** A consumer step that opens a room and stores its url makes exactly that room known, under its race,
      besides those that were known. */
  lemma OpenedIsKnown(base: string, s: State, slug: string)
    requires Inv(base, s) && Fresh(s, slug) && Opens(s, Opened(slug))
    ensures slug !in s.slugs && Consume(base, s, Opened(slug)).slugs == s.slugs[slug := s.queue[0].bri]
  {
    LearningNeverConflicts(base, s, slug, s.queue[0].bri);
  }

  /** The step to `after` opened a room for the race and stored its url. */
  predicate SavedNow(s: State, after: State, slug: string, b: int) {
    var n := |s.rooms|;
    |after.rooms| == n + 1 && after.rooms[n].slug == slug && after.rooms[n].bri == b && after.rooms[n].saved
  }

  /** The step restarts the bot, and the race is listed, unfinished and has a saved room of that slug. */
  predicate RelearnedNow(s: State, step: Step, slug: string, b: int) {
    && step.StepRestart? && b in step.order && b in s.infos && !s.infos[b].finished
    && exists r | r in s.rooms :: SavedFor(r, b, s.infos[b].scheduling) && r.slug == slug
  }

  predicate ForgottenBy(step: Step, slug: string) {
    step.StepRestart? || step == StepForget(slug)
  }

  lemma StepKnows(base: string, s: State, step: Step, slug: string, b: int)
    requires Inv(base, s) && Enabled(s, step)
    ensures var after := Apply(base, s, step);
      Knows(after, slug, b) <==>
        SavedNow(s, after, slug, b) || RelearnedNow(s, step, slug, b) || (Knows(s, slug, b) && !ForgottenBy(step, slug))
  {
    match step
    case StepConsume(outcome) => ConsumeKnows(base, s, outcome, slug, b);
    case StepTick(rows, doubled) => SendAllOnlyQueues(s, StartingBefore(s, rows, s.clock + s.lead), doubled);
    case StepRestart(order) => RestartRelearns(base, s, order, b, slug);
    case _ =>
  }

  lemma ConsumeKnows(base: string, s: State, outcome: Outcome, slug: string, b: int)
    requires Inv(base, s) && (!outcome.CreateFails? ==> Fresh(s, outcome.slug))
    ensures var after := Consume(base, s, outcome);
      Knows(after, slug, b) <==> SavedNow(s, after, slug, b) || Knows(s, slug, b)
  {
    if Opens(s, outcome) && outcome.Opened? {
      OpenedIsKnown(base, s, outcome.slug);
    }
  }

  /** The room became known by step `k`, and no step up to `i` forgot it. */
  ghost predicate KnownSince(steps: seq<Step>, states: seq<State>, k: nat, i: nat, slug: string, b: int)
    requires |states| == |steps| + 1 && k < i < |states|
  {
    && (SavedNow(states[k], states[k + 1], slug, b) || RelearnedNow(states[k], steps[k], slug, b))
    && forall m | k < m < i :: !ForgottenBy(steps[m], slug)
  }

  /** Over every run: the bot handles a room as that of a race exactly when some step saved it for the
      race, or a restart found it saved for the unfinished race, and since then the bot was neither told
      to forget it nor restarted. */
  lemma {:induction false} KnownExactly(base: string, steps: seq<Step>, states: seq<State>, i: nat, slug: string, b: int)
    requires IsRun(base, steps, states) && i < |states|
    ensures Knows(states[i], slug, b) <==> exists k: nat | k < i :: KnownSince(steps, states, k, i, slug, b)
  {
    if i > 0 {
      assert IsStep(base, steps, states, i - 1);
      RunKeepsInv(base, steps, states, i - 1);
      StepKnows(base, states[i - 1], steps[i - 1], slug, b);
      KnownExactly(base, steps, states, i - 1, slug, b);
      KnownOneMore(steps, states, i - 1, i, slug, b);
    }
  }

  lemma KnownOneMore(steps: seq<Step>, states: seq<State>, i: nat, next: nat, slug: string, b: int)
    requires |states| == |steps| + 1 && i < |steps| && next == i + 1
    ensures (exists k: nat | k < next :: KnownSince(steps, states, k, next, slug, b)) <==>
      || SavedNow(states[i], states[next], slug, b) || RelearnedNow(states[i], steps[i], slug, b)
      || (!ForgottenBy(steps[i], slug) && exists k: nat | k < i :: KnownSince(steps, states, k, i, slug, b))
  {
    if SavedNow(states[i], states[next], slug, b) || RelearnedNow(states[i], steps[i], slug, b) {
      assert KnownSince(steps, states, i, next, slug, b);
    } else if k: nat :| k < next && KnownSince(steps, states, k, next, slug, b) {
      assert k < i && KnownSince(steps, states, k, i, slug, b);
    } else if !ForgottenBy(steps[i], slug) {
      if k: nat :| k < i && KnownSince(steps, states, k, i, slug, b) {
        assert KnownSince(steps, states, k, next, slug, b);
      }
    }
  }

  /** After a restart exactly the rooms of the unfinished races are known again. */
  lemma {:induction false} RestartRelearns(base: string, s: State, order: seq<int>, b: int, slug: string)
    requires Inv(base, s)
    ensures slug in Relearn(base, s, order) && Relearn(base, s, order)[slug] == b <==>
      && b in order && b in s.infos && !s.infos[b].finished
      && exists r | r in s.rooms :: SavedFor(r, b, s.infos[b].scheduling) && r.slug == slug
  {
    var m := Relearn(base, s, order);
    if slug in m && m[slug] == b {
      RelearnedAreRooms(base, s, order, slug);
    }
    if b in order && b in s.infos && !s.infos[b].finished
       && exists r | r in s.rooms :: SavedFor(r, b, s.infos[b].scheduling) && r.slug == slug {
      RoomIsNamed(base, s, b, slug);
      RelearnKeeps(base, s, order, b, slug);
    }
  }

  lemma RoomIsNamed(base: string, s: State, b: int, slug: string)
    requires Inv(base, s) && b in s.infos && !s.infos[b].finished
    requires exists r | r in s.rooms :: SavedFor(r, b, s.infos[b].scheduling) && r.slug == slug
    ensures RelearnedSlug(base, s.infos[b]) == Some(slug)
  {
    assert UrlOk(base, s, b);
    var r :| r in s.rooms && SavedFor(r, b, s.infos[b].scheduling) && r.slug == slug;
    var x :| x in s.rooms && SavedFor(x, b, s.infos[b].scheduling) && s.infos[b].url.value == UrlFromSlug(base, x.slug);
    OneSavedRoom(s, r, x, b, s.infos[b].scheduling);
    SlugRoundTrip(base, slug);
  }

  lemma {:induction false} RelearnKeeps(base: string, s: State, order: seq<int>, b: int, slug: string)
    requires Inv(base, s) && b in order && b in s.infos && RelearnedSlug(base, s.infos[b]) == Some(slug)
    ensures slug in Relearn(base, s, order) && Relearn(base, s, order)[slug] == b
  {
    var n := |order| - 1;
    var before := Relearn(base, s, order[..n]);
    assert order == order[..n] + [order[n]];
    if slug in before {
      RelearnedAreRooms(base, s, order[..n], slug);
      SlugOwner(base, s, before[slug], b, slug);
    }
    if b in order[..n] {
      RelearnKeeps(base, s, order[..n], b, slug);
      if order[n] in s.infos && RelearnedSlug(base, s.infos[order[n]]) == Some(slug) {
        SlugOwner(base, s, order[n], b, slug);
      }
    }
  }

  lemma SlugOwner(base: string, s: State, a: int, b: int, slug: string)
    requires Inv(base, s) && a in s.infos && b in s.infos
    requires RelearnedSlug(base, s.infos[a]) == Some(slug) && RelearnedSlug(base, s.infos[b]) == Some(slug)
    ensures a == b
  {
    RelearnsRoom(base, s, a, slug);
    RelearnsRoom(base, s, b, slug);
    var x :| x in s.rooms && SavedFor(x, a, s.infos[a].scheduling) && x.slug == slug;
    var y :| y in s.rooms && SavedFor(y, b, s.infos[b].scheduling) && y.slug == slug;
    var j :| 0 <= j < |s.rooms| && s.rooms[j] == x;
    var k :| 0 <= k < |s.rooms| && s.rooms[k] == y;
  }

  // ----- draining the channel

  function ConsumeAll(base: string, s: State, outcomes: seq<Outcome>): State {
    if outcomes == [] then s
    else
      var n := |outcomes| - 1;
      Consume(base, ConsumeAll(base, s, outcomes[..n]), outcomes[n])
  }

  lemma {:induction false} ConsumeFirst(base: string, s: State, outcomes: seq<Outcome>)
    requires outcomes != []
    ensures ConsumeAll(base, s, outcomes) == ConsumeAll(base, Consume(base, s, outcomes[0]), outcomes[1..])
  {
    var n := |outcomes| - 1;
    if n > 0 {
      ConsumeFirst(base, s, outcomes[..n]);
      assert outcomes[..n][1..] == outcomes[1..][..n - 1];
      assert outcomes[1..][n - 1] == outcomes[n];
    } else {
      assert outcomes[..0] == [];
    }
  }

  /** One of the queued requests for the race gets its room opened, and its url stored. */
  ghost predicate OpenedFor(queue: seq<Request>, outcomes: seq<Outcome>, b: int)
    requires |outcomes| == |queue|
  {
    exists k | 0 <= k < |queue| :: queue[k].bri == b && outcomes[k].Opened?
  }

  lemma OpenedForFirst(queue: seq<Request>, outcomes: seq<Outcome>, b: int)
    requires |outcomes| == |queue| && queue != []
    ensures OpenedFor(queue, outcomes, b) <==>
      (queue[0].bri == b && outcomes[0].Opened?) || OpenedFor(queue[1..], outcomes[1..], b)
  {
    if k :| 0 <= k < |queue| && queue[k].bri == b && outcomes[k].Opened? {
      if k > 0 {
        assert queue[1..][k - 1].bri == b && outcomes[1..][k - 1].Opened?;
      }
    }
    if OpenedFor(queue[1..], outcomes[1..], b) {
      var k :| 0 <= k < |queue| - 1 && queue[1..][k].bri == b && outcomes[1..][k].Opened?;
      assert queue[k + 1].bri == b && outcomes[k + 1].Opened?;
    }
  }

  /** Once the queue is drained a race has a url exactly when it had one or a room was opened for one of
      its requests. */
  lemma {:induction false} DrainExactly(base: string, s: State, outcomes: seq<Outcome>, b: int)
    requires |outcomes| == |s.queue| && b in s.infos
    ensures var end := ConsumeAll(base, s, outcomes);
      && end.queue == [] && b in end.infos && end.infos[b].scheduling == s.infos[b].scheduling
      && (end.infos[b].url.Some? <==> s.infos[b].url.Some? || OpenedFor(s.queue, outcomes, b))
    decreases |s.queue|
  {
    if outcomes != [] {
      ConsumeFirst(base, s, outcomes);
      OpenedForFirst(s.queue, outcomes, b);
      ConsumeOne(base, s, outcomes[0], b);
      DrainExactly(base, Consume(base, s, outcomes[0]), outcomes[1..], b);
    }
  }

  lemma ConsumeOne(base: string, s: State, outcome: Outcome, b: int)
    requires s.queue != [] && b in s.infos
    ensures var after := Consume(base, s, outcome);
      && after.queue == s.queue[1..] && b in after.infos && after.infos[b].scheduling == s.infos[b].scheduling
      && (after.infos[b].url.Some? <==> s.infos[b].url.Some? || (s.queue[0].bri == b && outcome.Opened?))
  {
  }

  lemma {:induction false} SendAllSends(s: State, upcoming: seq<int>, doubled: bool, b: int)
    requires b in upcoming && b in s.infos && s.infos[b].url.None?
    ensures Request(b, s.infos[b].scheduling) in SendAll(s, upcoming, doubled).queue
  {
    var n := |upcoming| - 1;
    assert upcoming == upcoming[..n] + [upcoming[n]];
    SendAllOnlyQueues(s, upcoming[..n], doubled);
    if b in upcoming[..n] {
      SendAllSends(s, upcoming[..n], doubled, b);
    }
  }

  /** A tick asks for a room for every unfinished race of the season that starts before the lead time and
      has no url; once the queue is drained, it has one exactly when a room was opened for one of its
      requests. */
  lemma UpcomingGetRooms(base: string, s: State, rows: seq<int>, doubled: bool, outcomes: seq<Outcome>, b: int)
    requires |outcomes| == |Tick(s, rows, doubled).queue|
    requires b in rows && StartsBefore(s, b, s.clock + s.lead)
    ensures s.infos[b].url.None? ==> Request(b, s.infos[b].scheduling) in Tick(s, rows, doubled).queue
    ensures var end := ConsumeAll(base, Tick(s, rows, doubled), outcomes);
      && b in end.infos
      && (end.infos[b].url.Some? <==> s.infos[b].url.Some? || OpenedFor(Tick(s, rows, doubled).queue, outcomes, b))
  {
    var upcoming := StartingBefore(s, rows, s.clock + s.lead);
    SendAllOnlyQueues(s, upcoming, doubled);
    if s.infos[b].url.None? {
      SendAllSends(s, upcoming, doubled, b);
    }
    DrainExactly(base, Tick(s, rows, doubled), outcomes, b);
  }

  // ----- what does happen

  /** A tick over one race that is due and has no url. */
  lemma TickOne(s: State, b: int, doubled: bool)
    requires StartsBefore(s, b, s.clock + s.lead) && s.infos[b].url.None?
    ensures Tick(s, [b], doubled) == Send(s, b, doubled)
  {
    assert [b][1..] == [];
    assert StartingBefore(s, [b], s.clock + s.lead) == [b];
    assert [b][..0] == [];
    assert SendAll(s, [b][..0], doubled) == s;
  }

  /** For all times: a race that is scheduled `soon`, requested, rescheduled to `later` and only then
      consumed has its room opened before the lead time of its new start. */
  lemma EarlyRoomHappens(base: string, b: int, now: int, lead: int, soon: int, later: int, slug: string)
    returns (steps: seq<Step>, states: seq<State>)
    requires soon < now + lead <= later && ProperSlug(slug)
    ensures IsRun(base, steps, states)
    ensures var end := states[|steps|];
      && end.rooms == [Room(slug, b, 2, true)] && b in end.infos && end.infos[b].scheduling == 2
      && end.infos[b].scheduledFor == Some(later) && later >= end.clock + end.lead
  {
    var s0 := Start(now, lead);
    var s1 := Reschedule(s0, b, soon);
    var s2 := Send(s1, b, false);
    var s3 := Reschedule(s2, b, later);
    var s4 := Consume(base, s3, Opened(slug));
    TickOne(s1, b, false);
    steps := [StepReschedule(b, soon), StepTick([b], false), StepReschedule(b, later), StepConsume(Opened(slug))];
    states := [s0, s1, s2, s3, s4];
    FourSteps(base, steps, states);
  }

  /** A requested race whose first room's url is lost gets a second room for the same scheduling. */
  lemma SecondRoomHappens(base: string, b: int, now: int, lead: int, start: int, first: string, second: string)
    returns (steps: seq<Step>, states: seq<State>)
    requires start < now + lead && ProperSlug(first) && ProperSlug(second) && first != second
    ensures IsRun(base, steps, states)
    ensures states[|steps|].rooms == [Room(first, b, 1, false), Room(second, b, 1, true)]
  {
    var s0 := Start(now, lead);
    var s1 := Reschedule(s0, b, start);
    var s2 := Send(s1, b, true);
    var s3 := Consume(base, s2, SaveFails(first));
    var s4 := Consume(base, s3, Opened(second));
    TickOne(s1, b, true);
    steps := [StepReschedule(b, start), StepTick([b], true), StepConsume(SaveFails(first)), StepConsume(Opened(second))];
    states := [s0, s1, s2, s3, s4];
    FourSteps(base, steps, states);
  }

  lemma FourSteps(base: string, steps: seq<Step>, states: seq<State>)
    requires |steps| == 4 && |states| == 5 && states[0] == Start(states[0].clock, states[0].lead)
    requires IsStep(base, steps, states, 0) && IsStep(base, steps, states, 1)
    requires IsStep(base, steps, states, 2) && IsStep(base, steps, states, 3)
    ensures IsRun(base, steps, states)
  {
  }

  // ----- the loops

  class RoomKeeper {
    const base: string
    var s: State

    constructor (base: string, clock: int, lead: int)
      ensures this.base == base && s == Start(clock, lead)
    {
      this.base, s := base, Start(clock, lead);
    }

    /** Into the channel. */
    method SendRequest(r: Request)
      modifies this
      ensures s == Sent(old(s), r)
    {
      s := s.(queue := s.queue + [r], requested := s.requested + {r});
    }

    /** Once, and once more in the testing build. */
    method SendRace(b: int, testing: bool)
      requires b in s.infos
      modifies this
      ensures s == Send(old(s), b, testing)
    {
      var r := Request(b, s.infos[b].scheduling);
      SentTwice(s, r);
      SendRequest(r);
      if testing {
        SendRequest(r);
      }
    }

    /** `rows` are the races of the active season, none if there is no active season. */
    method RunOnce(rows: seq<int>, testing: bool)
      modifies this
      ensures s == Tick(old(s), rows, testing)
    {
      var upcoming := StartingBefore(s, rows, s.clock + s.lead);
      for i := 0 to |upcoming|
        invariant s == SendAll(old(s), upcoming[..i], testing)
      {
        SendNext(old(s), upcoming, i, testing);
        var b := upcoming[i];
        if b in s.infos && s.infos[b].url.None? {
          SendRace(b, testing);
        }
      }
      assert upcoming[..|upcoming|] == upcoming;
    }

    /** Receives until the channel is drained; `outcomes` says how each round's calls turn out. */
    method CreateRooms(outcomes: seq<Outcome>)
      requires |outcomes| == |s.queue|
      modifies this
      ensures s == ConsumeAll(base, old(s), outcomes) && s.queue == []
    {
      var i := 0;
      while s.queue != []
        invariant 0 <= i <= |outcomes| && |s.queue| == |outcomes| - i
        invariant s == ConsumeAll(base, old(s), outcomes[..i])
      {
        assert outcomes[..i + 1][..i] == outcomes[..i];
        var b := s.queue[0].bri;
        var outcome := outcomes[i];
        s := s.(queue := s.queue[1..]);
        i := i + 1;
        if b !in s.infos {
          continue;
        }
        var info := s.infos[b];
        if info.url.Some? {
          continue;
        }
        match outcome {
          case CreateFails =>
          case SaveFails(slug) =>
            s := s.(rooms := s.rooms + [Room(slug, b, info.scheduling, false)]);
          case Opened(slug) =>
            info := info.(url := Some(UrlFromSlug(base, slug)));
            s := s.(rooms := s.rooms + [Room(slug, b, info.scheduling, true)], infos := s.infos[b := info]);
            LearnAboutBri(slug, b);
        }
      }
      assert outcomes[..|outcomes|] == outcomes;
    }

    method LearnAboutBri(slug: string, b: int)
      modifies this
      ensures s == old(s).(slugs := if Learn(old(s).slugs, slug, b).Some? then old(s).slugs[slug := b] else old(s).slugs)
      ensures s.slugs == old(s).slugs <==> slug in old(s).slugs
      ensures s.slugs != old(s).slugs ==> s.slugs == old(s).slugs[slug := b]
    {
      if slug in s.slugs && s.slugs[slug] != b {
        return;
      }
      s := s.(slugs := s.slugs[slug := b]);
    }
  }
}

/** Finding the league race that a finished racetime.gg race belongs to: src/worker_funcs.rs.
    `lower` is the lower-casing of user names, whatever it is. Times are in milliseconds. */
module RaceMatching {
  import opened Wrappers
  import opened Sequences
  import opened Pairings

  const MINUTE: int := 60 * 1000

  datatype Player = Player(id: int, rtgg: Option<string>)

  datatype OpenRace = OpenRace(bri: int, scheduled: Option<int>, p1: int, p2: int)

  datatype Known = Known(race: OpenRace, p1: Player, p2: Player)

  datatype Entrant = Entrant(fullName: string, finish: Option<int>)

  datatype Match = Match(known: Known, e1: Entrant, e2: Entrant)

  // ----- the map of known races

  /** The race with its players, if both are known by name. */
  function KnownOf(players: map<int, Player>, r: OpenRace): Option<Known> {
    if r.p1 !in players || r.p2 !in players || players[r.p1].rtgg.None? || players[r.p2].rtgg.None? then None
    else Some(Known(r, players[r.p1], players[r.p2]))
  }

  function KnownRaces(lower: string -> string, players: map<int, Player>, races: seq<OpenRace>): map<string, Known> {
    if races == [] then map[]
    else
      var n := |races| - 1;
      var front := KnownRaces(lower, players, races[..n]);
      match KnownOf(players, races[n])
      case None => front
      case Some(k) => front[lower(k.p1.rtgg.value) := k]
  }

  method RacesByPlayerRtgg(lower: string -> string, players: map<int, Player>, races: seq<OpenRace>)
    returns (known: map<string, Known>)
    ensures known == KnownRaces(lower, players, races)
  {
    known := map[];
    for i := 0 to |races|
      invariant known == KnownRaces(lower, players, races[..i])
    {
      var r := races[i];
      assert races[..i + 1][..i] == races[..i];
      if r.p1 !in players || r.p2 !in players {
        continue;
      }
      var p1, p2 := players[r.p1], players[r.p2];
      if p1.rtgg.Some? && p2.rtgg.Some? {
        known := known[lower(p1.rtgg.value) := Known(r, p1, p2)];
      }
    }
    assert races[..|races|] == races;
  }

  // ----- the search

  /** Whole minutes, truncated toward zero. */
  function WholeMinutes(d: int): int {
    if d >= 0 then d / MINUTE else -((-d) / MINUTE)
  }

  /** Scheduled more than 180 whole minutes after the start. */
  predicate TooOld(scheduled: int, started: int) {
    WholeMinutes(scheduled - started) > 180
  }

  /** That is 181 minutes or more. */
  lemma TooOldFrom181Minutes(scheduled: int, started: int)
    ensures TooOld(scheduled, started) <==> scheduled - started >= 181 * MINUTE
  {
  }

  function Search(lower: string -> string, entrants: map<string, Entrant>, ids: seq<string>,
                  known: map<string, Known>, started: int): Option<Match>
    decreases |ids|
  {
    if ids == [] then None
    else if ids[0] !in known then Search(lower, entrants, ids[1..], known, started)
    else
      var k := known[ids[0]];
      if k.race.scheduled.None? || TooOld(k.race.scheduled.value, started) || k.p1.rtgg.None? || k.p2.rtgg.None? then
        Search(lower, entrants, ids[1..], known, started)
      else
        var n1, n2 := lower(k.p1.rtgg.value), lower(k.p2.rtgg.value);
        var rest := entrants - {n1};
        if n1 in entrants && n2 in rest then Some(Match(k, entrants[n1], rest[n2]))
        else Search(lower, rest - {n2}, ids[1..], known, started)
  }

  /** The loop, with the entrants it removes as it goes. */
  method SearchEntrants(lower: string -> string, all: map<string, Entrant>, ids: seq<string>,
                        known: map<string, Known>, started: int) returns (r: Option<Match>)
    ensures r == Search(lower, all, ids, known, started)
  {
    var entrants := all;
    assert ids[0..] == ids;
    for i := 0 to |ids|
      invariant Search(lower, entrants, ids[i..], known, started) == Search(lower, all, ids, known, started)
    {
      var id := ids[i];
      assert ids[i..][0] == id && ids[i..][1..] == ids[i + 1..];
      if id in known {
        var k := known[id];
        if k.race.scheduled.None? || TooOld(k.race.scheduled.value, started) || k.p1.rtgg.None? || k.p2.rtgg.None? {
          continue;
        }
        var n1, n2 := lower(k.p1.rtgg.value), lower(k.p2.rtgg.value);
        var e1 := if n1 in entrants then Some(entrants[n1]) else None;
        entrants := entrants - {n1};
        var e2 := if n2 in entrants then Some(entrants[n2]) else None;
        entrants := entrants - {n2};
        if e1.Some? && e2.Some? {
          return Some(Match(k, e1.value, e2.value));
        }
      }
    }
    return None;
  }

  /** The entrants by lower-cased name; the last one of a name stays. */
  function EntrantMap(lower: string -> string, entrants: seq<Entrant>): map<string, Entrant> {
    if entrants == [] then map[]
    else
      var n := |entrants| - 1;
      EntrantMap(lower, entrants[..n])[lower(entrants[n].fullName) := entrants[n]]
  }

  /** Every entrant is filed under the own name, and none of the names is lost. */
  lemma {:induction false} EntrantsAreNamed(lower: string -> string, entrants: seq<Entrant>, id: string)
    ensures var m := EntrantMap(lower, entrants);
      && (id in m <==> exists e | e in entrants :: lower(e.fullName) == id)
      && (id in m ==> m[id] in entrants && lower(m[id].fullName) == id)
  {
    if entrants != [] {
      var n := |entrants| - 1;
      assert entrants == entrants[..n] + [entrants[n]];
      assert entrants[n] in entrants;
      EntrantsAreNamed(lower, entrants[..n], id);
    }
  }

  /** Of several entrants of one name the last one is kept. */
  lemma {:induction false} LastEntrantStays(lower: string -> string, entrants: seq<Entrant>, k: nat)
    requires k < |entrants|
    requires forall j | k < j < |entrants| :: lower(entrants[j].fullName) != lower(entrants[k].fullName)
    ensures var id := lower(entrants[k].fullName); var m := EntrantMap(lower, entrants);
      id in m && m[id] == entrants[k]
  {
    var n := |entrants| - 1;
    if k < n {
      LastEntrantStays(lower, entrants[..n], k);
    }
  }

  /** `ids` lists the keys in some order. */
  ghost predicate Enumerates(ids: seq<string>, entrants: map<string, Entrant>) {
    Distinct(ids) && forall id :: id in ids <==> id in entrants
  }

  /** A race of the site; `started` is the start time, if it parses. */
  datatype RaceData = RaceData(goal: string, status: string, started: Option<int>, entrants: seq<Entrant>)

  predicate PassesGates(data: RaceData, seasonGoal: string) {
    data.goal == seasonGoal && data.status == "finished" && data.started.Some?
  }

  /** What is found for a race of the site: nothing behind a gate, otherwise what the search finds. */
  function Interesting(lower: string -> string, known: map<string, Known>, seasonGoal: string, data: RaceData, ids: seq<string>)
    : Option<Match>
  {
    if PassesGates(data, seasonGoal) then Search(lower, EntrantMap(lower, data.entrants), ids, known, data.started.value)
    else None
  }

  class RacetimeRace {
    const goal: string
    const status: string
    const started: Option<int>
    var entrants: seq<Entrant>

    function Data(): RaceData
      reads this
    {
      RaceData(goal, status, started, entrants)
    }

    constructor (data: RaceData)
      ensures Data() == data
    {
      goal, status, started, entrants := data.goal, data.status, data.started, data.entrants;
    }

    /** Consumes the entrants unless the race is refused at a gate. `ids` is the order in which the
        hash map happens to give up its keys. */
    method InterestingRace(lower: string -> string, known: map<string, Known>, seasonGoal: string, ids: seq<string>)
      returns (r: Option<Match>)
      requires Enumerates(ids, EntrantMap(lower, entrants))
      modifies this
      ensures r == Interesting(lower, known, seasonGoal, old(Data()), ids)
      ensures entrants == if PassesGates(old(Data()), seasonGoal) then [] else old(entrants)
    {
      if goal != seasonGoal || status != "finished" || started.None? {
        return None;
      }
      var all := EntrantMap(lower, entrants);
      entrants := [];
      r := SearchEntrants(lower, all, ids, known, started.value);
    }
  }

  // ----- what the search finds

  /** The race passes the time and name tests: when the search reaches it, it removes both names. */
  predicate Tested(k: Known, started: int) {
    && k.race.scheduled.Some? && !TooOld(k.race.scheduled.value, started)
    && k.p1.rtgg.Some? && k.p2.rtgg.Some?
  }

  /** A tested race with both players among the entrants, as two people. */
  predicate Candidate(lower: string -> string, entrants: map<string, Entrant>, k: Known, started: int) {
    && Tested(k, started)
    && var n1 := lower(k.p1.rtgg.value);
       var n2 := lower(k.p2.rtgg.value);
       n1 != n2 && n1 in entrants && n2 in entrants
  }

  /** A match is always a candidate, with the entrants of that name, in whatever order the keys come
      and whatever the map. */
  lemma {:induction false} SearchIsSound(lower: string -> string, entrants: map<string, Entrant>, ids: seq<string>,
                                         known: map<string, Known>, started: int)
    requires Search(lower, entrants, ids, known, started).Some?
    ensures var m := Search(lower, entrants, ids, known, started).value;
      && (exists id | id in ids && id in known :: known[id] == m.known)
      && Candidate(lower, entrants, m.known, started)
      && m.e1 == entrants[lower(m.known.p1.rtgg.value)] && m.e2 == entrants[lower(m.known.p2.rtgg.value)]
    decreases |ids|
  {
    if ids[0] in known {
      var k := known[ids[0]];
      if k.race.scheduled.None? || TooOld(k.race.scheduled.value, started) || k.p1.rtgg.None? || k.p2.rtgg.None? {
        SearchIsSound(lower, entrants, ids[1..], known, started);
      } else {
        var n1, n2 := lower(k.p1.rtgg.value), lower(k.p2.rtgg.value);
        if n1 !in entrants || n2 !in entrants - {n1} {
          SearchIsSound(lower, entrants - {n1} - {n2}, ids[1..], known, started);
        }
      }
    } else {
      SearchIsSound(lower, entrants, ids[1..], known, started);
    }
  }

  /** The entrants of a match are entrants of the room, one named as player 1 and one as player 2. */
  lemma MatchNamesBothPlayers(lower: string -> string, entrants: seq<Entrant>, ids: seq<string>,
                              known: map<string, Known>, started: int)
    requires Search(lower, EntrantMap(lower, entrants), ids, known, started).Some?
    ensures var m := Search(lower, EntrantMap(lower, entrants), ids, known, started).value;
      && m.e1 in entrants && m.e2 in entrants && m.e1 != m.e2
      && m.known.p1.rtgg.Some? && lower(m.e1.fullName) == lower(m.known.p1.rtgg.value)
      && m.known.p2.rtgg.Some? && lower(m.e2.fullName) == lower(m.known.p2.rtgg.value)
  {
    SearchIsSound(lower, EntrantMap(lower, entrants), ids, known, started);
    var m := Search(lower, EntrantMap(lower, entrants), ids, known, started).value;
    EntrantsAreNamed(lower, entrants, lower(m.known.p1.rtgg.value));
    EntrantsAreNamed(lower, entrants, lower(m.known.p2.rtgg.value));
  }

  /** Every race is filed under its first player's name, and no name occurs in two races. */
  ghost predicate FiledDisjoint(lower: string -> string, known: map<string, Known>) {
    && (forall id | id in known ::
          known[id].p1.rtgg.Some? && known[id].p2.rtgg.Some? && lower(known[id].p1.rtgg.value) == id)
    && (forall i, j | i in known && j in known && i != j :: NamesDisjoint(lower, known[i], known[j]))
  }

  predicate NamesDisjoint(lower: string -> string, a: Known, b: Known) {
    a.p1.rtgg.Some? && a.p2.rtgg.Some? && b.p1.rtgg.Some? && b.p2.rtgg.Some? ==>
      {lower(a.p1.rtgg.value), lower(a.p2.rtgg.value)} !! {lower(b.p1.rtgg.value), lower(b.p2.rtgg.value)}
  }

  /** The race at position `i` is found by a search that gets that far: it is a candidate, and no
      tested race at an earlier position has taken one of its names away. */
  ghost predicate Wins(lower: string -> string, entrants: map<string, Entrant>, ids: seq<string>,
                       known: map<string, Known>, started: int, i: int)
  {
    && 0 <= i < |ids| && ids[i] in known && Candidate(lower, entrants, known[ids[i]], started)
    && forall j | 0 <= j < i && ids[j] in known && Tested(known[ids[j]], started) ::
         NamesDisjoint(lower, known[ids[j]], known[ids[i]])
  }

  /** What is left of the entrants after the first position. */
  function Left(lower: string -> string, entrants: map<string, Entrant>, id: string, known: map<string, Known>, started: int)
    : map<string, Entrant>
  {
    if id in known && Tested(known[id], started) then
      entrants - {lower(known[id].p1.rtgg.value)} - {lower(known[id].p2.rtgg.value)}
    else entrants
  }

  lemma WinsLater(lower: string -> string, entrants: map<string, Entrant>, ids: seq<string>,
                  known: map<string, Known>, started: int, i: nat)
    requires i + 1 < |ids|
    ensures Wins(lower, Left(lower, entrants, ids[0], known, started), ids[1..], known, started, i) <==>
            Wins(lower, entrants, ids, known, started, i + 1)
  {
    assert ids[1..][i] == ids[i + 1];
    if Wins(lower, Left(lower, entrants, ids[0], known, started), ids[1..], known, started, i) {
      forall j | 0 <= j < i + 1 && ids[j] in known && Tested(known[ids[j]], started)
        ensures NamesDisjoint(lower, known[ids[j]], known[ids[i + 1]])
      {
        assert j > 0 ==> ids[1..][j - 1] == ids[j];
      }
    }
  }

  /** A successful search returns the race at the first position that wins. */
  lemma {:induction false} SearchPicksFirst(lower: string -> string, entrants: map<string, Entrant>, ids: seq<string>,
                                            known: map<string, Known>, started: int) returns (i: nat)
    requires Search(lower, entrants, ids, known, started).Some?
    ensures Wins(lower, entrants, ids, known, started, i)
    ensures Search(lower, entrants, ids, known, started).value.known == known[ids[i]]
    ensures forall j | 0 <= j < i :: !Wins(lower, entrants, ids, known, started, j)
    decreases |ids|
  {
    if ids[0] in known && Candidate(lower, entrants, known[ids[0]], started) {
      i := 0;
    } else {
      var rest := Left(lower, entrants, ids[0], known, started);
      var k := SearchPicksFirst(lower, rest, ids[1..], known, started);
      i := k + 1;
      WinsLater(lower, entrants, ids, known, started, k);
      forall j | 0 <= j < i
        ensures !Wins(lower, entrants, ids, known, started, j)
      {
        if j > 0 {
          WinsLater(lower, entrants, ids, known, started, j - 1);
        }
      }
    }
  }

  lemma {:induction false} WinnerIsFound(lower: string -> string, entrants: map<string, Entrant>, ids: seq<string>,
                                         known: map<string, Known>, started: int, i: nat)
    requires Wins(lower, entrants, ids, known, started, i)
    ensures Search(lower, entrants, ids, known, started).Some?
    decreases |ids|
  {
    if !(ids[0] in known && Candidate(lower, entrants, known[ids[0]], started)) {
      WinsLater(lower, entrants, ids, known, started, i - 1);
      WinnerIsFound(lower, Left(lower, entrants, ids[0], known, started), ids[1..], known, started, i - 1);
    }
  }

  /** The search finds a match exactly when some position holds a candidate that shares no name with a
      tested race at an earlier position, whatever the map and the order of the keys. */
  lemma SearchExactly(lower: string -> string, entrants: map<string, Entrant>, ids: seq<string>,
                      known: map<string, Known>, started: int)
    ensures Search(lower, entrants, ids, known, started).Some? <==>
      exists i :: Wins(lower, entrants, ids, known, started, i)
  {
    if Search(lower, entrants, ids, known, started).Some? {
      var i := SearchPicksFirst(lower, entrants, ids, known, started);
    }
    if i :| Wins(lower, entrants, ids, known, started, i) {
      WinnerIsFound(lower, entrants, ids, known, started, i);
    }
  }

  /** Over races with pairwise disjoint players the search finds a match exactly when there is one,
      in whatever order the keys come and despite the entrants it throws away. */
  lemma MatchIffCandidate(lower: string -> string, entrants: map<string, Entrant>, ids: seq<string>,
                          known: map<string, Known>, started: int)
    requires FiledDisjoint(lower, known) && Enumerates(ids, entrants)
    ensures Search(lower, entrants, ids, known, started).Some? <==>
      exists id | id in known :: Candidate(lower, entrants, known[id], started)
  {
    SearchExactly(lower, entrants, ids, known, started);
    if id :| id in known && Candidate(lower, entrants, known[id], started) {
      assert id in ids;
      var i :| 0 <= i < |ids| && ids[i] == id;
      assert Wins(lower, entrants, ids, known, started, i);
    }
  }

  /** A race of a player against themself is never found. */
  lemma MatchIsOfTwoPlayers(lower: string -> string, players: map<int, Player>, races: seq<OpenRace>,
                            entrants: map<string, Entrant>, ids: seq<string>, started: int)
    requires Search(lower, entrants, ids, KnownRaces(lower, players, races), started).Some?
    ensures var r := Search(lower, entrants, ids, KnownRaces(lower, players, races), started).value.known.race;
      r in races && r.p1 != r.p2
  {
    var m := KnownRaces(lower, players, races);
    SearchIsSound(lower, entrants, ids, m, started);
    var id :| id in ids && id in m && m[id] == Search(lower, entrants, ids, m, started).value.known;
    KnownRacesAreFiled(lower, players, races, id);
  }

  // ----- when the order of the keys matters

  /** A group of candidates that shares no name with any tested race outside the group. */
  ghost predicate Closed(lower: string -> string, entrants: map<string, Entrant>, known: map<string, Known>, started: int,
                         group: set<string>)
  {
    && group != {}
    && (forall id | id in group :: id in entrants && id in known && Candidate(lower, entrants, known[id], started))
    && (forall id, x | id in group && x in known && x in entrants && x !in group && Tested(known[x], started) ::
          NamesDisjoint(lower, known[x], known[id]))
  }

  lemma ClosedIsFound(lower: string -> string, entrants: map<string, Entrant>, ids: seq<string>,
                      known: map<string, Known>, started: int, group: set<string>)
    requires Enumerates(ids, entrants) && Closed(lower, entrants, known, started, group)
    ensures Search(lower, entrants, ids, known, started).Some?
  {
    var id :| id in group;
    assert id in ids;
    var first := FirstIn(ids, group);
    forall j | 0 <= j < first && ids[j] in known && Tested(known[ids[j]], started)
      ensures NamesDisjoint(lower, known[ids[j]], known[ids[first]])
    {
      assert ids[j] in ids;
    }
    WinnerIsFound(lower, entrants, ids, known, started, first);
  }

  lemma {:induction false} FirstIn(ids: seq<string>, group: set<string>) returns (i: nat)
    requires exists id :: id in ids && id in group
    ensures i < |ids| && ids[i] in group && forall j | 0 <= j < i :: ids[j] !in group
  {
    if ids[0] in group {
      i := 0;
    } else {
      var id :| id in ids && id in group;
      assert id in ids[1..];
      var k := FirstIn(ids[1..], group);
      i := k + 1;
    }
  }

  /** Some order of the ids of a set. */
  lemma {:induction false} AnyOrder(s: set<string>) returns (ids: seq<string>)
    ensures Distinct(ids) && forall id :: id in ids <==> id in s
  {
    ids := [];
    if s != {} {
      var id :| id in s;
      var rest := AnyOrder(s - {id});
      ids := [id] + rest;
    }
  }

  ghost predicate NoneWins(lower: string -> string, entrants: map<string, Entrant>, ids: seq<string>,
                           known: map<string, Known>, started: int)
  {
    forall i | 0 <= i < |ids| :: !Wins(lower, entrants, ids, known, started, i)
  }

  lemma NoneWinsAppend(lower: string -> string, entrants: map<string, Entrant>, ids: seq<string>,
                       known: map<string, Known>, started: int, id: string)
    requires NoneWins(lower, entrants, ids, known, started)
    requires id in known ==> exists j :: 0 <= j < |ids| && ids[j] in known && Tested(known[ids[j]], started)
                                         && !NamesDisjoint(lower, known[ids[j]], known[id])
    ensures NoneWins(lower, entrants, ids + [id], known, started)
  {
    var more := ids + [id];
    forall i | 0 <= i < |more|
      ensures !Wins(lower, entrants, more, known, started, i)
    {
      if i < |ids| {
        assert more[i] == ids[i] && forall j | 0 <= j < i :: more[j] == ids[j];
        if Wins(lower, entrants, more, known, started, i) {
          assert Wins(lower, entrants, ids, known, started, i);
        }
      } else if id in known {
        var j :| 0 <= j < |ids| && ids[j] in known && Tested(known[ids[j]], started)
                 && !NamesDisjoint(lower, known[ids[j]], known[id]);
        assert more[j] == ids[j];
      }
    }
  }

  /** As long as no group of candidates is closed, the candidates can be tried in an order in which
      each of them comes after a tested race that shares a name with it. */
  lemma {:induction false} LosingOrder(lower: string -> string, entrants: map<string, Entrant>, known: map<string, Known>,
                                       started: int, placed: seq<string>, left: set<string>) returns (ids: seq<string>)
    requires forall group :: !Closed(lower, entrants, known, started, group)
    requires forall id | id in left :: id in known && Candidate(lower, entrants, known[id], started)
    requires Distinct(placed) && forall id :: id in entrants <==> id in placed || id in left
    requires forall id | id in placed :: id !in left
    requires NoneWins(lower, entrants, placed, known, started)
    ensures Enumerates(ids, entrants) && NoneWins(lower, entrants, ids, known, started)
    decreases left
  {
    if left == {} {
      ids := placed;
    } else {
      assert !Closed(lower, entrants, known, started, left);
      var id, x :| id in left && x in known && x in entrants && x !in left && Tested(known[x], started)
                   && !NamesDisjoint(lower, known[x], known[id]);
      assert x in placed;
      NoneWinsAppend(lower, entrants, placed, known, started, id);
      ids := LosingOrder(lower, entrants, known, started, placed + [id], left - {id});
    }
  }

  lemma NotClosedIsMissed(lower: string -> string, entrants: map<string, Entrant>, known: map<string, Known>, started: int)
    returns (ids: seq<string>)
    requires forall group :: !Closed(lower, entrants, known, started, group)
    ensures Enumerates(ids, entrants) && Search(lower, entrants, ids, known, started).None?
  {
    var left := set id | id in entrants && id in known && Candidate(lower, entrants, known[id], started);
    var placed := AnyOrder(entrants.Keys - left);
    assert forall i | 0 <= i < |placed| :: placed[i] in placed;
    ids := LosingOrder(lower, entrants, known, started, placed, left);
    SearchExactly(lower, entrants, ids, known, started);
  }

  /** Every order of the keys finds a match exactly when some group of candidates is closed. */
  lemma EveryOrderFindsIff(lower: string -> string, entrants: map<string, Entrant>, known: map<string, Known>, started: int)
    ensures (forall ids | Enumerates(ids, entrants) :: Search(lower, entrants, ids, known, started).Some?) <==>
      exists group :: Closed(lower, entrants, known, started, group)
  {
    if group :| Closed(lower, entrants, known, started, group) {
      forall ids | Enumerates(ids, entrants)
        ensures Search(lower, entrants, ids, known, started).Some?
      {
        ClosedIsFound(lower, entrants, ids, known, started, group);
      }
    } else {
      var ids := NotClosedIsMissed(lower, entrants, known, started);
    }
  }

  /** Some order of the keys finds a match exactly when some entrant has a candidate filed under the
      name. */
  lemma SomeOrderFindsIff(lower: string -> string, entrants: map<string, Entrant>, known: map<string, Known>, started: int)
    ensures (exists ids :: Enumerates(ids, entrants) && Search(lower, entrants, ids, known, started).Some?) <==>
      exists id :: id in entrants && id in known && Candidate(lower, entrants, known[id], started)
  {
    if ids :| Enumerates(ids, entrants) && Search(lower, entrants, ids, known, started).Some? {
      var i := SearchPicksFirst(lower, entrants, ids, known, started);
      assert ids[i] in ids;
    }
    if id :| id in entrants && id in known && Candidate(lower, entrants, known[id], started) {
      var rest := AnyOrder(entrants.Keys - {id});
      var ids := [id] + rest;
      assert Enumerates(ids, entrants);
      WinnerIsFound(lower, entrants, ids, known, started, 0);
    }
  }

  /** This does happen: with A vs B and B vs C both open and A and B in the room, starting from B
      throws B away. */
  lemma OrderMattersWhenPlayersOverlap()
    ensures exists lower: string -> string, entrants: map<string, Entrant>, known: map<string, Known>,
                   x: seq<string>, y: seq<string>, started: int ::
      && Enumerates(x, entrants) && Enumerates(y, entrants)
      && Search(lower, entrants, x, known, started).Some?
      && Search(lower, entrants, y, known, started).None?
  {
    var lower := (s: string) => s;
    var a, b, c := Player(1, Some("a")), Player(2, Some("b")), Player(3, Some("c"));
    var known := map["a" := Known(OpenRace(1, Some(0), 1, 2), a, b), "b" := Known(OpenRace(2, Some(0), 2, 3), b, c)];
    var entrants := map["a" := Entrant("a", None), "b" := Entrant("b", None)];
    var x, y := ["a", "b"], ["b", "a"];
    assert "a" != "b" && "b" != "c" && "a" != "c" by { assert "a"[0] != "b"[0] && "b"[0] != "c"[0] && "a"[0] != "c"[0]; }
    assert Search(lower, entrants, x, known, 0).Some?;
    assert y[1..] == ["a"] && ["a"][1..] == [];
    assert Search(lower, entrants - {"b"} - {"c"}, ["a"], known, 0) == None;
    assert Search(lower, entrants, y, known, 0).None?;
  }

  // ----- the map that the scanner builds

  predicate RacesDisjoint(a: OpenRace, b: OpenRace) {
    {a.p1, a.p2} !! {b.p1, b.p2}
  }

  /** Different players have different names, even in lower case. */
  ghost predicate NamesIdentify(lower: string -> string, players: map<int, Player>) {
    forall i, j | i in players && j in players && i != j && players[i].rtgg.Some? && players[j].rtgg.Some? ::
      lower(players[i].rtgg.value) != lower(players[j].rtgg.value)
  }

  ghost predicate AllDisjoint(races: seq<OpenRace>) {
    forall i, j | 0 <= i < j < |races| :: RacesDisjoint(races[i], races[j])
  }

  /** The name a race is filed under, if it is filed. */
  function FiledUnder(lower: string -> string, players: map<int, Player>, r: OpenRace): Option<string> {
    match KnownOf(players, r)
    case None => None
    case Some(k) => Some(lower(k.p1.rtgg.value))
  }

  /** No later race is filed under the same name. */
  ghost predicate LastOfName(lower: string -> string, players: map<int, Player>, races: seq<OpenRace>, i: int) {
    && 0 <= i < |races| && FiledUnder(lower, players, races[i]).Some?
    && forall j | i < j < |races| :: FiledUnder(lower, players, races[j]) != FiledUnder(lower, players, races[i])
  }

  lemma LastInFront(lower: string -> string, players: map<int, Player>, races: seq<OpenRace>, i: int)
    requires races != []
    ensures var n := |races| - 1;
      LastOfName(lower, players, races, i) <==>
      (i == n && FiledUnder(lower, players, races[n]).Some?)
      || (LastOfName(lower, players, races[..n], i) && FiledUnder(lower, players, races[n]) != FiledUnder(lower, players, races[i]))
  {
    var n := |races| - 1;
    if LastOfName(lower, players, races[..n], i) {
      assert races[..n][i] == races[i] && forall j | i < j < n :: races[..n][j] == races[j];
    }
    if LastOfName(lower, players, races, i) && i < n {
      assert races[..n][i] == races[i] && forall j | i < j < n :: races[..n][j] == races[j];
    }
  }

  /** The map holds a race under a name exactly when it is the last of the races filed under that
      name: all earlier ones are lost. */
  lemma {:induction false} KnownRacesExactly(lower: string -> string, players: map<int, Player>, races: seq<OpenRace>,
                                             id: string, k: Known)
    ensures var m := KnownRaces(lower, players, races);
      id in m && m[id] == k <==>
      exists i :: LastOfName(lower, players, races, i)
                  && FiledUnder(lower, players, races[i]) == Some(id) && KnownOf(players, races[i]) == Some(k)
  {
    if races != [] {
      var n := |races| - 1;
      var front, m := KnownRaces(lower, players, races[..n]), KnownRaces(lower, players, races);
      KnownRacesExactly(lower, players, races[..n], id, k);
      if id in m && m[id] == k {
        if FiledUnder(lower, players, races[n]) == Some(id) {
          LastInFront(lower, players, races, n);
        } else {
          var i :| LastOfName(lower, players, races[..n], i)
                   && FiledUnder(lower, players, races[..n][i]) == Some(id) && KnownOf(players, races[..n][i]) == Some(k);
          LastInFront(lower, players, races, i);
        }
      }
      if i :| LastOfName(lower, players, races, i)
              && FiledUnder(lower, players, races[i]) == Some(id) && KnownOf(players, races[i]) == Some(k) {
        LastInFront(lower, players, races, i);
        if i < n {
          assert races[..n][i] == races[i];
        }
      }
    }
  }

  /** A race survives in the map exactly when no later race has the same first player, by name. */
  lemma SurvivesIffLast(lower: string -> string, players: map<int, Player>, races: seq<OpenRace>, i: nat)
    requires Distinct(races) && i < |races| && KnownOf(players, races[i]).Some?
    ensures var k := KnownOf(players, races[i]).value; var m := KnownRaces(lower, players, races);
      lower(k.p1.rtgg.value) in m && m[lower(k.p1.rtgg.value)] == k <==> LastOfName(lower, players, races, i)
  {
    var k := KnownOf(players, races[i]).value;
    KnownRacesExactly(lower, players, races, lower(k.p1.rtgg.value), k);
  }

  /** Every entry of the map is one of the races, filed under its first player. */
  lemma KnownRacesAreFiled(lower: string -> string, players: map<int, Player>, races: seq<OpenRace>, id: string)
    requires id in KnownRaces(lower, players, races)
    ensures var k := KnownRaces(lower, players, races)[id];
      k.race in races && KnownOf(players, k.race) == Some(k) && lower(k.p1.rtgg.value) == id
  {
    KnownRacesExactly(lower, players, races, id, KnownRaces(lower, players, races)[id]);
  }

  /** With disjoint races none is overwritten. */
  lemma KnownRacesKeepAll(lower: string -> string, players: map<int, Player>, races: seq<OpenRace>, r: OpenRace)
    requires AllDisjoint(races) && NamesIdentify(lower, players)
    requires r in races && KnownOf(players, r).Some?
    ensures var k := KnownOf(players, r).value; var m := KnownRaces(lower, players, races);
      lower(k.p1.rtgg.value) in m && m[lower(k.p1.rtgg.value)] == k
  {
    var k := KnownOf(players, r).value;
    var i :| 0 <= i < |races| && races[i] == r;
    forall j | i < j < |races|
      ensures FiledUnder(lower, players, races[j]) != FiledUnder(lower, players, races[i])
    {
      assert RacesDisjoint(races[i], races[j]);
    }
    assert LastOfName(lower, players, races, i);
    KnownRacesExactly(lower, players, races, lower(k.p1.rtgg.value), k);
  }

  lemma KnownRacesAreDisjoint(lower: string -> string, players: map<int, Player>, races: seq<OpenRace>)
    requires AllDisjoint(races) && NamesIdentify(lower, players)
    ensures FiledDisjoint(lower, KnownRaces(lower, players, races))
  {
    var m := KnownRaces(lower, players, races);
    forall id | id in m
      ensures m[id].p1.rtgg.Some? && m[id].p2.rtgg.Some? && lower(m[id].p1.rtgg.value) == id
    {
      KnownRacesAreFiled(lower, players, races, id);
    }
    forall a, b | a in m && b in m && a != b
      ensures NamesDisjoint(lower, m[a], m[b])
    {
      KnownRacesAreFiled(lower, players, races, a);
      KnownRacesAreFiled(lower, players, races, b);
      var i :| 0 <= i < |races| && races[i] == m[a].race;
      var j :| 0 <= j < |races| && races[j] == m[b].race;
      if i < j {
        assert RacesDisjoint(races[i], races[j]);
      } else if j < i {
        assert RacesDisjoint(races[j], races[i]);
      }
    }
  }

  /** The scanner: over open races with disjoint players, a racetime.gg race is matched exactly when
      some open race has both players, by name, among the entrants and passes the time test. */
  lemma ScannerFindsRace(lower: string -> string, players: map<int, Player>, races: seq<OpenRace>,
                         entrants: map<string, Entrant>, ids: seq<string>, started: int)
    requires AllDisjoint(races) && NamesIdentify(lower, players) && Enumerates(ids, entrants)
    ensures Search(lower, entrants, ids, KnownRaces(lower, players, races), started).Some? <==>
      exists r | r in races :: KnownOf(players, r).Some? && Candidate(lower, entrants, KnownOf(players, r).value, started)
  {
    var m := KnownRaces(lower, players, races);
    KnownRacesAreDisjoint(lower, players, races);
    MatchIffCandidate(lower, entrants, ids, m, started);
    if id :| id in m && Candidate(lower, entrants, m[id], started) {
      KnownRacesAreFiled(lower, players, races, id);
    }
    if r :| r in races && KnownOf(players, r).Some? && Candidate(lower, entrants, KnownOf(players, r).value, started) {
      KnownRacesKeepAll(lower, players, races, r);
    }
  }

  /** The race at position `i`, filed under the entrant at position `p`, is found: no later race took
      its place in the map, it is a candidate, and no race filed under an earlier entrant took one of
      its names away. */
  ghost predicate Found(lower: string -> string, players: map<int, Player>, races: seq<OpenRace>,
                        entrants: map<string, Entrant>, ids: seq<string>, started: int, p: int, i: int)
  {
    && 0 <= p < |ids| && LastOfName(lower, players, races, i) && FiledUnder(lower, players, races[i]) == Some(ids[p])
    && Candidate(lower, entrants, KnownOf(players, races[i]).value, started)
    && forall q, j | 0 <= q < p && LastOfName(lower, players, races, j)
                     && FiledUnder(lower, players, races[j]) == Some(ids[q])
                     && Tested(KnownOf(players, races[j]).value, started) ::
         NamesDisjoint(lower, KnownOf(players, races[j]).value, KnownOf(players, races[i]).value)
  }

  ghost predicate SomeFound(lower: string -> string, players: map<int, Player>, races: seq<OpenRace>,
                            entrants: map<string, Entrant>, ids: seq<string>, started: int)
  {
    exists p, i :: Found(lower, players, races, entrants, ids, started, p, i)
  }

  lemma FoundWins(lower: string -> string, players: map<int, Player>, races: seq<OpenRace>,
                  entrants: map<string, Entrant>, ids: seq<string>, started: int, p: int, i: int)
    requires Found(lower, players, races, entrants, ids, started, p, i)
    ensures Wins(lower, entrants, ids, KnownRaces(lower, players, races), started, p)
  {
    var m := KnownRaces(lower, players, races);
    KnownRacesExactly(lower, players, races, ids[p], KnownOf(players, races[i]).value);
    forall q | 0 <= q < p && ids[q] in m && Tested(m[ids[q]], started)
      ensures NamesDisjoint(lower, m[ids[q]], m[ids[p]])
    {
      KnownRacesExactly(lower, players, races, ids[q], m[ids[q]]);
    }
  }

  lemma WinnerIsThere(lower: string -> string, players: map<int, Player>, races: seq<OpenRace>,
                      entrants: map<string, Entrant>, ids: seq<string>, started: int, p: int) returns (i: int)
    requires Wins(lower, entrants, ids, KnownRaces(lower, players, races), started, p)
    ensures Found(lower, players, races, entrants, ids, started, p, i)
  {
    var m := KnownRaces(lower, players, races);
    KnownRacesExactly(lower, players, races, ids[p], m[ids[p]]);
    i :| LastOfName(lower, players, races, i)
         && FiledUnder(lower, players, races[i]) == Some(ids[p]) && KnownOf(players, races[i]) == Some(m[ids[p]]);
    forall q, j | 0 <= q < p && LastOfName(lower, players, races, j)
                  && FiledUnder(lower, players, races[j]) == Some(ids[q])
                  && Tested(KnownOf(players, races[j]).value, started)
      ensures NamesDisjoint(lower, KnownOf(players, races[j]).value, KnownOf(players, races[i]).value)
    {
      KnownRacesExactly(lower, players, races, ids[q], KnownOf(players, races[j]).value);
    }
  }

  /** The scanner, exactly, over any open races: when the built map and the search together find a
      race. */
  lemma ScannerFindsExactly(lower: string -> string, players: map<int, Player>, races: seq<OpenRace>,
                            entrants: map<string, Entrant>, ids: seq<string>, started: int)
    ensures Search(lower, entrants, ids, KnownRaces(lower, players, races), started).Some? <==>
      SomeFound(lower, players, races, entrants, ids, started)
  {
    SearchExactly(lower, entrants, ids, KnownRaces(lower, players, races), started);
    if p :| Wins(lower, entrants, ids, KnownRaces(lower, players, races), started, p) {
      var i := WinnerIsThere(lower, players, races, entrants, ids, started, p);
    }
    if p, i :| Found(lower, players, races, entrants, ids, started, p, i) {
      FoundWins(lower, players, races, entrants, ids, started, p, i);
    }
  }

  /** The same with the gates in front. */
  lemma InterestingExactly(lower: string -> string, players: map<int, Player>, races: seq<OpenRace>,
                           seasonGoal: string, data: RaceData, ids: seq<string>)
    ensures Interesting(lower, KnownRaces(lower, players, races), seasonGoal, data, ids).Some? <==>
      && PassesGates(data, seasonGoal)
      && SomeFound(lower, players, races, EntrantMap(lower, data.entrants), ids, data.started.value)
  {
    if data.started.Some? {
      ScannerFindsExactly(lower, players, races, EntrantMap(lower, data.entrants), ids, data.started.value);
    }
  }

  // ----- what the map loses of a round robin

  function PlayerPairs(races: seq<OpenRace>): seq<Pair> {
    seq(|races|, k requires 0 <= k < |races| => (races[k].p1, races[k].p2))
  }

  /** The names of some players. */
  function NamesOf(lower: string -> string, players: map<int, Player>, ids: seq<int>): (names: set<string>)
    requires forall p | p in ids :: p in players && players[p].rtgg.Some?
    ensures forall id :: id in names <==> exists p | p in ids :: lower(players[p].rtgg.value) == id
  {
    set p | p in ids :: lower(players[p].rtgg.value)
  }

  lemma {:induction false} AsManyNames(lower: string -> string, players: map<int, Player>, ids: seq<int>)
    requires Distinct(ids) && NamesIdentify(lower, players)
    requires forall p | p in ids :: p in players && players[p].rtgg.Some?
    ensures |NamesOf(lower, players, ids)| == |ids|
  {
    if ids != [] {
      assert ids == [ids[0]] + ids[1..];
      AsManyNames(lower, players, ids[1..]);
      var p := ids[0];
      assert p in ids && p in players;
      var name := lower(players[p].rtgg.value);
      assert NamesOf(lower, players, ids) == {name} + NamesOf(lower, players, ids[1..]);
      assert name !in NamesOf(lower, players, ids[1..]);
    }
  }

  /** Some race is filed under a name exactly when the name is in the map. */
  lemma {:induction false} KnownNames(lower: string -> string, players: map<int, Player>, races: seq<OpenRace>, id: string)
    ensures id in KnownRaces(lower, players, races) <==> exists r | r in races :: FiledUnder(lower, players, r) == Some(id)
  {
    if races != [] {
      var n := |races| - 1;
      assert races == races[..n] + [races[n]];
      assert races[n] in races;
      KnownNames(lower, players, races[..n], id);
    }
  }

  lemma {:induction false} HighestOf(ids: seq<int>) returns (k: nat)
    requires ids != []
    ensures k < |ids| && forall p | p in ids :: p <= ids[k]
  {
    assert ids == [ids[0]] + ids[1..];
    if |ids| == 1 {
      k := 0;
    } else {
      var j := HighestOf(ids[1..]);
      k := if ids[0] > ids[j + 1] then 0 else j + 1;
    }
  }

  /** In a round robin of n players who are all known by name, with every race open, the map keeps
      only n - 1 of the n(n - 1) / 2 races: one for each player who is ever player 1. */
  lemma RoundRobinKeepsOnePerPlayer(lower: string -> string, players: map<int, Player>, races: seq<OpenRace>, ids: seq<int>)
    requires Distinct(ids) && ids != [] && NamesIdentify(lower, players)
    requires forall p | p in ids :: p in players && players[p].rtgg.Some?
    requires multiset(PlayerPairs(races)) == multiset(RoundRobinPairs(ids))
    ensures 2 * |races| == |ids| * (|ids| - 1)
    ensures |KnownRaces(lower, players, races)| == |ids| - 1
  {
    RoundRobinRaces(races, ids);
    RoundRobinNames(lower, players, races, ids);
  }

  lemma RoundRobinRaces(races: seq<OpenRace>, ids: seq<int>)
    requires Distinct(ids) && multiset(PlayerPairs(races)) == multiset(RoundRobinPairs(ids))
    ensures 2 * |races| == |ids| * (|ids| - 1)
  {
    RoundRobinIsAllPairs(ids);
    assert |multiset(PlayerPairs(races))| == |races| && |multiset(RoundRobinPairs(ids))| == |RoundRobinPairs(ids)|;
  }

  lemma RoundRobinNames(lower: string -> string, players: map<int, Player>, races: seq<OpenRace>, ids: seq<int>)
    requires Distinct(ids) && ids != [] && NamesIdentify(lower, players)
    requires forall p | p in ids :: p in players && players[p].rtgg.Some?
    requires multiset(PlayerPairs(races)) == multiset(RoundRobinPairs(ids))
    ensures |KnownRaces(lower, players, races)| == |ids| - 1
  {
    var k := HighestOf(ids);
    var others := ids[..k] + ids[k + 1..];
    var m := KnownRaces(lower, players, races);
    forall id
      ensures id in m.Keys <==> id in NamesOf(lower, players, others)
    {
      KnownNames(lower, players, races, id);
      FirstPlayers(lower, players, races, ids, k, id);
    }
    assert m.Keys == NamesOf(lower, players, others);
    AsManyNames(lower, players, others);
  }

  lemma OtherThan(ids: seq<int>, k: nat, p: int)
    requires Distinct(ids) && k < |ids|
    ensures p in ids[..k] + ids[k + 1..] <==> p in ids && p != ids[k]
  {
    var others := ids[..k] + ids[k + 1..];
    if p in ids && p != ids[k] {
      var x :| 0 <= x < |ids| && ids[x] == p;
      assert others[if x < k then x else x - 1] == p;
    }
    if p in others {
      var x :| 0 <= x < |others| && others[x] == p;
      assert ids[if x < k then x else x + 1] == p;
    }
  }

  /** All players but the highest are player 1 of some race. */
  lemma FirstPlayers(lower: string -> string, players: map<int, Player>, races: seq<OpenRace>, ids: seq<int>, k: nat, id: string)
    requires Distinct(ids) && k < |ids| && forall p | p in ids :: p <= ids[k]
    requires forall p | p in ids :: p in players && players[p].rtgg.Some?
    requires multiset(PlayerPairs(races)) == multiset(RoundRobinPairs(ids))
    ensures (exists r | r in races :: FiledUnder(lower, players, r) == Some(id)) <==>
            id in NamesOf(lower, players, ids[..k] + ids[k + 1..])
  {
    var others := ids[..k] + ids[k + 1..];
    forall p: Pair
      ensures p in PlayerPairs(races) <==> p.0 < p.1 && p.0 in ids && p.1 in ids
    {
      RoundRobinMembers(ids);
      PermutationMembers(PlayerPairs(races), RoundRobinPairs(ids));
    }
    if r :| r in races && FiledUnder(lower, players, r) == Some(id) {
      var i :| 0 <= i < |races| && races[i] == r;
      assert PlayerPairs(races)[i] == (r.p1, r.p2) && (r.p1, r.p2) in PlayerPairs(races);
      OtherThan(ids, k, r.p1);
    }
    if p :| p in others && lower(players[p].rtgg.value) == id {
      OtherThan(ids, k, p);
      assert (p, ids[k]) in PlayerPairs(races);
      var i :| 0 <= i < |races| && PlayerPairs(races)[i] == (p, ids[k]);
      assert races[i] in races && FiledUnder(lower, players, races[i]) == Some(id);
    }
  }
}

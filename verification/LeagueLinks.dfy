/** What the league's invariant means for the services beside it: the event worker never misses a
    start time, and the scanner's search is complete for a season of Swiss brackets. */
module LeagueLinks {
  import opened Wrappers
  import opened Sequences
  import opened BracketRaces
  import opened League
  import opened LeagueInvariant
  import opened LeagueTheorems
  import RaceEvents
  import RaceMatching

  // ----- event content

  datatype ContentError = MissingTimestamp

  /** The texts are given; the choice of status and the times are made here. */
  function GetEventContent(race: RaceRow, info: InfoRow, name: string, location: string, description: Option<string>)
    : Result<RaceEvents.Desired, ContentError>
  {
    if race.state != RaceState.Scheduled then Success(RaceEvents.NoEvent)
    else match info.scheduledFor
      case None => Failure(MissingTimestamp)
      case Some(start) => Success(RaceEvents.Wanted(RaceEvents.Content(name, location, description, start, start + 100 * 60)))
  }

  /** In every reachable database every race with an info row has event content: an event from its
      start to 100 minutes later while it is scheduled, and none before or after. */
  lemma ContentIsNeverMissing(db: Db, j: nat, name: string, location: string, description: Option<string>)
    requires Inv(db) && j < |db.infos|
    ensures var race := db.races[db.infos[j].race];
      var r := GetEventContent(race, db.infos[j], name, location, description);
      && r.Success?
      && (r.value.Wanted? <==> race.state == RaceState.Scheduled)
      && (r.value.Wanted? ==> db.infos[j].scheduledFor == Some(r.value.content.start)
                              && r.value.content.end - r.value.content.start == 6000)
  {
    var i := db.infos[j].race;
    InfoIndexUnique(db.infos, i, j);
  }

  // ----- the scanner's races

  /** The unfinished races of a season that are scheduled before the cutoff. */
  predicate IsOpen(db: Db, s: nat, cutoff: int, j: nat)
    requires References(db) && InfosOk(db.races, db.infos)
  {
    j < |db.infos|
    && db.infos[j].scheduledFor.Some? && db.infos[j].scheduledFor.value < cutoff
    && var race := db.races[db.infos[j].race];
       race.state != RaceState.Finished && db.brackets[race.bracket].season == s
  }

  function ToOpenRace(db: Db, j: nat): RaceMatching.OpenRace
    requires References(db) && InfosOk(db.races, db.infos) && j < |db.infos|
  {
    var race := db.races[db.infos[j].race];
    var scheduled := db.infos[j].scheduledFor;
    RaceMatching.OpenRace(j, if scheduled.Some? then Some(scheduled.value * 1000) else None, race.p1, race.p2)
  }

  function OpenRaces(db: Db, s: nat, cutoff: int, n: nat): (races: seq<RaceMatching.OpenRace>)
    requires References(db) && InfosOk(db.races, db.infos) && n <= |db.infos|
    ensures forall k | 0 <= k < |races| ::
      0 <= races[k].bri < n && IsOpen(db, s, cutoff, races[k].bri) && races[k] == ToOpenRace(db, races[k].bri)
    ensures forall j, k | 0 <= j < k < |races| :: races[j].bri < races[k].bri
  {
    if n == 0 then []
    else OpenRaces(db, s, cutoff, n - 1) + if IsOpen(db, s, cutoff, n - 1) then [ToOpenRace(db, n - 1)] else []
  }

  /** A season of Swiss brackets in which nobody is entered twice, in one bracket or in two. */
  ghost predicate SwissSeason(db: Db, s: nat) {
    && (forall b | 0 <= b < |db.brackets| && db.brackets[b].season == s ::
          db.brackets[b].kind == Swiss && DistinctEntries(db, b))
    && (forall a, b, p | 0 <= a < b < |db.brackets| && db.brackets[a].season == s && db.brackets[b].season == s ::
          !(p in PlayersOf(db.entries, a) && p in PlayersOf(db.entries, b)))
  }

  lemma OpenRacesShareNoPlayer(db: Db, s: nat, i: nat, j: nat)
    requires Inv(db) && SwissSeason(db, s) && i < |db.races| && j < |db.races| && i != j
    requires db.races[i].state != RaceState.Finished && db.races[j].state != RaceState.Finished
    requires db.brackets[db.races[i].bracket].season == s && db.brackets[db.races[j].bracket].season == s
    ensures Disjoint(db.races[i], db.races[j])
  {
    if db.races[i].bracket == db.races[j].bracket {
      if i < j {
        OneOpenRacePerPlayer(db, i, j);
      } else {
        OneOpenRacePerPlayer(db, j, i);
      }
    } else {
      var a, b := db.races[i].bracket, db.races[j].bracket;
      assert db.races[i].p1 in PlayersOf(db.entries, a) && db.races[i].p2 in PlayersOf(db.entries, a);
      assert db.races[j].p1 in PlayersOf(db.entries, b) && db.races[j].p2 in PlayersOf(db.entries, b);
    }
  }

  lemma TwoOpenRaces(db: Db, s: nat, cutoff: int, j: nat, k: nat)
    requires Inv(db) && SwissSeason(db, s) && j < k && IsOpen(db, s, cutoff, j) && IsOpen(db, s, cutoff, k)
    ensures RaceMatching.RacesDisjoint(ToOpenRace(db, j), ToOpenRace(db, k))
  {
    OpenRacesShareNoPlayer(db, s, db.infos[j].race, db.infos[k].race);
  }

  lemma OpenRacesAreDisjoint(db: Db, s: nat, cutoff: int)
    requires Inv(db) && SwissSeason(db, s)
    ensures RaceMatching.AllDisjoint(OpenRaces(db, s, cutoff, |db.infos|))
  {
    var races := OpenRaces(db, s, cutoff, |db.infos|);
    forall j, k | 0 <= j < k < |races|
      ensures RaceMatching.RacesDisjoint(races[j], races[k])
    {
      TwoOpenRaces(db, s, cutoff, races[j].bri, races[k].bri);
    }
  }

  /** Which of the open races of a season the scanner can still see: one with both players known stays
      in its map exactly when no later one has the same first player, by lower-cased name. */
  lemma OpenRaceSurvivesIff(
    db: Db, s: nat, cutoff: int, lower: string -> string, players: map<int, RaceMatching.Player>, i: nat)
    requires References(db) && InfosOk(db.races, db.infos)
    requires i < |OpenRaces(db, s, cutoff, |db.infos|)|
    requires RaceMatching.KnownOf(players, OpenRaces(db, s, cutoff, |db.infos|)[i]).Some?
    ensures var races := OpenRaces(db, s, cutoff, |db.infos|);
      var k := RaceMatching.KnownOf(players, races[i]).value;
      var name := lower(k.p1.rtgg.value);
      var m := RaceMatching.KnownRaces(lower, players, races);
      name in m && m[name] == k <==>
      forall j | i < j < |races| :: RaceMatching.FiledUnder(lower, players, races[j]) != Some(name)
  {
    var races := OpenRaces(db, s, cutoff, |db.infos|);
    assert Distinct(races);
    RaceMatching.SurvivesIffLast(lower, players, races, i);
  }

  /** The race of info row `j` is unfinished, scheduled before the cutoff and in the season. */
  predicate StillOpen(db: Db, s: nat, cutoff: int, j: nat) {
    && j < |db.infos| && db.infos[j].race < |db.races|
    && var race, when := db.races[db.infos[j].race], db.infos[j].scheduledFor;
       && race.state in {RaceState.New, RaceState.Scheduled} && when.Some? && when.value < cutoff
       && race.bracket < |db.brackets| && db.brackets[race.bracket].season == s
  }

  /** The query loses no race and finds no other. */
  lemma {:induction false} OpenRacesExactly(db: Db, s: nat, cutoff: int, n: nat, j: nat)
    requires References(db) && InfosOk(db.races, db.infos) && n <= |db.infos|
    ensures (exists r | r in OpenRaces(db, s, cutoff, n) :: r.bri == j) <==> j < n && StillOpen(db, s, cutoff, j)
  {
    if n > 0 {
      OpenRacesExactly(db, s, cutoff, n - 1, j);
      OneMoreOpenRace(db, s, cutoff, n - 1, j);
    }
  }

  lemma OneMoreOpenRace(db: Db, s: nat, cutoff: int, n: nat, j: nat)
    requires References(db) && InfosOk(db.races, db.infos) && n < |db.infos|
    ensures IsOpen(db, s, cutoff, n) <==> StillOpen(db, s, cutoff, n)
    ensures (exists r | r in OpenRaces(db, s, cutoff, n + 1) :: r.bri == j) <==>
      (exists r | r in OpenRaces(db, s, cutoff, n) :: r.bri == j) || (j == n && IsOpen(db, s, cutoff, n))
  {
    AppendedBri(OpenRaces(db, s, cutoff, n), ToOpenRace(db, n), j);
  }

  lemma AppendedBri(races: seq<RaceMatching.OpenRace>, last: RaceMatching.OpenRace, j: int)
    ensures (exists r | r in races + [last] :: r.bri == j) <==> (exists r | r in races :: r.bri == j) || last.bri == j
    ensures races + [] == races
  {
    assert (races + [last])[|races|] == last;
    assert forall r | r in races :: r in races + [last];
  }

  predicate PassesAllGates(data: RaceMatching.RaceData, goal: string) {
    data.status == "finished" && data.goal == goal && data.started.Some?
  }

  /** In every reachable database and for every season: when a racetime.gg race is matched. It has to be
      finished, have the season's goal and a start time, and one of the open league races has to be
      found, in the order in which the entrants are tried; and these are all open league races. */
  lemma ScannerFindsExactly(
    db: Db, s: nat, cutoff: int, lower: string -> string, players: map<int, RaceMatching.Player>,
    goal: string, data: RaceMatching.RaceData, ids: seq<string>)
    requires References(db) && InfosOk(db.races, db.infos)
    ensures var races := OpenRaces(db, s, cutoff, |db.infos|);
      RaceMatching.Interesting(lower, RaceMatching.KnownRaces(lower, players, races), goal, data, ids).Some? <==>
      && PassesAllGates(data, goal)
      && RaceMatching.SomeFound(lower, players, races, RaceMatching.EntrantMap(lower, data.entrants),
                                ids, data.started.value)
    ensures forall j: nat ::
      (exists r | r in OpenRaces(db, s, cutoff, |db.infos|) :: r.bri == j) <==> StillOpen(db, s, cutoff, j)
  {
    RaceMatching.InterestingExactly(lower, players, OpenRaces(db, s, cutoff, |db.infos|), goal, data, ids);
    forall j: nat
      ensures (exists r | r in OpenRaces(db, s, cutoff, |db.infos|) :: r.bri == j) <==> StillOpen(db, s, cutoff, j)
    {
      OpenRacesExactly(db, s, cutoff, |db.infos|, j);
    }
  }

  /** The player has a racetime.gg name, and an entrant has the same name, whatever the case. */
  predicate Entered(lower: string -> string, players: map<int, RaceMatching.Player>, entrants: seq<RaceMatching.Entrant>, p: int) {
    && p in players && players[p].rtgg.Some?
    && exists e | e in entrants :: lower(e.fullName) == lower(players[p].rtgg.value)
  }

  /** The race of info row `j` is open, its players are two people who entered, and it was not scheduled
      181 minutes or more after the start. */
  predicate Qualifies(
    db: Db, s: nat, cutoff: int, lower: string -> string, players: map<int, RaceMatching.Player>,
    entrants: seq<RaceMatching.Entrant>, started: int, j: nat)
  {
    && StillOpen(db, s, cutoff, j)
    && var race, when := db.races[db.infos[j].race], db.infos[j].scheduledFor.value;
       && Entered(lower, players, entrants, race.p1) && Entered(lower, players, entrants, race.p2)
       && lower(players[race.p1].rtgg.value) != lower(players[race.p2].rtgg.value)
       && when * 1000 - started < 181 * 60 * 1000
  }

  lemma QualifiesIffCandidate(
    db: Db, s: nat, cutoff: int, lower: string -> string, players: map<int, RaceMatching.Player>,
    entrants: seq<RaceMatching.Entrant>, started: int, j: nat)
    requires References(db) && InfosOk(db.races, db.infos) && StillOpen(db, s, cutoff, j)
    ensures Qualifies(db, s, cutoff, lower, players, entrants, started, j) <==>
      var r := ToOpenRace(db, j);
      && RaceMatching.KnownOf(players, r).Some?
      && RaceMatching.Candidate(lower, RaceMatching.EntrantMap(lower, entrants), RaceMatching.KnownOf(players, r).value, started)
  {
    var r := ToOpenRace(db, j);
    if RaceMatching.KnownOf(players, r).Some? {
      var k := RaceMatching.KnownOf(players, r).value;
      RaceMatching.EntrantsAreNamed(lower, entrants, lower(k.p1.rtgg.value));
      RaceMatching.EntrantsAreNamed(lower, entrants, lower(k.p2.rtgg.value));
      RaceMatching.TooOldFrom181Minutes(k.race.scheduled.value, started);
    }
  }

  /** In every reachable database, for a season of Swiss brackets, a racetime.gg race is matched exactly
      when it is finished with the season's goal and a start time, and some unfinished race of the season
      that is scheduled before the cutoff has both players among the entrants and passes the time test,
      in whatever order the entrants are tried. */
  lemma ScannerIsComplete(
    db: Db, s: nat, cutoff: int, lower: string -> string, players: map<int, RaceMatching.Player>,
    goal: string, data: RaceMatching.RaceData, ids: seq<string>)
    requires Inv(db) && SwissSeason(db, s) && RaceMatching.NamesIdentify(lower, players)
    requires RaceMatching.Enumerates(ids, RaceMatching.EntrantMap(lower, data.entrants))
    ensures var races := OpenRaces(db, s, cutoff, |db.infos|);
      RaceMatching.Interesting(lower, RaceMatching.KnownRaces(lower, players, races), goal, data, ids).Some? <==>
      && PassesAllGates(data, goal)
      && exists j: nat :: Qualifies(db, s, cutoff, lower, players, data.entrants, data.started.value, j)
  {
    OpenRacesAreDisjoint(db, s, cutoff);
    if RaceMatching.PassesGates(data, goal) {
      RaceMatching.ScannerFindsRace(lower, players, OpenRaces(db, s, cutoff, |db.infos|),
                                    RaceMatching.EntrantMap(lower, data.entrants), ids, data.started.value);
      SomeQualifiesIff(db, s, cutoff, lower, players, data.entrants, data.started.value);
    }
  }

  /** A match is of an info row that qualifies, with player 1's entrant first and player 2's second: each
      entrant's result is that player's. */
  lemma MatchNamesTheRow(
    db: Db, s: nat, cutoff: int, lower: string -> string, players: map<int, RaceMatching.Player>,
    goal: string, data: RaceMatching.RaceData, ids: seq<string>) returns (j: nat)
    requires References(db) && InfosOk(db.races, db.infos)
    requires RaceMatching.Interesting(
      lower, RaceMatching.KnownRaces(lower, players, OpenRaces(db, s, cutoff, |db.infos|)), goal, data, ids).Some?
    ensures PassesAllGates(data, goal) && Qualifies(db, s, cutoff, lower, players, data.entrants, data.started.value, j)
    ensures var known := RaceMatching.KnownRaces(lower, players, OpenRaces(db, s, cutoff, |db.infos|));
      var m := RaceMatching.Interesting(lower, known, goal, data, ids).value;
      var race := db.races[db.infos[j].race];
      && m.known.race.bri == j && m.e1 in data.entrants && m.e2 in data.entrants
      && lower(m.e1.fullName) == lower(players[race.p1].rtgg.value)
      && lower(m.e2.fullName) == lower(players[race.p2].rtgg.value)
  {
    var races := OpenRaces(db, s, cutoff, |db.infos|);
    var known, all := RaceMatching.KnownRaces(lower, players, races), RaceMatching.EntrantMap(lower, data.entrants);
    var m := RaceMatching.Interesting(lower, known, goal, data, ids).value;
    RaceMatching.SearchIsSound(lower, all, ids, known, data.started.value);
    RaceMatching.MatchNamesBothPlayers(lower, data.entrants, ids, known, data.started.value);
    var id :| id in ids && id in known && known[id] == m.known;
    RaceMatching.KnownRacesAreFiled(lower, players, races, id);
    j := m.known.race.bri;
    OpenRacesExactly(db, s, cutoff, |db.infos|, j);
    QualifiesIffCandidate(db, s, cutoff, lower, players, data.entrants, data.started.value, j);
  }

  lemma SomeQualifiesIff(
    db: Db, s: nat, cutoff: int, lower: string -> string, players: map<int, RaceMatching.Player>,
    entrants: seq<RaceMatching.Entrant>, started: int)
    requires References(db) && InfosOk(db.races, db.infos)
    ensures (exists j: nat :: Qualifies(db, s, cutoff, lower, players, entrants, started, j)) <==>
      exists r | r in OpenRaces(db, s, cutoff, |db.infos|) ::
        && RaceMatching.KnownOf(players, r).Some?
        && RaceMatching.Candidate(lower, RaceMatching.EntrantMap(lower, entrants), RaceMatching.KnownOf(players, r).value, started)
  {
    var races := OpenRaces(db, s, cutoff, |db.infos|);
    if j: nat :| Qualifies(db, s, cutoff, lower, players, entrants, started, j) {
      OpenRacesExactly(db, s, cutoff, |db.infos|, j);
      var r :| r in races && r.bri == j;
      QualifiesIffCandidate(db, s, cutoff, lower, players, entrants, started, j);
      assert r == ToOpenRace(db, j);
    }
    forall r | r in races
      ensures Qualifies(db, s, cutoff, lower, players, entrants, started, r.bri) <==>
        && RaceMatching.KnownOf(players, r).Some?
        && RaceMatching.Candidate(lower, RaceMatching.EntrantMap(lower, entrants), RaceMatching.KnownOf(players, r).value, started)
    {
      OpenRacesExactly(db, s, cutoff, |db.infos|, r.bri);
      QualifiesIffCandidate(db, s, cutoff, lower, players, entrants, started, r.bri);
    }
  }
}

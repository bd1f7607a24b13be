/** The invariant that every command keeps. It says how the three state machines (season, bracket,
    race) constrain each other, how rounds are numbered, and who races whom in a round. */
module LeagueInvariant {
  import opened Wrappers
  import opened Results
  import opened Sequences
  import opened BracketRaces
  import opened Pairings
  import opened League

  /** The pairs of a round, in the order of insertion. */
  function PairsIn(races: seq<RaceRow>, r: nat): seq<Pair> {
    if races == [] then []
    else
      var n := |races| - 1;
      PairsIn(races[..n], r) + if races[n].round == r then [(races[n].p1, races[n].p2)] else []
  }

  ghost predicate DistinctEntries(db: Db, b: nat) {
    Distinct(PlayersOf(db.entries, b))
  }

  /** All races of the bracket are finished. */
  predicate BracketDone(db: Db, b: nat) {
    forall i | 0 <= i < |db.races| && db.races[i].bracket == b :: db.races[i].state == RaceState.Finished
  }

  /** Everyone in the pairs is entered in the bracket. */
  predicate AllEntered(db: Db, b: nat, pairs: seq<Pair>) {
    forall p | p in Flatten(pairs) :: p in EnteredIn(db.entries, b)
  }

  // ----- the clauses

  predicate References(db: Db) {
    && (forall b | 0 <= b < |db.brackets| :: db.brackets[b].season < |db.seasons|)
    && (forall r | 0 <= r < |db.rounds| :: db.rounds[r].bracket < |db.brackets|)
    && (forall i | 0 <= i < |db.races| ::
          db.races[i].round < |db.rounds| && db.races[i].bracket == db.rounds[db.races[i].round].bracket)
  }

  /** A finished season has a finish time and only finished brackets. */
  predicate SeasonsOk(db: Db)
    requires References(db)
  {
    && (forall s | 0 <= s < |db.seasons| :: db.seasons[s].state == SeasonState.Finished <==> db.seasons[s].finished.Some?)
    && (forall b | 0 <= b < |db.brackets| ::
          db.seasons[db.brackets[b].season].state == SeasonState.Finished ==> db.brackets[b].state == BracketState.Finished)
  }

  /** A finished bracket has only finished races. An unstarted one has no races, and no rounds unless
      it is a round robin whose generator aborted; a started one has some rounds, and a round robin has
      at most one. */
  predicate BracketsOk(db: Db)
    requires References(db)
  {
    && (forall i | 0 <= i < |db.races| ::
          db.brackets[db.races[i].bracket].state == BracketState.Finished ==> db.races[i].state == RaceState.Finished)
    && (forall i | 0 <= i < |db.races| :: db.brackets[db.races[i].bracket].state != BracketState.Unstarted)
    && (forall b | 0 <= b < |db.brackets| ::
          && (db.brackets[b].state == BracketState.Started ==> |RoundIds(db.rounds, b)| >= 1)
          && (db.brackets[b].state == BracketState.Unstarted ==> RoundIds(db.rounds, b) == [] || db.brackets[b].kind == RoundRobin)
          && (db.brackets[b].kind == RoundRobin ==> |RoundIds(db.rounds, b)| <= 1))
  }

  predicate RacesConsistent(races: seq<RaceRow>) {
    forall i | 0 <= i < |races| :: Consistent(races[i])
  }

  /** The rounds of a bracket are numbered in the order in which they were made, from 1. */
  predicate RoundNumbers(rounds: seq<RoundRow>) {
    forall r | 0 <= r < |rounds| :: rounds[r].num == |RoundIds(rounds[..r], rounds[r].bracket)| + 1
  }

  /** Every race of a round is finished once the bracket has a later round. */
  predicate EarlierFinished(db: Db)
    requires References(db)
  {
    forall i, r | 0 <= i < |db.races| && db.races[i].round < r < |db.rounds| && db.rounds[r].bracket == db.races[i].bracket ::
      db.races[i].state == RaceState.Finished
  }

  predicate Entrants(db: Db) {
    forall i | 0 <= i < |db.races| ::
      && db.races[i].p1 in PlayersOf(db.entries, db.races[i].bracket)
      && db.races[i].p2 in PlayersOf(db.entries, db.races[i].bracket)
  }

  /** A round robin's round holds all pairs of the players entered at some time; a Swiss round is a
      matching, the first one provided that nobody is entered twice. */
  ghost predicate Shapes(db: Db)
    requires References(db)
  {
    forall r | 0 <= r < |db.rounds| :: RoundShape(db, db.rounds[r].bracket, db.rounds[r].num, PairsIn(db.races, r))
  }

  /** The pairs are all pairs of the first `n` players entered, who are all different. */
  ghost predicate AllPairsOfFirst(players: seq<int>, n: int, pairs: seq<Pair>) {
    0 <= n <= |players| && Distinct(players[..n]) && pairs == RoundRobinPairs(players[..n])
  }

  ghost predicate RoundShape(db: Db, b: nat, num: int, pairs: seq<Pair>)
    requires b < |db.brackets|
  {
    match db.brackets[b].kind
    case RoundRobin => exists n :: AllPairsOfFirst(PlayersOf(db.entries, b), n, pairs)
    case Swiss => num >= 2 || DistinctEntries(db, b) ==> Matching(pairs)
  }

  /** A race has at most one info row, and a scheduled race has one with a time. */
  predicate InfosOk(races: seq<RaceRow>, infos: seq<InfoRow>) {
    && (forall j | 0 <= j < |infos| :: infos[j].race < |races|)
    && (forall j, k | 0 <= j < k < |infos| :: infos[j].race != infos[k].race)
    && (forall i | 0 <= i < |races| && races[i].state == RaceState.Scheduled ::
          var j := InfoIndex(infos, i); j < |infos| && infos[j].scheduledFor.Some?)
  }

  ghost predicate Inv(db: Db) {
    && References(db)
    && SeasonsOk(db)
    && BracketsOk(db)
    && RacesConsistent(db.races)
    && RoundNumbers(db.rounds)
    && EarlierFinished(db)
    && Entrants(db)
    && Shapes(db)
    && InfosOk(db.races, db.infos)
  }

  // ----- queries

  lemma {:induction false} RoundIdsMembers(rounds: seq<RoundRow>, b: nat, r: nat)
    ensures r in RoundIds(rounds, b) <==> r < |rounds| && rounds[r].bracket == b
  {
    if rounds != [] {
      RoundIdsMembers(rounds[..|rounds| - 1], b, r);
    }
  }

  lemma {:induction false} RoundNumsAreConsecutive(rounds: seq<RoundRow>, b: nat)
    requires RoundNumbers(rounds)
    ensures forall k | 0 <= k < |RoundIds(rounds, b)| :: rounds[RoundIds(rounds, b)[k]].num == k + 1
    ensures forall j, k | 0 <= j < k < |RoundIds(rounds, b)| :: RoundIds(rounds, b)[j] < RoundIds(rounds, b)[k]
  {
    if rounds != [] {
      var n := |rounds| - 1;
      forall r | 0 <= r < n
        ensures rounds[..n][r].num == |RoundIds(rounds[..n][..r], rounds[..n][r].bracket)| + 1
      {
        assert rounds[..n][..r] == rounds[..r];
      }
      RoundNumsAreConsecutive(rounds[..n], b);
    }
  }

  lemma {:induction false} InsertLast(rounds: seq<RoundRow>, ids: seq<nat>, r: nat)
    requires r < |rounds| && Within(ids, |rounds|)
    requires forall k | 0 <= k < |ids| :: rounds[ids[k]].num < rounds[r].num
    ensures InsertByNum(rounds, ids, r) == ids + [r]
  {
    if ids != [] {
      InsertLast(rounds, ids[1..], r);
      assert ids == [ids[0]] + ids[1..];
    }
  }

  lemma {:induction false} SortedAlready(rounds: seq<RoundRow>, ids: seq<nat>)
    requires Within(ids, |rounds|)
    requires forall j, k | 0 <= j < k < |ids| :: rounds[ids[j]].num < rounds[ids[k]].num
    ensures SortByNum(rounds, ids) == ids
  {
    if ids != [] {
      var n := |ids| - 1;
      var front := ids[..n];
      assert Within(front, |rounds|) && ids == front + [ids[n]];
      SortedAlready(rounds, front);
      InsertLast(rounds, front, ids[n]);
    }
  }

  /** Sorting by number gives the rounds in the order in which they were made, numbered 1 to k. */
  lemma RoundsAreOneToK(db: Db, b: nat)
    requires RoundNumbers(db.rounds)
    ensures RoundsOf(db, b) == RoundIds(db.rounds, b)
    ensures forall k | 0 <= k < |RoundsOf(db, b)| :: db.rounds[RoundsOf(db, b)[k]].num == k + 1
  {
    RoundNumsAreConsecutive(db.rounds, b);
    SortedAlready(db.rounds, RoundIds(db.rounds, b));
  }

  lemma {:induction false} RacesInMembers(races: seq<RaceRow>, r: nat)
    ensures forall i | 0 <= i < |races| && races[i].round == r :: races[i] in RacesIn(races, r)
    ensures forall race | race in RacesIn(races, r) :: race in races && race.round == r
  {
    if races != [] {
      RacesInMembers(races[..|races| - 1], r);
      assert races == races[..|races| - 1] + [races[|races| - 1]];
    }
  }

  lemma {:induction false} PairsInAppend(races: seq<RaceRow>, more: seq<RaceRow>, r: nat)
    ensures PairsIn(races + more, r) == PairsIn(races, r) + PairsIn(more, r)
  {
    if more == [] {
      assert races + more == races;
    } else {
      var n := |more| - 1;
      assert (races + more)[..|races| + n] == races + more[..n];
      PairsInAppend(races, more[..n], r);
    }
  }

  lemma {:induction false} PairsInNewRaces(b: nat, r: nat, pairs: seq<Pair>, other: nat)
    ensures PairsIn(NewRaces(b, r, pairs), other) == if other == r then pairs else []
  {
    if pairs != [] {
      var n := |pairs| - 1;
      assert NewRaces(b, r, pairs)[..n] == NewRaces(b, r, pairs[..n]);
      PairsInNewRaces(b, r, pairs[..n], other);
    }
  }

  lemma {:induction false} PairsInAbsent(races: seq<RaceRow>, r: nat)
    requires forall i | 0 <= i < |races| :: races[i].round != r
    ensures PairsIn(races, r) == []
  {
    if races != [] {
      PairsInAbsent(races[..|races| - 1], r);
    }
  }

  /** Same bracket, same round, same players. */
  predicate SameMatch(a: RaceRow, b: RaceRow) {
    (a.bracket, a.round, a.p1, a.p2) == (b.bracket, b.round, b.p1, b.p2)
  }

  lemma {:induction false} PairsInUpdate(races: seq<RaceRow>, i: nat, row: RaceRow, r: nat)
    requires i < |races| && SameMatch(races[i], row)
    ensures PairsIn(races[i := row], r) == PairsIn(races, r)
  {
    var n := |races| - 1;
    if i == n {
      assert races[i := row][..n] == races[..n];
    } else {
      assert races[i := row][..n] == races[..n][i := row];
      PairsInUpdate(races[..n], i, row, r);
    }
  }

  // ----- what the commands keep

  lemma InitialInv()
    ensures Inv(EMPTY_DB)
  {
  }

  lemma WithInfoOk(races: seq<RaceRow>, infos: seq<InfoRow>, i: nat)
    requires InfosOk(races, infos) && i < |races|
    ensures InfosOk(races, WithInfo(infos, i))
    ensures InfoIndex(infos, i) < |WithInfo(infos, i)|
    ensures forall j | 0 <= j < |WithInfo(infos, i)| && j != InfoIndex(infos, i) :: WithInfo(infos, i)[j].race != i
  {
    var after := WithInfo(infos, i);
    if after != infos {
      assert forall j | 0 <= j < |infos| :: after[j] == infos[j];
      forall k | 0 <= k < |races| && races[k].state == RaceState.Scheduled
        ensures var j := InfoIndex(after, k); j < |after| && after[j].scheduledFor.Some?
      {
        InfoIndexUnique(after, k, InfoIndex(infos, k));
      }
    }
  }

  lemma InfoIndexUnique(infos: seq<InfoRow>, i: nat, j: nat)
    requires j < |infos| && infos[j].race == i
    requires forall k | 0 <= k < |infos| && k != j :: infos[k].race != i
    ensures InfoIndex(infos, i) == j
  {
  }

  lemma UpdateRaceKeepsShapes(db: Db, after: Db, i: nat, row: RaceRow)
    requires References(db) && References(after) && Shapes(db)
    requires i < |db.races| && SameMatch(db.races[i], row)
    requires after == db.(races := db.races[i := row], infos := after.infos)
    ensures Shapes(after)
  {
    forall r | 0 <= r < |db.rounds|
      ensures RoundShape(after, after.rounds[r].bracket, after.rounds[r].num, PairsIn(after.races, r))
    {
      PairsInUpdate(db.races, i, row, r);
      assert RoundShape(db, db.rounds[r].bracket, db.rounds[r].num, PairsIn(db.races, r));
    }
  }

  lemma UpdateRaceKeepsStates(db: Db, after: Db, i: nat, row: RaceRow)
    requires References(db) && References(after)
    requires SeasonsOk(db) && BracketsOk(db) && EarlierFinished(db) && Entrants(db)
    requires i < |db.races| && SameMatch(db.races[i], row)
    requires db.races[i].state == RaceState.Finished ==> row.state == RaceState.Finished
    requires after == db.(races := db.races[i := row], infos := after.infos)
    ensures SeasonsOk(after) && BracketsOk(after) && EarlierFinished(after) && Entrants(after)
  {
  }

  lemma UpdateRaceKeepsInv(db: Db, i: nat, row: RaceRow, infos: seq<InfoRow>)
    requires Inv(db) && i < |db.races|
    requires SameMatch(db.races[i], row) && Consistent(row)
    requires db.races[i].state == RaceState.Finished ==> row.state == RaceState.Finished
    requires InfosOk(db.races[i := row], infos)
    ensures Inv(db.(races := db.races[i := row], infos := infos))
  {
    var after := db.(races := db.races[i := row], infos := infos);
    UpdateRaceKeepsRows(db, after, i, row);
    UpdateRaceKeepsShapes(db, after, i, row);
    UpdateRaceKeepsStates(db, after, i, row);
  }

  lemma UpdateRaceKeepsRows(db: Db, after: Db, i: nat, row: RaceRow)
    requires References(db) && RacesConsistent(db.races)
    requires i < |db.races| && SameMatch(db.races[i], row) && Consistent(row)
    requires after == db.(races := db.races[i := row], infos := after.infos)
    ensures References(after) && RacesConsistent(after.races)
  {
  }

  /** A row for race `i` put in the place of its old one. */
  lemma PlacedInfoOk(races: seq<RaceRow>, infos: seq<InfoRow>, i: nat, j: nat, info: InfoRow, row: RaceRow)
    requires InfosOk(races, infos) && i < |races| && j < |infos|
    requires infos[j].race == i == info.race && info.scheduledFor.Some?
    ensures InfosOk(races[i := row], infos[j := info])
  {
    var after := infos[j := info];
    InfoIndexUnique(after, i, j);
    forall k | 0 <= k < |races| && k != i && races[k].state == RaceState.Scheduled
      ensures var x := InfoIndex(after, k); x < |after| && after[x].scheduledFor.Some?
    {
      InfoIndexUnique(after, k, InfoIndex(infos, k));
    }
  }

  lemma ScheduleInfosOk(db: Db, i: nat, when: int, row: RaceRow)
    requires InfosOk(db.races, db.infos) && i < |db.races|
    ensures var infos := WithInfo(db.infos, i)[InfoIndex(db.infos, i) := InfoRow(i, Some(when), None)];
      InfosOk(db.races[i := row], infos)
  {
    WithInfoOk(db.races, db.infos, i);
    PlacedInfoOk(db.races, WithInfo(db.infos, i), i, InfoIndex(db.infos, i), InfoRow(i, Some(when), None), row);
  }

  lemma ScheduleKeepsInv(db: Db, i: nat, when: int)
    requires Inv(db) && ScheduleRace(db, i, when).Success?
    ensures Inv(ScheduleRace(db, i, when).value)
  {
    var row := Rescheduled(db.races[i]).value;
    ScheduleInfosOk(db, i, when, row);
    assert Consistent(db.races[i]);
    UpdateRaceKeepsInv(db, i, row, ScheduleRace(db, i, when).value.infos);
  }

  lemma InfosKeepInv(db: Db, infos: seq<InfoRow>)
    requires Inv(db) && InfosOk(db.races, infos)
    ensures Inv(db.(infos := infos))
  {
    var after := db.(infos := infos);
    assert References(after);
    forall r | 0 <= r < |db.rounds|
      ensures RoundShape(after, after.rounds[r].bracket, after.rounds[r].num, PairsIn(after.races, r))
    {
      assert RoundShape(db, db.rounds[r].bracket, db.rounds[r].num, PairsIn(db.races, r));
    }
  }

  lemma ReportInfosOk(races: seq<RaceRow>, infos: seq<InfoRow>, i: nat, row: RaceRow)
    requires InfosOk(races, infos) && i < |races| && row.state == RaceState.Finished
    ensures InfosOk(races[i := row], WithInfo(infos, i))
  {
    WithInfoOk(races, infos, i);
    forall k | 0 <= k < |races| && races[i := row][k].state == RaceState.Scheduled
      ensures var j := InfoIndex(WithInfo(infos, i), k);
        j < |WithInfo(infos, i)| && WithInfo(infos, i)[j].scheduledFor.Some?
    {
      assert races[k].state == RaceState.Scheduled;
    }
  }

  lemma ReportKeepsInv(db: Db, i: nat, r1: PlayerResult, r2: PlayerResult, force: bool)
    requires Inv(db) && ReportRace(db, i, r1, r2, force).Success?
    ensures Inv(ReportRace(db, i, r1, r2, force).value)
  {
    var row := WithResults(db.races[i], Some(r1), Some(r2), force).value;
    assert Consistent(db.races[i]);
    ReportInfosOk(db.races, db.infos, i, row);
    UpdateRaceKeepsInv(db, i, row, WithInfo(db.infos, i));
  }

  /** Changes to seasons, brackets and entries: every race and round stays as it is. */
  lemma KeepsShapes(db: Db, after: Db)
    requires References(db) && References(after) && Shapes(db)
    requires after.rounds == db.rounds && after.races == db.races
    requires forall b | 0 <= b < |db.brackets| :: b < |after.brackets| && after.brackets[b].kind == db.brackets[b].kind
    requires forall b | 0 <= b < |db.brackets| :: PlayersOf(db.entries, b) <= PlayersOf(after.entries, b)
    ensures Shapes(after)
  {
    forall r | 0 <= r < |db.rounds|
      ensures RoundShape(after, after.rounds[r].bracket, after.rounds[r].num, PairsIn(after.races, r))
    {
      assert RoundShape(db, db.rounds[r].bracket, db.rounds[r].num, PairsIn(db.races, r));
      MoreEntriesKeepShape(db, after, db.rounds[r].bracket, db.rounds[r].num, PairsIn(db.races, r));
    }
  }

  lemma MoreEntriesKeepShape(db: Db, after: Db, b: nat, num: int, pairs: seq<Pair>)
    requires b < |db.brackets| && b < |after.brackets| && after.brackets[b].kind == db.brackets[b].kind
    requires PlayersOf(db.entries, b) <= PlayersOf(after.entries, b)
    requires RoundShape(db, b, num, pairs)
    ensures RoundShape(after, b, num, pairs)
  {
    var was, now := PlayersOf(db.entries, b), PlayersOf(after.entries, b);
    assert forall k | 0 <= k < |was| :: was[k] == now[k];
    if db.brackets[b].kind == RoundRobin {
      var n :| AllPairsOfFirst(was, n, pairs);
      assert now[..n] == was[..n];
      assert AllPairsOfFirst(now, n, pairs);
    }
  }

  lemma SetSeasonKeepsInv(db: Db, s: nat, target: SeasonState, now: int)
    requires Inv(db) && SetSeasonState(db, s, target, now).Success?
    ensures Inv(SetSeasonState(db, s, target, now).value)
  {
    var after := SetSeasonState(db, s, target, now).value;
    assert References(after);
    KeepsShapes(db, after);
    forall b | 0 <= b < |db.brackets| && after.seasons[db.brackets[b].season].state == SeasonState.Finished
      ensures db.brackets[b].state == BracketState.Finished
    {
      assert db.brackets[b] in db.brackets;
    }
  }

  lemma CreateBracketKeepsStates(db: Db, s: nat, kind: BracketType)
    requires References(db) && SeasonsOk(db) && BracketsOk(db) && CreateBracket(db, s, kind).Success?
    requires References(CreateBracket(db, s, kind).value)
    ensures SeasonsOk(CreateBracket(db, s, kind).value) && BracketsOk(CreateBracket(db, s, kind).value)
  {
    var after := CreateBracket(db, s, kind).value;
    NoRounds(db.rounds, |db.brackets|);
    forall b | 0 <= b < |after.brackets|
      ensures after.brackets[b].state == BracketState.Started ==> |RoundIds(db.rounds, b)| >= 1
      ensures after.brackets[b].state == BracketState.Unstarted ==>
        RoundIds(db.rounds, b) == [] || after.brackets[b].kind == RoundRobin
      ensures after.brackets[b].kind == RoundRobin ==> |RoundIds(db.rounds, b)| <= 1
    {
      if b < |db.brackets| {
        assert after.brackets[b] == db.brackets[b];
      }
    }
  }

  lemma CreateBracketKeepsInv(db: Db, s: nat, kind: BracketType)
    requires Inv(db) && CreateBracket(db, s, kind).Success?
    ensures Inv(CreateBracket(db, s, kind).value)
  {
    var after := CreateBracket(db, s, kind).value;
    assert References(after);
    KeepsShapes(db, after);
    CreateBracketKeepsStates(db, s, kind);
  }

  lemma {:induction false} NoRounds(rounds: seq<RoundRow>, b: nat)
    requires forall r | 0 <= r < |rounds| :: rounds[r].bracket != b
    ensures RoundIds(rounds, b) == []
  {
    if rounds != [] {
      NoRounds(rounds[..|rounds| - 1], b);
    }
  }

  lemma {:induction false} PlayersAppend(entries: seq<EntryRow>, e: EntryRow, b: nat)
    ensures PlayersOf(entries + [e], b) == PlayersOf(entries, b) + if e.bracket == b then [e.player] else []
  {
    assert (entries + [e])[..|entries|] == entries;
  }

  lemma AddPlayerKeepsInv(db: Db, b: nat, player: int)
    requires Inv(db) && AddPlayer(db, b, player).Success?
    ensures Inv(AddPlayer(db, b, player).value)
  {
    var after := AddPlayer(db, b, player).value;
    var e := EntryRow(b, player);
    assert References(after);
    forall i | 0 <= i < |db.races|
      ensures db.races[i].p1 in PlayersOf(after.entries, db.races[i].bracket)
      ensures db.races[i].p2 in PlayersOf(after.entries, db.races[i].bracket)
    {
      PlayersAppend(db.entries, e, db.races[i].bracket);
    }
    forall x | 0 <= x < |db.brackets|
      ensures PlayersOf(db.entries, x) <= PlayersOf(after.entries, x)
    {
      PlayersAppend(db.entries, e, x);
    }
    KeepsShapes(db, after);
  }

  lemma FinishBracketKeepsInv(db: Db, b: nat)
    requires Inv(db) && FinishBracket(db, b).Success?
    ensures Inv(FinishBracket(db, b).value)
  {
    FinishBracketKeepsRows(db, b);
    KeepsShapes(db, FinishBracket(db, b).value);
    FinishBracketKeepsStates(db, b);
  }

  lemma FinishBracketKeepsRows(db: Db, b: nat)
    requires References(db) && FinishBracket(db, b).Success?
    ensures var after := FinishBracket(db, b).value;
      && References(after) && after == db.(brackets := after.brackets)
      && |after.brackets| == |db.brackets|
      && forall x | 0 <= x < |db.brackets| :: after.brackets[x].kind == db.brackets[x].kind
  {
  }

  lemma FinishBracketKeepsStates(db: Db, b: nat)
    requires References(db) && RoundNumbers(db.rounds) && SeasonsOk(db) && BracketsOk(db) && EarlierFinished(db)
    requires FinishBracket(db, b).Success? && References(FinishBracket(db, b).value)
    ensures var after := FinishBracket(db, b).value; SeasonsOk(after) && BracketsOk(after) && EarlierFinished(after)
  {
    forall i | 0 <= i < |db.races| && db.races[i].bracket == b
      ensures db.races[i].state == RaceState.Finished
    {
      FinishedByRounds(db, b, i);
    }
  }

  lemma FinishedByRounds(db: Db, b: nat, i: nat)
    requires References(db) && RoundNumbers(db.rounds)
    requires i < |db.races| && db.races[i].bracket == b
    requires forall r | r in RoundsOf(db, b) :: AllFinished(RacesIn(db.races, r))
    ensures db.races[i].state == RaceState.Finished
  {
    var r := db.races[i].round;
    RoundsAreOneToK(db, b);
    RoundIdsMembers(db.rounds, b, r);
    assert AllFinished(RacesIn(db.races, r));
    RacesInMembers(db.races, r);
    assert db.races[i] in RacesIn(db.races, r);
  }

  // ----- generating pairings

  /** What the generators establish before they write the round. */
  ghost predicate ReadyFor(db: Db, b: nat, num: int, pairs: seq<Pair>)
    requires References(db)
  {
    && b < |db.brackets| && db.brackets[b].state != BracketState.Finished
    && num == |RoundIds(db.rounds, b)| + 1
    && (db.brackets[b].kind == RoundRobin ==> num == 1)
    && BracketDone(db, b)
    && AllEntered(db, b, pairs)
    && RoundShape(db, b, num, pairs)
  }

  lemma WithRoundReferences(db: Db, b: nat, num: int, pairs: seq<Pair>)
    requires References(db) && b < |db.brackets|
    ensures References(WithRound(db, b, num, pairs))
  {
    var after := WithRound(db, b, num, pairs);
    forall i | 0 <= i < |after.races|
      ensures after.races[i].round < |after.rounds| && after.races[i].bracket == after.rounds[after.races[i].round].bracket
    {
      if i >= |db.races| {
        assert after.races[i] == NewRaces(b, |db.rounds|, pairs)[i - |db.races|];
      } else {
        assert after.races[i] == db.races[i];
      }
    }
  }

  lemma WithRoundPairs(db: Db, b: nat, num: int, pairs: seq<Pair>, r: nat)
    requires References(db) && b < |db.brackets|
    ensures PairsIn(WithRound(db, b, num, pairs).races, r) == if r == |db.rounds| then pairs else PairsIn(db.races, r)
  {
    PairsInAppend(db.races, NewRaces(b, |db.rounds|, pairs), r);
    PairsInNewRaces(b, |db.rounds|, pairs, r);
    if r == |db.rounds| {
      PairsInAbsent(db.races, r);
    }
  }

  lemma SameRoundShape(db: Db, after: Db, b: nat, num: int, pairs: seq<Pair>)
    requires b < |db.brackets| == |after.brackets| && after.brackets[b].kind == db.brackets[b].kind
    requires after.entries == db.entries
    requires RoundShape(db, b, num, pairs)
    ensures RoundShape(after, b, num, pairs)
  {
  }

  lemma WithRoundShapes(db: Db, b: nat, num: int, pairs: seq<Pair>)
    requires References(db) && Shapes(db) && ReadyFor(db, b, num, pairs)
    requires References(WithRound(db, b, num, pairs))
    ensures Shapes(WithRound(db, b, num, pairs))
  {
    var after := WithRound(db, b, num, pairs);
    forall r | 0 <= r < |after.rounds|
      ensures RoundShape(after, after.rounds[r].bracket, after.rounds[r].num, PairsIn(after.races, r))
    {
      WithRoundPairs(db, b, num, pairs, r);
      if r == |db.rounds| {
        SameRoundShape(db, after, b, num, pairs);
      } else {
        SameRoundShape(db, after, db.rounds[r].bracket, db.rounds[r].num, PairsIn(db.races, r));
      }
    }
  }

  lemma PairIsEntered(db: Db, b: nat, pairs: seq<Pair>, k: nat)
    requires AllEntered(db, b, pairs) && k < |pairs|
    ensures pairs[k].0 in PlayersOf(db.entries, b) && pairs[k].1 in PlayersOf(db.entries, b)
  {
    FlattenAt(pairs, k);
    assert pairs[k].0 in Flatten(pairs) && pairs[k].1 in Flatten(pairs);
  }

  lemma WithRoundEntrants(db: Db, b: nat, num: int, pairs: seq<Pair>)
    requires References(db) && Entrants(db) && b < |db.brackets| && AllEntered(db, b, pairs)
    ensures Entrants(WithRound(db, b, num, pairs))
  {
    var after := WithRound(db, b, num, pairs);
    forall i | 0 <= i < |after.races|
      ensures after.races[i].p1 in PlayersOf(after.entries, after.races[i].bracket)
      ensures after.races[i].p2 in PlayersOf(after.entries, after.races[i].bracket)
    {
      if i >= |db.races| {
        var k := i - |db.races|;
        assert after.races[i] == NewRaces(b, |db.rounds|, pairs)[k];
        PairIsEntered(db, b, pairs, k);
      } else {
        assert after.races[i] == db.races[i];
      }
    }
  }

  lemma WithRoundNumbers(db: Db, b: nat, num: int, pairs: seq<Pair>)
    requires RoundNumbers(db.rounds) && b < |db.brackets| && num == |RoundIds(db.rounds, b)| + 1
    ensures RoundNumbers(WithRound(db, b, num, pairs).rounds)
  {
    var rounds := db.rounds + [RoundRow(num, b)];
    forall r | 0 <= r < |rounds|
      ensures rounds[r].num == |RoundIds(rounds[..r], rounds[r].bracket)| + 1
    {
      if r < |db.rounds| {
        assert rounds[..r] == db.rounds[..r];
      } else {
        assert rounds[..r] == db.rounds;
      }
    }
  }

  lemma WithRoundIds(db: Db, b: nat, num: int, pairs: seq<Pair>, x: nat)
    requires b < |db.brackets|
    ensures RoundIds(WithRound(db, b, num, pairs).rounds, x) == RoundIds(db.rounds, x) + if x == b then [|db.rounds|] else []
  {
    assert (db.rounds + [RoundRow(num, b)])[..|db.rounds|] == db.rounds;
  }

  lemma WithRoundBrackets(db: Db, b: nat, num: int, pairs: seq<Pair>)
    requires References(db) && BracketsOk(db) && ReadyFor(db, b, num, pairs)
    requires References(WithRound(db, b, num, pairs))
    ensures BracketsOk(WithRound(db, b, num, pairs))
  {
    var after := WithRound(db, b, num, pairs);
    forall i | 0 <= i < |after.races|
      ensures after.brackets[after.races[i].bracket].state == BracketState.Finished ==> after.races[i].state == RaceState.Finished
    {
      if i < |db.races| {
        assert after.races[i] == db.races[i];
      } else {
        assert after.races[i] == NewRaces(b, |db.rounds|, pairs)[i - |db.races|];
      }
    }
    forall x | 0 <= x < |db.brackets|
      ensures after.brackets[x].state == BracketState.Started ==> |RoundIds(after.rounds, x)| >= 1
      ensures after.brackets[x].state == BracketState.Unstarted ==>
        RoundIds(after.rounds, x) == [] || after.brackets[x].kind == RoundRobin
      ensures after.brackets[x].kind == RoundRobin ==> |RoundIds(after.rounds, x)| <= 1
    {
      WithRoundIds(db, b, num, pairs, x);
    }
  }

  lemma WithRoundSeasons(db: Db, b: nat, num: int, pairs: seq<Pair>)
    requires References(db) && SeasonsOk(db) && b < |db.brackets| && db.brackets[b].state != BracketState.Finished
    requires References(WithRound(db, b, num, pairs))
    ensures SeasonsOk(WithRound(db, b, num, pairs))
  {
  }

  lemma WithRoundRaces(db: Db, b: nat, num: int, pairs: seq<Pair>)
    requires References(db) && RacesConsistent(db.races) && EarlierFinished(db) && InfosOk(db.races, db.infos)
    requires ReadyFor(db, b, num, pairs)
    requires References(WithRound(db, b, num, pairs))
    ensures var after := WithRound(db, b, num, pairs);
      RacesConsistent(after.races) && EarlierFinished(after) && InfosOk(after.races, after.infos)
  {
    var after := WithRound(db, b, num, pairs);
    assert forall i | 0 <= i < |after.races| ::
      if i < |db.races| then after.races[i] == db.races[i]
      else after.races[i] == NewRaces(b, |db.rounds|, pairs)[i - |db.races|];
  }

  lemma WithRoundKeepsInv(db: Db, b: nat, num: int, pairs: seq<Pair>)
    requires Inv(db) && ReadyFor(db, b, num, pairs)
    ensures Inv(WithRound(db, b, num, pairs))
  {
    WithRoundReferences(db, b, num, pairs);
    WithRoundShapes(db, b, num, pairs);
    WithRoundEntrants(db, b, num, pairs);
    WithRoundNumbers(db, b, num, pairs);
    WithRoundBrackets(db, b, num, pairs);
    WithRoundSeasons(db, b, num, pairs);
    WithRoundRaces(db, b, num, pairs);
  }
}

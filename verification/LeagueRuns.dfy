/** Runs of the league that reach the states that are easily overlooked. */
module LeagueRuns {
  import opened Wrappers
  import opened BracketRaces
  import opened Pairings
  import opened League
  import opened LeagueTheorems
  import opened SelfRaces

  /** One more command. */
  lemma Extend(cmds: seq<Command>, dbs: seq<Db>, cmd: Command, after: Db) returns (moreCmds: seq<Command>, moreDbs: seq<Db>)
    requires IsRun(cmds, dbs) && IsStep([cmd], [dbs[|cmds|], after], 0)
    ensures moreCmds == cmds + [cmd] && moreDbs == dbs + [after] && IsRun(moreCmds, moreDbs)
  {
    moreCmds, moreDbs := cmds + [cmd], dbs + [after];
    forall i: nat | i < |moreCmds|
      ensures IsStep(moreCmds, moreDbs, i)
    {
      if i < |cmds| {
        assert IsStep(cmds, dbs, i);
        SameStep(cmds, dbs, i, moreCmds, moreDbs, i);
      } else {
        SameStep([cmd], [dbs[|cmds|], after], 0, moreCmds, moreDbs, i);
      }
    }
  }

  lemma SameStep(cmds: seq<Command>, dbs: seq<Db>, i: nat, others: seq<Command>, otherDbs: seq<Db>, j: nat)
    requires |dbs| == |cmds| + 1 && i < |cmds| && IsStep(cmds, dbs, i)
    requires |otherDbs| == |others| + 1 && j < |others|
    requires others[j] == cmds[i] && otherDbs[j] == dbs[i] && otherDbs[j + 1] == dbs[i + 1]
    ensures IsStep(others, otherDbs, j)
  {
  }

  function OneBracket(kind: BracketType): Db {
    EMPTY_DB.(seasons := [SeasonRow(SeasonState.Created, None)], brackets := [BracketRow(0, BracketState.Unstarted, kind)])
  }

  lemma NewBracket(kind: BracketType) returns (cmds: seq<Command>, dbs: seq<Db>)
    ensures IsRun(cmds, dbs) && |cmds| == 2 && dbs[2] == OneBracket(kind)
  {
    cmds, dbs := [], [EMPTY_DB];
    cmds, dbs := Extend(cmds, dbs, CmdCreateSeason, CreateSeason(EMPTY_DB));
    cmds, dbs := Extend(cmds, dbs, CmdCreateBracket(0, kind), OneBracket(kind));
  }

  /** Generating the pairings of a new round robin right away aborts. */
  lemma AbortHappens() returns (cmds: seq<Command>, dbs: seq<Db>)
    ensures IsRun(cmds, dbs) && |cmds| == 3
    ensures cmds[2] == CmdGeneratePairings(0, [], None) && |dbs[2].brackets| == 1 && Aborts(dbs[2], 0)
    ensures Step(dbs[2], cmds[2]) == Failure(Aborted)
  {
    cmds, dbs := NewBracket(RoundRobin);
    cmds, dbs := Extend(cmds, dbs, CmdGeneratePairings(0, [], None), AfterAbort(OneBracket(RoundRobin), 0));
  }

  /** A new bracket can be finished without ever having been started. */
  lemma UnstartedBracketIsFinished(kind: BracketType) returns (cmds: seq<Command>, dbs: seq<Db>)
    ensures IsRun(cmds, dbs) && |cmds| == 3
    ensures dbs[2].brackets == [BracketRow(0, BracketState.Unstarted, kind)]
    ensures dbs[3].brackets == [BracketRow(0, BracketState.Finished, kind)] && dbs[3].rounds == []
  {
    cmds, dbs := NewBracket(kind);
    var db := OneBracket(kind);
    var after := db.(brackets := [BracketRow(0, BracketState.Finished, kind)]);
    assert RoundsOf(db, 0) == [];
    assert db.brackets[0 := BracketRow(0, BracketState.Finished, kind)] == after.brackets;
    cmds, dbs := Extend(cmds, dbs, CmdFinishBracket(0), after);
  }

  /** A player who is entered twice in a Swiss bracket can be paired against themself. */
  lemma SelfRaceHappens(p: int) returns (cmds: seq<Command>, dbs: seq<Db>)
    ensures IsRun(cmds, dbs) && |cmds| == 5
    ensures |dbs[5].races| == 1 && dbs[5].races[0] == NewRace(0, 0, p, p) && IsSelfRace(dbs[5].races[0])
  {
    var two: Db;
    cmds, dbs, two := EnteredTwice(p);
    SelfPairing(two, p);
    cmds, dbs := Extend(cmds, dbs, CmdGeneratePairings(0, [p, p], None), WithRound(two, 0, 1, [(p, p)]));
  }

  lemma EnteredTwice(p: int) returns (cmds: seq<Command>, dbs: seq<Db>, two: Db)
    ensures IsRun(cmds, dbs) && |cmds| == 4 && dbs[4] == two
    ensures two == OneBracket(Swiss).(entries := two.entries) && PlayersOf(two.entries, 0) == [p, p]
  {
    cmds, dbs := NewBracket(Swiss);
    var e := EntryRow(0, p);
    var one := OneBracket(Swiss).(entries := [e]);
    two := OneBracket(Swiss).(entries := [e, e]);
    EntryStep(OneBracket(Swiss), p, one);
    cmds, dbs := Extend(cmds, dbs, CmdAddPlayer(0, p), one);
    EntryStep(one, p, two);
    cmds, dbs := Extend(cmds, dbs, CmdAddPlayer(0, p), two);
    TwoEntries(p);
  }

  lemma EntryStep(db: Db, p: int, after: Db)
    requires |db.brackets| > 0 && IsActive(db, db.brackets[0].season)
    requires after == db.(entries := db.entries + [EntryRow(0, p)])
    ensures IsStep([CmdAddPlayer(0, p)], [db, after], 0)
  {
  }

  lemma TwoEntries(p: int)
    ensures PlayersOf([EntryRow(0, p), EntryRow(0, p)], 0) == [p, p]
  {
    var entries := [EntryRow(0, p), EntryRow(0, p)];
    assert entries[..1] == [EntryRow(0, p)] && entries[..1][..0] == [];
    assert PlayersOf(entries[..1], 0) == [p];
  }

  lemma SelfPairing(db: Db, p: int)
    requires |db.brackets| == 1 && db.brackets[0] == BracketRow(0, BracketState.Unstarted, Swiss) && db.rounds == []
    ensures Apply(db, CmdGeneratePairings(0, [p, p], None)) == WithRound(db, 0, 1, [(p, p)])
  {
    assert PairOff([p, p]) == [(p, p)];
    assert InitialPairs(db, 0, [p, p]) == Success([(p, p)]);
  }
}

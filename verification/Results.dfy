/** A player's result in one race and the outcome of the race: src/models/bracket_races.rs. */
module Results {
  /** Times are kept in an unsigned 32-bit integer. */
  const U32_LIMIT: nat := 0x1_0000_0000

  datatype PlayerResult = Forfeit | Finish(secs: nat) {
    /** The finish time, or three hours for a forfeit. */
    function Time(): nat {
      match this
      case Forfeit => 3 * 60 * 60
      case Finish(t) => t
    }
  }

  datatype Outcome = Tie | P1Win | P2Win {
    function Flip(): Outcome {
      match this
      case Tie => Tie
      case P1Win => P2Win
      case P2Win => P1Win
    }
  }

  function OutcomeOf(r1: PlayerResult, r2: PlayerResult): Outcome {
    match (r1, r2)
    case (Forfeit, Forfeit) => Tie
    case (Forfeit, _) => P2Win
    case (_, Forfeit) => P1Win
    case (Finish(t1), Finish(t2)) =>
      if t1 < t2 then P1Win else if t1 > t2 then P2Win else Tie
  }

  /** What it means for one result to beat another: finishing beats a forfeit, whatever the time,
      and between two finishes the faster one wins. */
  ghost predicate Beats(a: PlayerResult, b: PlayerResult) {
    a.Finish? && (b.Finish? ==> a.secs < b.secs)
  }

  lemma OutcomeFollowsBeats(r1: PlayerResult, r2: PlayerResult)
    ensures OutcomeOf(r1, r2) == P1Win <==> Beats(r1, r2)
    ensures OutcomeOf(r1, r2) == P2Win <==> Beats(r2, r1)
    ensures OutcomeOf(r2, r1) == OutcomeOf(r1, r2).Flip()
  {
    match (r1, r2)
    case (Forfeit, Forfeit) =>
    case (Forfeit, Finish(_)) =>
    case (Finish(_), Forfeit) =>
    case (Finish(_), Finish(_)) =>
  }
}

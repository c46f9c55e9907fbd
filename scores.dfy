/**
 * The score counters kept across rounds: wins of player 1, wins of player 2
 * and ties. Player 1 always plays the selected mark, player 2 the other one.
 */
module Scoring {
  import opened Board

  datatype Scores = Scores(ties: nat, p1: nat, p2: nat)

  /** The counters after `quitGame`. */
  const Zero := Scores(0, 0, 0)

  /** Number of finished rounds the counters record. */
  function Total(s: Scores): nat
  {
    s.ties + s.p1 + s.p2
  }

  /** No counter of `after` is below the same counter of `before`. */
  predicate NoneDecreased(before: Scores, after: Scores)
  {
    before.ties <= after.ties && before.p1 <= after.p1 && before.p2 <= after.p2
  }

  /**
   * `scoreManage.updateScore`: credit the round to the player holding the
   * winning mark. Player 2's label always shows the mark player 1 does not
   * hold, so one of the two comparisons of the source always succeeds.
   */
  function UpdateScore(s: Scores, winner: Mark, p1Mark: Mark): (r: Scores)
    ensures r.ties == s.ties
    ensures r.p1 == s.p1 + 1 && r.p2 == s.p2 <==> winner == p1Mark
    ensures r.p2 == s.p2 + 1 && r.p1 == s.p1 <==> winner == Other(p1Mark)
    ensures Total(r) == Total(s) + 1 && NoneDecreased(s, r)
  {
    if winner == p1Mark then s.(p1 := s.p1 + 1)
    else s.(p2 := s.p2 + 1)
  }

  /** `scoreManage.increaseTies`: one more tie, the players' counters untouched. */
  function IncreaseTies(s: Scores): (r: Scores)
    ensures r.ties == s.ties + 1 && r.p1 == s.p1 && r.p2 == s.p2
    ensures Total(r) == Total(s) + 1 && NoneDecreased(s, r)
  {
    s.(ties := s.ties + 1)
  }

  /**
   * The counters after a move that leaves `winner` (`makeMove`): a win goes
   * to the seat holding the winning mark, a tie to the ties, and a move that
   * does not end the round changes nothing.
   */
  function RecordOutcome(s: Scores, winner: Winner, p1Mark: Mark): (r: Scores)
    ensures NoneDecreased(s, r)
    ensures Total(r) == Total(s) + (if winner == NoWinner then 0 else 1)
    ensures r.ties > s.ties <==> winner == Ties
    ensures r.p1 > s.p1 <==> winner == Won(p1Mark)
    ensures r.p2 > s.p2 <==> winner == Won(Other(p1Mark))
  {
    match winner
    case Won(m) => UpdateScore(s, m, p1Mark)
    case Ties => IncreaseTies(s)
    case NoWinner => s
  }
}

/**
 * Players and rounds: the two seats (player 1 holds the selected mark,
 * player 2 the other), whose turn it is against the CPU, which seat won a
 * round, and the rule that swaps the marks between rounds.
 */
module Players {
  import opened Board

  /** The seats; the source numbers them 0 and 1. */
  datatype Seat = Player1 | Player2

  datatype Mode = Cpu | Multiplayer

  /** The seat playing mark m when player 1 holds `selected`. */
  function SeatOf(m: Mark, selected: Mark): Seat
  {
    if m == selected then Player1 else Player2
  }

  /** `gameState.initLastPlayerWin`: the seat holding X, the first mover. */
  function InitialLastPlayerWin(selected: Mark): (r: Seat)
    ensures r == SeatOf(X, selected)
    ensures r == Player1 <==> selected == X
  {
    if selected == X then Player1 else Player2
  }

  /**
   * `playerManage.isHumanTurn`: in multiplayer every click is a human's;
   * against the CPU (which sits in seat 2) only player 1's turns are.
   */
  function IsHumanTurn(mode: Mode, current: Mark, selected: Mark): (r: bool)
    ensures r <==> mode == Multiplayer || SeatOf(current, selected) == Player1
  {
    if !mode.Cpu? then true else current == selected
  }

  /**
   * `gameLogic.getPlayerWin`: no seat for a tie; otherwise seat 1 when the
   * winner is player 1's mark, and seat 2 for anything else.
   */
  function GetPlayerWin(winner: Winner, selected: Mark): (r: Option<Seat>)
    ensures winner == Ties <==> r == None
    ensures winner.Won? ==> r == Some(SeatOf(winner.mark, selected))
  {
    if winner == Ties then None
    else if winner == Won(selected) then Some(Player1)
    else Some(Player2)
  }

  /** The recorded last winner is the seat that holds X, the first mover. */
  predicate WinnerLeads(h: Handover)
  {
    h.lastPlayerWin == Some(SeatOf(X, h.selected))
  }

  /** The recorded last winner is the seat that holds O, the second mover. */
  predicate LoserLeads(h: Handover)
  {
    h.lastPlayerWin == Some(SeatOf(O, h.selected))
  }

  /** What one round hands to the next: player 1's mark and the last winner. */
  datatype Handover = Handover(selected: Mark, lastPlayerWin: Option<Seat>)

  /**
   * The mark player 1 holds in the next round (`nextRound`): the marks swap
   * when the round was not a tie and its winning seat differs from the
   * recorded last winner. A tie records no winner, so the win that follows a
   * tie always swaps.
   */
  function NextSelectedMark(selected: Mark, last: Option<Seat>, winner: Winner): (r: Mark)
    ensures r != selected <==> winner != Ties && GetPlayerWin(winner, selected) != last
    ensures winner == Ties ==> r == selected
    ensures winner.Won? && last == Some(SeatOf(X, selected)) ==>
      SeatOf(X, r) == SeatOf(winner.mark, selected)
    ensures winner.Won? && last == Some(SeatOf(O, selected)) ==>
      SeatOf(O, r) == SeatOf(winner.mark, selected)
    ensures winner.Won? && last == None ==> r != selected
  {
    var playerWin := GetPlayerWin(winner, selected);
    if playerWin != last && winner != Ties then Other(selected) else selected
  }

  /**
   * The handover after a round that ended with `winner`. A tie keeps the
   * marks and clears the last winner; a win keeps whichever rule is in force
   * (the winner moves first, or the winner moves second); the first win
   * after a tie makes the winner move first exactly when it won with O.
   */
  function NextRoundHandover(h: Handover, winner: Winner): (r: Handover)
    ensures winner == Ties ==> r.selected == h.selected && r.lastPlayerWin == None
    ensures winner.Won? ==> r.lastPlayerWin == Some(SeatOf(winner.mark, h.selected))
    ensures winner.Won? && WinnerLeads(h) ==> WinnerLeads(r)
    ensures winner.Won? && LoserLeads(h) ==> LoserLeads(r)
    ensures winner.Won? && h.lastPlayerWin == None ==>
      (WinnerLeads(r) <==> winner.mark == O) && (LoserLeads(r) <==> winner.mark == X)
  {
    Handover(NextSelectedMark(h.selected, h.lastPlayerWin, winner), GetPlayerWin(winner, h.selected))
  }

  /** The handover after a series of rounds with the given results. */
  function AfterRounds(h: Handover, results: seq<Winner>): Handover
    decreases |results|
  {
    if results == [] then h
    else AfterRounds(NextRoundHandover(h, results[0]), results[1..])
  }

  /** Playing two series one after the other is playing their concatenation. */
  lemma {:induction false} AfterRoundsAppend(h: Handover, a: seq<Winner>, b: seq<Winner>)
    ensures AfterRounds(h, a + b) == AfterRounds(AfterRounds(h, a), b)
    decreases |a|
  {
    if a == [] {
      assert a + b == b;
    } else {
      assert (a + b)[0] == a[0];
      assert (a + b)[1..] == a[1..] + b;
      AfterRoundsAppend(NextRoundHandover(h, a[0]), a[1..], b);
    }
  }

  /**
   * Starting from `initLastPlayerWin`, as long as every round is won, the
   * seat that won the latest round holds X and so moves first.
   */
  lemma {:induction false} WinnerLeadsWhileNoTie(h: Handover, results: seq<Winner>)
    requires WinnerLeads(h)
    requires forall k :: 0 <= k < |results| ==> results[k].Won?
    ensures WinnerLeads(AfterRounds(h, results))
    ensures results != [] ==>
      AfterRounds(h, results).lastPlayerWin == GetPlayerWin(results[|results| - 1],
        AfterRounds(h, results[..|results| - 1]).selected)
    decreases |results|
  {
    if results != [] {
      var next := NextRoundHandover(h, results[0]);
      assert WinnerLeads(next);
      WinnerLeadsWhileNoTie(next, results[1..]);
      if |results| > 1 {
        assert results[1..][..|results| - 2] == results[1..|results| - 1];
        assert results[..|results| - 1][1..] == results[1..|results| - 1];
      }
    }
  }

  /**
   * Once the recorded last winner holds O, every won round leaves the
   * latest winner holding O, so the loser of each round moves first in the
   * next, until a tie.
   */
  lemma {:induction false} LoserLeadsWhileNoTie(h: Handover, results: seq<Winner>)
    requires LoserLeads(h)
    requires forall k :: 0 <= k < |results| ==> results[k].Won?
    ensures LoserLeads(AfterRounds(h, results))
    decreases |results|
  {
    if results != [] {
      LoserLeadsWhileNoTie(NextRoundHandover(h, results[0]), results[1..]);
    }
  }

  /**
   * The win that follows a tie swaps the marks whoever wins: the winner
   * moves first in the round after only if it won with O. A seat that holds
   * X, ties, and then wins again holds O afterwards, and the recorded last
   * winner then holds O.
   */
  lemma {:induction false} WinAfterTieSwaps(h: Handover, m: Mark)
    ensures AfterRounds(h, [Ties, Won(m)]).selected == Other(h.selected)
    ensures SeatOf(X, AfterRounds(h, [Ties, Won(m)]).selected) == SeatOf(m, h.selected) <==> m == O
    ensures WinnerLeads(AfterRounds(h, [Ties, Won(m)])) <==> m == O
    ensures LoserLeads(AfterRounds(h, [Ties, Won(m)])) <==> m == X
  {
    var h1 := NextRoundHandover(h, Ties);
    var h2 := NextRoundHandover(h1, Won(m));
    assert h1 == Handover(h.selected, None);
    assert [Ties, Won(m)][1..] == [Won(m)];
    assert AfterRounds(h, [Ties, Won(m)]) == AfterRounds(h1, [Won(m)]) == h2;
  }

  /**
   * After a tie, the mark of the next win decides the rule until the next
   * tie: won with O, the winner of every later round moves first; won with
   * X, the loser of every later round moves first.
   */
  lemma {:induction false} RuleAfterTie(h: Handover, m: Mark, results: seq<Winner>)
    requires forall k :: 0 <= k < |results| ==> results[k].Won?
    ensures m == O ==> WinnerLeads(AfterRounds(h, [Ties, Won(m)] + results))
    ensures m == X ==> LoserLeads(AfterRounds(h, [Ties, Won(m)] + results))
  {
    var start := AfterRounds(h, [Ties, Won(m)]);
    AfterRoundsAppend(h, [Ties, Won(m)], results);
    WinAfterTieSwaps(h, m);
    if m == O {
      WinnerLeadsWhileNoTie(start, results);
    } else {
      LoserLeadsWhileNoTie(start, results);
    }
  }
}

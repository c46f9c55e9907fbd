/**
 * The game state object and the game-state side of the controller: starting
 * a game, applying moves, the CPU's move, the next round, reset and quit.
 * Every display update of the source is left out; where the source calls
 * `executeCpuMove`, the methods report it in their `cpuTurn` result and the
 * CPU's move itself is `ExecuteCpuMove`.
 */
module Game {
  import opened Board
  import opened Scoring
  import opened Players

  /** The board size the source configures. */
  const DefaultSize: nat := 3

  class GameState {
    var selectedMark: Mark
    var gameMode: Mode
    const size: nat
    var board: seq<Cell>
    var currentPlayer: Mark
    var isActive: bool
    var winner: Winner
    var playerWin: Option<Seat>
    var lastPlayerWin: Option<Seat>
    var scores: Scores

    /**
     * The board has its full length once a game has started; while a round
     * is active no line is complete and no winner is recorded; once it has
     * ended, `winner` is the outcome of the board (a win before a tie).
     */
    ghost predicate Valid()
      reads this
    {
      (board == [] || |board| == size * size) &&
      (isActive ==> winner == NoWinner && FirstWinner(board, WinningCombos(size)) == None) &&
      (!isActive ==> winner != NoWinner && winner == RoundOutcome(board, size))
    }

    /** The initial `gameState` object. */
    constructor ()
      ensures Valid()
      ensures selectedMark == X && gameMode == Cpu && size == DefaultSize
      ensures board == [] && currentPlayer == X && isActive && winner == NoWinner
      ensures playerWin == None && lastPlayerWin == None && scores == Zero
    {
      selectedMark := X;
      gameMode := Cpu;
      size := DefaultSize;
      board := [];
      currentPlayer := X;
      isActive := true;
      winner := NoWinner;
      playerWin := None;
      lastPlayerWin := None;
      scores := Zero;
      new;
      NoMarkNoWinner(board, WinningCombos(size));
    }

    /**
     * `initBoard`: a fresh board of size*size empty cells. It is a step of
     * `resetRound` and `startGame`; on an ended round it does not keep
     * `Valid()` by itself, the callers restore it.
     */
    method InitBoard()
      modifies this`board
      ensures board == EmptyBoard(size)
    {
      board := EmptyBoard(size);
    }

    /** `initLastPlayerWin`: the seat holding X counts as the last winner. */
    method InitLastPlayerWin()
      requires Valid()
      modifies this`lastPlayerWin
      ensures Valid()
      ensures lastPlayerWin == Some(InitialLastPlayerWin(selectedMark))
      ensures lastPlayerWin == Some(SeatOf(X, selectedMark))
    {
      lastPlayerWin := if selectedMark == X then Some(Player1) else Some(Player2);
    }

    /** `resetRound`: a fresh active round with X to move; scores and marks kept. */
    method ResetRound()
      modifies this
      ensures Valid()
      ensures board == EmptyBoard(size) && isActive && winner == NoWinner
      ensures playerWin == None && currentPlayer == X
      ensures scores == old(scores) && selectedMark == old(selectedMark)
      ensures gameMode == old(gameMode) && lastPlayerWin == old(lastPlayerWin)
    {
      InitBoard();
      isActive := true;
      winner := NoWinner;
      playerWin := None;
      currentPlayer := X;
      NoMarkNoWinner(board, WinningCombos(size));
    }

    /** `quitGame`: a fresh round, all counters zero and no last winner. */
    method QuitGame()
      modifies this
      ensures Valid()
      ensures board == EmptyBoard(size) && isActive && winner == NoWinner
      ensures playerWin == None && currentPlayer == X
      ensures scores == Zero && lastPlayerWin == None
      ensures selectedMark == old(selectedMark) && gameMode == old(gameMode)
    {
      ResetRound();
      scores := Zero;
      lastPlayerWin := None;
    }

    /**
     * `gameLogic.makeMove`: write the current mark, then end the round on a
     * win (checked first) or a full board, and otherwise hand the turn over.
     */
    method MakeMove(cellIndex: int) returns (ended: bool)
      requires Valid() && isActive && 0 <= cellIndex < |board|
      modifies this
      ensures Valid()
      ensures board == old(board)[cellIndex := Filled(old(currentPlayer))]
      ensures winner == RoundOutcome(board, size)
      ensures ended <==> !isActive
      ensures winner.Won? ==> winner.mark == old(currentPlayer)
      ensures (exists k :: 0 <= k < |WinningCombos(size)| &&
                Completes(board, WinningCombos(size)[k], old(currentPlayer))) ==>
              winner == Won(old(currentPlayer))
      ensures ended ==> currentPlayer == old(currentPlayer)
      ensures !ended ==> currentPlayer == Other(old(currentPlayer))
      ensures scores == RecordOutcome(old(scores), winner, selectedMark)
      ensures selectedMark == old(selectedMark) && gameMode == old(gameMode)
      ensures playerWin == old(playerWin) && lastPlayerWin == old(lastPlayerWin)
    {
      MoveWinsOnlyForMover(board, WinningCombos(size), cellIndex, currentPlayer);
      board := board[cellIndex := Filled(currentPlayer)];

      var w := CheckWinner(board, size);
      winner := if w.Some? then Won(w.value) else NoWinner;
      if w.Some? {
        isActive := false;
        scores := UpdateScore(scores, w.value, selectedMark);
        return true;
      }

      if CheckTies(board) {
        winner := Ties;
        isActive := false;
        scores := IncreaseTies(scores);
        return true;
      }

      currentPlayer := Other(currentPlayer);
      return false;
    }

    /**
     * `executeCpuMove` with its delayed callback run at once: nothing happens
     * when no cell is empty or the round is over; otherwise the CPU's pick is
     * played as a move.
     */
    method ExecuteCpuMove(pick: nat)
      requires Valid()
      requires pick < |FindEmptyCells(board)| || pick == 0
      modifies this
      ensures Valid()
      ensures FindEmptyCells(old(board)) == [] || !old(isActive) ==> unchanged(this)
      ensures FindEmptyCells(old(board)) != [] && old(isActive) ==>
        var cellIndex := FindEmptyCells(old(board))[pick];
        old(board)[cellIndex] == Empty &&
        board == old(board)[cellIndex := Filled(old(currentPlayer))] &&
        winner == RoundOutcome(board, size) &&
        (isActive ==> currentPlayer == Other(old(currentPlayer))) &&
        (!isActive ==> currentPlayer == old(currentPlayer)) &&
        scores == RecordOutcome(old(scores), winner, selectedMark)
      ensures selectedMark == old(selectedMark) && gameMode == old(gameMode)
      ensures playerWin == old(playerWin) && lastPlayerWin == old(lastPlayerWin)
    {
      if |FindEmptyCells(board)| == 0 {
        return;
      }
      if isActive {
        var indexCellCpu := CpuCellIndex(board, pick);
        var _ := MakeMove(indexCellCpu.value);
      }
    }

    /**
     * `handleCellClick`, with `handleCPUMove` and `handleMultiplayerMove`: a
     * click on an occupied cell, on a finished round or, against the CPU,
     * during the CPU's turn changes nothing. `cpuTurn` says whether the
     * CPU's move is scheduled afterwards.
     */
    method HandleCellClick(cellIndex: int) returns (cpuTurn: bool)
      requires Valid()
      modifies this
      ensures Valid()
      ensures !old(isActive) || !(0 <= cellIndex < |old(board)| && old(board)[cellIndex] == Empty) ==>
        unchanged(this) && !cpuTurn
      ensures !IsHumanTurn(old(gameMode), old(currentPlayer), old(selectedMark)) ==>
        unchanged(this) && !cpuTurn
      ensures old(isActive) && 0 <= cellIndex < |old(board)| && old(board)[cellIndex] == Empty &&
              IsHumanTurn(old(gameMode), old(currentPlayer), old(selectedMark)) ==>
        board == old(board)[cellIndex := Filled(old(currentPlayer))] &&
        winner == RoundOutcome(board, size) &&
        (isActive ==> currentPlayer == Other(old(currentPlayer))) &&
        (!isActive ==> currentPlayer == old(currentPlayer)) &&
        scores == RecordOutcome(old(scores), winner, selectedMark) &&
        (cpuTurn <==> gameMode == Cpu && isActive && currentPlayer != selectedMark)
      ensures selectedMark == old(selectedMark) && gameMode == old(gameMode)
      ensures playerWin == old(playerWin) && lastPlayerWin == old(lastPlayerWin)
    {
      if !isActive || !(0 <= cellIndex < |board| && board[cellIndex] == Empty) {
        return false;
      }
      if gameMode == Cpu {
        if !IsHumanTurn(gameMode, currentPlayer, selectedMark) {
          return false;
        }
        var ended := MakeMove(cellIndex);
        if ended {
          return false;
        }
        cpuTurn := selectedMark != currentPlayer;
      } else {
        var _ := MakeMove(cellIndex);
        cpuTurn := false;
      }
    }

    /** `handleSelectMark`: button 0 selects X, any other button O. */
    method HandleSelectMark(buttonIndex: int)
      requires Valid()
      modifies this`selectedMark
      ensures Valid()
      ensures selectedMark == (if buttonIndex == 0 then X else O)
    {
      selectedMark := if buttonIndex == 0 then X else O;
    }

    /**
     * `startGame`: set the mode, record the seat holding X as the last
     * winner and lay out an empty board. The menu that offers it is reached
     * only on the initial state or after `quitGame`, both active rounds.
     */
    method StartGame(mode: Mode) returns (cpuTurn: bool)
      requires Valid() && isActive
      modifies this
      ensures Valid()
      ensures gameMode == mode && lastPlayerWin == Some(SeatOf(X, selectedMark))
      ensures board == EmptyBoard(size) && isActive && winner == NoWinner
      ensures selectedMark == old(selectedMark) && currentPlayer == old(currentPlayer)
      ensures scores == old(scores) && playerWin == old(playerWin)
      ensures cpuTurn <==> mode == Cpu && SeatOf(X, selectedMark) == Player2
    {
      gameMode := mode;
      InitLastPlayerWin();
      InitBoard();
      NoMarkNoWinner(board, WinningCombos(size));
      cpuTurn := mode == Cpu && selectedMark == O;
    }

    /**
     * `nextRound`: credit the finished round to a seat, swap the marks when
     * that seat is not the recorded last winner (never after a tie), record
     * it as the last winner and start a fresh round.
     */
    method NextRound() returns (cpuTurn: bool)
      requires Valid()
      modifies this
      ensures Valid()
      ensures selectedMark == NextSelectedMark(old(selectedMark), old(lastPlayerWin), old(winner))
      ensures Handover(selectedMark, lastPlayerWin) ==
        NextRoundHandover(Handover(old(selectedMark), old(lastPlayerWin)), old(winner))
      ensures board == EmptyBoard(size) && isActive && winner == NoWinner
      ensures playerWin == None && currentPlayer == X
      ensures scores == old(scores) && gameMode == old(gameMode)
      ensures cpuTurn <==> gameMode == Cpu && SeatOf(X, selectedMark) == Player2
    {
      playerWin := GetPlayerWin(winner, selectedMark);
      if playerWin != lastPlayerWin && winner != Ties {
        selectedMark := Other(selectedMark);
      }
      lastPlayerWin := playerWin;
      ResetRound();
      cpuTurn := gameMode == Cpu && selectedMark == O;
    }

    /** `resetStart`: the confirmed reset starts the round over. */
    method ResetStart()
      modifies this
      ensures Valid()
      ensures board == EmptyBoard(size) && isActive && winner == NoWinner
      ensures playerWin == None && currentPlayer == X
      ensures scores == old(scores) && selectedMark == old(selectedMark)
      ensures gameMode == old(gameMode) && lastPlayerWin == old(lastPlayerWin)
    {
      ResetRound();
    }
  }
}

/**
 * The board of the game: a flat sequence of size*size cells, the winning lines
 * (rows, then columns, then the two diagonals), win detection, tie detection
 * and the enumeration of empty cells.
 */
module Board {

  datatype Option<T> = None | Some(value: T)

  /** The two marks; X always moves first in a round. */
  datatype Mark = X | O

  /** A cell of the board: `null` in the source, or a mark. */
  datatype Cell = Empty | Filled(mark: Mark)

  /** The other mark: how the turn passes on and how the marks swap. */
  function Other(m: Mark): (r: Mark)
    ensures r != m
  {
    if m == X then O else X
  }

  /** `initBoard`: size*size empty cells. */
  function EmptyBoard(size: nat): (b: seq<Cell>)
    ensures |b| == size * size
    ensures forall i :: 0 <= i < |b| ==> b[i] == Empty
  {
    seq(size * size, _ => Empty)
  }

  /**
   * Reading a board position the way the source's array does: a position
   * outside the array reads `undefined`, which is neither a mark nor equal
   * to one, so it behaves like an empty cell.
   */
  function CellAt(board: seq<Cell>, p: int): Cell
  {
    if 0 <= p < |board| then board[p] else Empty
  }

  // ---------------------------------------------------------------------
  // Winning lines
  // ---------------------------------------------------------------------

  /** Row r: r*size + i for i in [0, size). */
  function Row(size: nat, r: int): seq<int>
  {
    seq(size, i => r * size + i)
  }

  /** Column c: i*size + c for i in [0, size). */
  function Column(size: nat, c: int): seq<int>
  {
    seq(size, i => i * size + c)
  }

  /** Top-left to bottom-right diagonal: d*(size+1). */
  function Diagonal(size: nat): seq<int>
  {
    seq(size, d => d * (size + 1))
  }

  /** Top-right to bottom-left diagonal: (d+1)*(size-1). */
  function AntiDiagonal(size: nat): seq<int>
  {
    seq(size, d => (d + 1) * (size - 1))
  }

  /** The lines `generateWinningCombo` produces, in its order. */
  function WinningCombos(size: nat): seq<seq<int>>
  {
    seq(size, r => Row(size, r)) + seq(size, c => Column(size, c))
      + [Diagonal(size), AntiDiagonal(size)]
  }

  /**
   * `utility.generateWinningCombo`: nested loops pushing rows, then columns,
   * then both diagonals.
   */
  method GenerateWinningCombo(size: nat) returns (combos: seq<seq<int>>)
    ensures combos == WinningCombos(size)
    ensures |combos| == 2 * size + 2
    ensures forall k :: 0 <= k < |combos| ==> |combos[k]| == size
  {
    combos := [];
    var r := 0;
    while r < size
      invariant 0 <= r <= size
      invariant combos == seq(r, k => Row(size, k))
    {
      var rows := [];
      var i := 0;
      while i < size
        invariant 0 <= i <= size
        invariant rows == seq(i, j => r * size + j)
      {
        rows := rows + [r * size + i];
        i := i + 1;
      }
      combos := combos + [rows];
      r := r + 1;
    }
    var c := 0;
    while c < size
      invariant 0 <= c <= size
      invariant combos == seq(size, k => Row(size, k)) + seq(c, k => Column(size, k))
    {
      var columns := [];
      var i := 0;
      while i < size
        invariant 0 <= i <= size
        invariant columns == seq(i, j => j * size + c)
      {
        columns := columns + [i * size + c];
        i := i + 1;
      }
      combos := combos + [columns];
      c := c + 1;
    }
    var diag1 := [];
    var diag2 := [];
    var d := 0;
    while d < size
      invariant 0 <= d <= size
      invariant diag1 == seq(d, j => j * (size + 1))
      invariant diag2 == seq(d, j => (j + 1) * (size - 1))
    {
      diag1 := diag1 + [d * (size + 1)];
      diag2 := diag2 + [(d + 1) * (size - 1)];
      d := d + 1;
    }
    combos := combos + [diag1, diag2];
  }

  /** Position p of a size-wide board lies in row p / size and column p % size. */
  predicate At(size: nat, p: int, row: int, col: int)
  {
    size > 0 && 0 <= p < size * size && p / size == row && p % size == col
  }

  /** A non-zero multiple of a positive n is at least n away from zero. */
  lemma {:induction false} MultipleBound(d: int, n: int)
    requires n > 0
    ensures d >= 1 ==> d * n >= n
    ensures d <= -1 ==> d * n <= -n
  {
    if d >= 1 {
      var e := d - 1;
      assert e * n >= 0;
      assert d * n == e * n + n;
    } else if d <= -1 {
      var e := -d - 1;
      assert e * n >= 0;
      assert d * n == -(e * n) - n;
    }
  }

  /** Division by n has a unique quotient and remainder. */
  lemma {:induction false} DivModUnique(a: int, n: int, q: int, m: int)
    requires n > 0 && 0 <= m < n && a == q * n + m
    ensures a / n == q && a % n == m
  {
    var q', m' := a / n, a % n;
    assert (q - q') * n == m' - m;
    MultipleBound(q - q', n);
  }

  /** Multiplying by a non-negative n keeps the order. */
  lemma {:induction false} MulMonotone(a: int, b: int, n: int)
    requires a <= b && 0 <= n
    ensures a * n <= b * n
  {
    var d := b - a;
    assert d * n >= 0;
    assert b * n == a * n + d * n;
  }

  /** The cell at (row, col) of a size-wide board sits at row*size + col. */
  lemma {:induction false} PositionOf(size: nat, row: int, col: int)
    requires 0 <= row < size && 0 <= col < size
    ensures At(size, row * size + col, row, col)
  {
    MulMonotone(0, row, size);
    MulMonotone(row + 1, size, size);
    assert (row + 1) * size == row * size + size;
    DivModUnique(row * size + col, size, row, col);
  }

  /**
   * The geometry of the generated lines: entry j of line k is, for a row,
   * in row k and column j; for a column, in row j and column k - size; for
   * the diagonal, in row j and column j; for the anti-diagonal, in row j and
   * column size-1-j. Every entry is thus a position of the board.
   */
  lemma {:induction false} CombosGeometry(size: nat, k: int, j: int)
    requires 0 <= k < 2 * size + 2 && 0 <= j < size
    ensures |WinningCombos(size)| == 2 * size + 2 && |WinningCombos(size)[k]| == size
    ensures var p := WinningCombos(size)[k][j];
      0 <= p < size * size &&
      (k < size ==> At(size, p, k, j)) &&
      (size <= k < 2 * size ==> At(size, p, j, k - size)) &&
      (k == 2 * size ==> At(size, p, j, j)) &&
      (k == 2 * size + 1 ==> At(size, p, j, size - 1 - j))
  {
    var combos := WinningCombos(size);
    if k < size {
      assert combos[k] == Row(size, k);
      PositionOf(size, k, j);
    } else if k < 2 * size {
      assert combos[k] == Column(size, k - size);
      PositionOf(size, j, k - size);
    } else if k == 2 * size {
      assert combos[k] == Diagonal(size);
      assert j * (size + 1) == j * size + j;
      PositionOf(size, j, j);
    } else {
      assert combos[k] == AntiDiagonal(size);
      assert (j + 1) * (size - 1) == j * size + (size - 1 - j);
      PositionOf(size, j, size - 1 - j);
    }
  }

  /** Every line holds size distinct positions of the board. */
  lemma {:induction false} CombosDistinct(size: nat, k: int, a: int, b: int)
    requires 0 <= k < 2 * size + 2 && 0 <= a < b < size
    ensures WinningCombos(size)[k][a] != WinningCombos(size)[k][b]
  {
    CombosGeometry(size, k, a);
    CombosGeometry(size, k, b);
  }

  // ---------------------------------------------------------------------
  // Win detection
  // ---------------------------------------------------------------------

  /** Line `combo` is complete for mark m: non-empty and every cell holds m. */
  predicate Completes(board: seq<Cell>, combo: seq<int>, m: Mark)
  {
    |combo| > 0 && forall j :: 0 <= j < |combo| ==> CellAt(board, combo[j]) == Filled(m)
  }

  /**
   * The source's test of one line: the first cell must be a mark and every
   * cell of the line must equal it.
   */
  function LineMark(board: seq<Cell>, combo: seq<int>): (r: Option<Mark>)
    ensures r.Some? ==> Completes(board, combo, r.value)
    ensures r.None? ==> forall m :: !Completes(board, combo, m)
  {
    if |combo| > 0 && CellAt(board, combo[0]).Filled?
       && forall j :: 0 <= j < |combo| ==> CellAt(board, combo[j]) == CellAt(board, combo[0])
    then Some(CellAt(board, combo[0]).mark)
    else None
  }

  /** The mark of the first complete line, scanning the lines in order. */
  function FirstWinner(board: seq<Cell>, combos: seq<seq<int>>): Option<Mark>
  {
    if combos == [] then None
    else if LineMark(board, combos[0]).Some? then LineMark(board, combos[0])
    else FirstWinner(board, combos[1..])
  }

  /** A reported winner owns a complete line. */
  lemma {:induction false} FirstWinnerSound(board: seq<Cell>, combos: seq<seq<int>>)
    ensures FirstWinner(board, combos).Some? ==>
      exists k :: 0 <= k < |combos| && Completes(board, combos[k], FirstWinner(board, combos).value)
  {
    if combos != [] && LineMark(board, combos[0]).None? {
      FirstWinnerSound(board, combos[1..]);
      if FirstWinner(board, combos[1..]).Some? {
        var k :| 0 <= k < |combos[1..]| && Completes(board, combos[1..][k], FirstWinner(board, combos[1..]).value);
        assert combos[k + 1] == combos[1..][k];
      }
    }
  }

  /** No winner is reported exactly when no line is complete for any mark. */
  lemma {:induction false} FirstWinnerNone(board: seq<Cell>, combos: seq<seq<int>>)
    ensures FirstWinner(board, combos).None? <==>
      forall k, m :: 0 <= k < |combos| ==> !Completes(board, combos[k], m)
  {
    if combos != [] {
      FirstWinnerNone(board, combos[1..]);
      if LineMark(board, combos[0]).None? {
        forall k, m | 0 < k < |combos| ensures Completes(board, combos[k], m) == Completes(board, combos[1..][k - 1], m) {
          assert combos[k] == combos[1..][k - 1];
        }
      }
    }
  }

  /** A board with no mark on it (the fresh board of a round) has no winner. */
  lemma {:induction false} NoMarkNoWinner(board: seq<Cell>, combos: seq<seq<int>>)
    requires forall i :: 0 <= i < |board| ==> board[i] == Empty
    ensures FirstWinner(board, combos) == None
  {
    FirstWinnerNone(board, combos);
    forall k, m | 0 <= k < |combos| ensures !Completes(board, combos[k], m) {
      if |combos[k]| > 0 {
        assert CellAt(board, combos[k][0]) == Empty;
      }
    }
  }

  /**
   * `gameLogic.checkWinner`: scans the generated lines and returns the mark
   * of the first complete one, or None.
   */
  method CheckWinner(board: seq<Cell>, size: nat) returns (w: Option<Mark>)
    ensures w == FirstWinner(board, WinningCombos(size))
    ensures w.Some? ==> exists k :: 0 <= k < |WinningCombos(size)| && Completes(board, WinningCombos(size)[k], w.value)
    ensures w.None? <==> forall k, m :: 0 <= k < |WinningCombos(size)| ==> !Completes(board, WinningCombos(size)[k], m)
  {
    var combos := GenerateWinningCombo(size);
    var n := 0;
    while n < |combos|
      invariant 0 <= n <= |combos|
      invariant FirstWinner(board, combos) == FirstWinner(board, combos[n..])
    {
      var combo := combos[n];
      var firstValue := if |combo| > 0 then CellAt(board, combo[0]) else Empty;
      if firstValue.Filled? && forall j :: 0 <= j < |combo| ==> CellAt(board, combo[j]) == firstValue {
        assert combos[n..][0] == combo;
        return Some(firstValue.mark);
      }
      assert combos[n..][1..] == combos[n + 1..];
      n := n + 1;
    }
    w := None;
    FirstWinnerSound(board, combos);
    FirstWinnerNone(board, combos);
  }

  /**
   * Placing m on an empty position of a board without a winner can only make
   * m the winner, and does so as soon as it completes a line through that
   * position.
   */
  lemma {:induction false} MoveWinsOnlyForMover(board: seq<Cell>, combos: seq<seq<int>>, i: int, m: Mark)
    requires 0 <= i < |board|
    requires FirstWinner(board, combos) == None
    ensures FirstWinner(board[i := Filled(m)], combos) in {None, Some(m)}
    ensures (exists k :: 0 <= k < |combos| && Completes(board[i := Filled(m)], combos[k], m)) ==>
      FirstWinner(board[i := Filled(m)], combos) == Some(m)
  {
    var after := board[i := Filled(m)];
    FirstWinnerNone(board, combos);
    FirstWinnerNone(after, combos);
    FirstWinnerSound(after, combos);
    if FirstWinner(after, combos).Some? {
      var w := FirstWinner(after, combos).value;
      var k :| 0 <= k < |combos| && Completes(after, combos[k], w);
      var combo := combos[k];
      if forall j :: 0 <= j < |combo| ==> combo[j] != i {
        assert Completes(board, combo, w) by {
          forall j | 0 <= j < |combo| ensures CellAt(board, combo[j]) == Filled(w) {
            assert CellAt(after, combo[j]) == Filled(w);
          }
        }
        assert false;
      }
      var j :| 0 <= j < |combo| && combo[j] == i;
      assert CellAt(after, combo[j]) == Filled(w);
    }
  }

  // ---------------------------------------------------------------------
  // Empty cells and ties
  // ---------------------------------------------------------------------

  /**
   * `utility.findEmptyCells`: the indices of the empty cells, ascending
   * (map each cell to its index or null, then drop the nulls).
   */
  function FindEmptyCells(board: seq<Cell>): (r: seq<nat>)
    ensures forall k :: 0 <= k < |r| ==> r[k] < |board| && board[r[k]] == Empty
    ensures forall i :: 0 <= i < |board| && board[i] == Empty ==> i in r
    ensures forall a, b :: 0 <= a < b < |r| ==> r[a] < r[b]
  {
    if board == [] then []
    else
      var last := |board| - 1;
      FindEmptyCells(board[..last]) + if board[last] == Empty then [last] else []
  }

  /** `gameLogic.checkTies`: every cell holds a mark. */
  function CheckTies(board: seq<Cell>): (r: bool)
    ensures r <==> FindEmptyCells(board) == []
  {
    var empties := FindEmptyCells(board);
    assert empties != [] ==> board[empties[0]] == Empty;
    forall i :: 0 <= i < |board| ==> board[i] != Empty
  }

  /**
   * `gameLogic.CpuCellIndex`: the empty cell at position `pick` of the
   * empty-cell list, where `pick` stands for the random position the source
   * draws below the list's length (0 for an empty list, whose lookup gives
   * `undefined`, here None).
   */
  function CpuCellIndex(board: seq<Cell>, pick: nat): (r: Option<nat>)
    requires pick < |FindEmptyCells(board)| || pick == 0
    ensures r.Some? <==> exists i :: 0 <= i < |board| && board[i] == Empty
    ensures r.Some? ==> r.value < |board| && board[r.value] == Empty
  {
    var emptyCells := FindEmptyCells(board);
    if pick < |emptyCells| then Some(emptyCells[pick]) else None
  }

  /** The first two entries of an ascending sequence differ. */
  lemma AscendingHead(r: seq<nat>)
    requires forall a, b :: 0 <= a < b < |r| ==> r[a] < r[b]
    ensures |r| >= 2 ==> r[0] != r[1]
  {
  }

  /** With a single empty cell left, the CPU always picks that cell. */
  lemma {:induction false} OnlyEmptyCellIsPicked(board: seq<Cell>, i: int, pick: nat)
    requires 0 <= i < |board| && board[i] == Empty
    requires forall j :: 0 <= j < |board| && j != i ==> board[j] != Empty
    requires pick < |FindEmptyCells(board)| || pick == 0
    ensures CpuCellIndex(board, pick) == Some(i)
  {
    var emptyCells := FindEmptyCells(board);
    assert i in emptyCells;
    assert forall k :: 0 <= k < |emptyCells| ==> emptyCells[k] == i;
    AscendingHead(emptyCells);
    assert |emptyCells| == 1;
    assert emptyCells == [i];
  }

  /**
   * What a move leaves in `winner`: a complete line wins, and only
   * otherwise does a full board make a tie.
   */
  datatype Winner = NoWinner | Won(mark: Mark) | Ties

  /** The round outcome of a board, with a win taking precedence over a tie. */
  function RoundOutcome(board: seq<Cell>, size: nat): (r: Winner)
    ensures r.Won? ==> exists k :: 0 <= k < |WinningCombos(size)| && Completes(board, WinningCombos(size)[k], r.mark)
    ensures (exists k, m :: 0 <= k < |WinningCombos(size)| && Completes(board, WinningCombos(size)[k], m)) ==> r.Won?
    ensures r == Ties <==> !r.Won? && FindEmptyCells(board) == []
    ensures r == NoWinner <==> !r.Won? && FindEmptyCells(board) != []
  {
    FirstWinnerSound(board, WinningCombos(size));
    FirstWinnerNone(board, WinningCombos(size));
    match FirstWinner(board, WinningCombos(size))
    case Some(m) => Won(m)
    case None => if CheckTies(board) then Ties else NoWinner
  }
}

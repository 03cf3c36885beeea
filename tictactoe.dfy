/** Tic-tac-toe: x and o take turns marking an empty cell of a 3 by 3 board; three of
    the mover's marks along a row, a column or a diagonal win and add to that player's
    tally, a full board without a win is a draw. */
module TicTacToe {
  import opened Grid

  datatype Mark = X | O

  /** A cell of `board`: `null` or a mark. */
  datatype Cell = Empty | Marked(mark: Mark)

  function Other(p: Mark): Mark
  {
    if p == X then O else X
  }

  function IsMarked(v: Cell): bool { v.Marked? }

  /** The eight winning lines: three rows, three columns, two diagonals. */
  const Lines: seq<seq<(int, int)>> := [
    [(0, 0), (0, 1), (0, 2)], [(1, 0), (1, 1), (1, 2)], [(2, 0), (2, 1), (2, 2)],
    [(0, 0), (1, 0), (2, 0)], [(0, 1), (1, 1), (2, 1)], [(0, 2), (1, 2), (2, 2)],
    [(0, 0), (1, 1), (2, 2)], [(0, 2), (1, 1), (2, 0)]]

  /** Player p holds all three cells of `line`. */
  ghost predicate Owns(b: Board<Cell>, p: Mark, line: seq<(int, int)>)
    requires IsGrid(b, 3, 3)
  {
    |line| == 3 && forall k :: 0 <= k < 3 ==> InBounds(3, 3, line[k].0, line[k].1) && b[line[k].0][line[k].1] == Marked(p)
  }

  /** Some winning line belongs to p. */
  ghost predicate HasLine(b: Board<Cell>, p: Mark)
    requires IsGrid(b, 3, 3)
  {
    exists l :: 0 <= l < 8 && Owns(b, p, Lines[l])
  }

  /** `checkWin` for the player to move `p`: the three rows, the three columns, then the
      two diagonals. */
  function CheckWin(b: Board<Cell>, p: Mark): bool
    requires IsGrid(b, 3, 3)
  {
    var m := Marked(p);
    || (exists i :: 0 <= i < 3 && b[i][0] == m && b[i][1] == m && b[i][2] == m)
    || (exists i :: 0 <= i < 3 && b[0][i] == m && b[1][i] == m && b[2][i] == m)
    || (b[0][0] == m && b[1][1] == m && b[2][2] == m)
    || (b[0][2] == m && b[1][1] == m && b[2][0] == m)
  }

  /** `checkDraw`: every cell holds a mark. */
  function CheckDraw(b: Board<Cell>): (full: bool)
    requires IsGrid(b, 3, 3)
    ensures full <==> Count(b, IsMarked) == 9
  {
    CountBound(b, 3, 3, IsMarked);
    forall r, c :: 0 <= r < 3 && 0 <= c < 3 ==> b[r][c] != Empty
  }

  /** The row, column and diagonal tests of `checkWin` cover exactly the eight lines. */
  lemma LinesMeanWin(b: Board<Cell>, p: Mark)
    requires IsGrid(b, 3, 3)
    ensures CheckWin(b, p) <==> HasLine(b, p)
  {
    if HasLine(b, p) {
      LineGivesWin(b, p);
    }
    if CheckWin(b, p) {
      WinGivesLine(b, p);
    }
  }

  lemma LineGivesWin(b: Board<Cell>, p: Mark)
    requires IsGrid(b, 3, 3) && HasLine(b, p)
    ensures CheckWin(b, p)
  {
    var l :| 0 <= l < 8 && Owns(b, p, Lines[l]);
    var line := Lines[l];
    assert b[line[0].0][line[0].1] == Marked(p) && b[line[1].0][line[1].1] == Marked(p) && b[line[2].0][line[2].1] == Marked(p);
    if l < 3 {
      assert line == [(l, 0), (l, 1), (l, 2)];
    } else if l < 6 {
      assert line == [(0, l - 3), (1, l - 3), (2, l - 3)];
    }
  }

  lemma WinGivesLine(b: Board<Cell>, p: Mark)
    requires IsGrid(b, 3, 3) && CheckWin(b, p)
    ensures HasLine(b, p)
  {
    var m := Marked(p);
    if exists i :: 0 <= i < 3 && b[i][0] == m && b[i][1] == m && b[i][2] == m {
      var i :| 0 <= i < 3 && b[i][0] == m && b[i][1] == m && b[i][2] == m;
      assert Owns(b, p, Lines[i]);
    } else if exists i :: 0 <= i < 3 && b[0][i] == m && b[1][i] == m && b[2][i] == m {
      var i :| 0 <= i < 3 && b[0][i] == m && b[1][i] == m && b[2][i] == m;
      assert Owns(b, p, Lines[3 + i]);
    } else if b[0][0] == m && b[1][1] == m && b[2][2] == m {
      assert Owns(b, p, Lines[6]);
    } else {
      assert Owns(b, p, Lines[7]);
    }
  }

  class Game {
    var board: Board<Cell>
    var currentPlayer: Mark
    var gameActive: bool
    var p1Score: nat
    var p2Score: nat

    /** A game in progress has a 3 by 3 board with a free cell. Before the first game
        the board is empty of rows and the game is not active. */
    ghost predicate Valid()
      reads this
    {
      gameActive ==> IsGrid(board, 3, 3) && Count(board, IsMarked) < 9
    }

    /** The fields before any game: no board, x first, not active, both tallies 0. */
    constructor ()
      ensures Valid()
      ensures board == [] && currentPlayer == X && !gameActive && p1Score == 0 && p2Score == 0
    {
      board := [];
      currentPlayer := X;
      gameActive := false;
      p1Score, p2Score := 0, 0;
    }

    /** `startNewGame`: an empty board, the game on, x to move; the tallies carry over. */
    method StartNewGame()
      modifies this
      ensures Valid()
      ensures board == Fill(3, 3, Empty) && gameActive && currentPlayer == X
      ensures p1Score == old(p1Score) && p2Score == old(p2Score)
    {
      board := Fill(3, 3, Empty);
      gameActive := true;
      currentPlayer := X;
      CountBound(board, 3, 3, IsMarked);
    }

    /** `makeMove(r, c)`: ignored when the game is over or the cell is taken. Otherwise
        the mover's mark goes in; a line of the mover's wins and raises exactly the
        mover's tally, which is checked before the draw; a full board is a draw that
        changes no tally; any other move passes the turn. */
    method MakeMove(r: int, c: int)
      requires Valid() && InBounds(3, 3, r, c)
      modifies this
      ensures Valid()
      ensures old(!gameActive || board[r][c].Marked?) ==>
                && board == old(board) && gameActive == old(gameActive) && currentPlayer == old(currentPlayer)
                && p1Score == old(p1Score) && p2Score == old(p2Score)
      ensures old(gameActive && board[r][c] == Empty) ==>
                && board == Set(old(board), r, c, Marked(old(currentPlayer)))
                && (HasLine(board, old(currentPlayer)) ==>
                      && !gameActive && currentPlayer == old(currentPlayer)
                      && p1Score == old(p1Score) + (if old(currentPlayer) == X then 1 else 0)
                      && p2Score == old(p2Score) + (if old(currentPlayer) == O then 1 else 0))
                && (!HasLine(board, old(currentPlayer)) && Count(board, IsMarked) == 9 ==>
                      && !gameActive && currentPlayer == old(currentPlayer)
                      && p1Score == old(p1Score) && p2Score == old(p2Score))
                && (!HasLine(board, old(currentPlayer)) && Count(board, IsMarked) < 9 ==>
                      && gameActive && currentPlayer == Other(old(currentPlayer))
                      && p1Score == old(p1Score) && p2Score == old(p2Score))
    {
      if !gameActive || board[r][c].Marked? {
        return;
      }
      CountSet(board, r, c, Marked(currentPlayer), IsMarked);
      CountBound(Set(board, r, c, Marked(currentPlayer)), 3, 3, IsMarked);
      board := Set(board, r, c, Marked(currentPlayer));
      LinesMeanWin(board, currentPlayer);
      if CheckWin(board, currentPlayer) {
        EndGame(false);
      } else if CheckDraw(board) {
        EndGame(true);
      } else {
        currentPlayer := if currentPlayer == X then O else X;
      }
    }

    /** The state part of `endGame`: the game stops, and unless it is a draw the tally of
        the player to move (the winner) rises by one. */
    method EndGame(isDraw: bool)
      modifies this
      ensures !gameActive && board == old(board) && currentPlayer == old(currentPlayer)
      ensures p1Score == old(p1Score) + (if !isDraw && currentPlayer == X then 1 else 0)
      ensures p2Score == old(p2Score) + (if !isDraw && currentPlayer == O then 1 else 0)
    {
      gameActive := false;
      if !isDraw {
        if currentPlayer == X {
          p1Score := p1Score + 1;
        } else {
          p2Score := p2Score + 1;
        }
      }
    }
  }
}

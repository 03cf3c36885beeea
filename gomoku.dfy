/** Gomoku on a 15 by 15 board: black and white take turns placing a stone on an empty
    point. Five stones in a row through the point just played, along one of four axes,
    win; a full board is a draw. */
module Gomoku {
  import opened Grid

  const Size := 15

  datatype Stone = Black | White

  /** A point of `gameState`: `null` or the colour of its stone. */
  datatype Point = Empty | Taken(stone: Stone)

  /** How a placement ends: the game goes on, or the argument `endGame` receives. */
  datatype Outcome = Ongoing | Draw | Win(winner: Stone)

  function Other(p: Stone): Stone
  {
    if p == Black then White else Black
  }

  function IsTaken(v: Point): bool { v.Taken? }

  /** `isValid`: (x, y) lies on the board. */
  predicate IsValid(x: int, y: int)
  {
    0 <= x < Size && 0 <= y < Size
  }

  /** The four axes of `checkWin` as (dx, dy): horizontal, vertical and the two diagonals. */
  const Axes: seq<(int, int)> := [(1, 0), (0, 1), (1, 1), (1, -1)]

  /** The point j steps from (x, y) along (dx, dy) is on the board and holds `v`. */
  predicate Holds(b: Board<Point>, x: int, y: int, dx: int, dy: int, v: Point, j: int)
  {
    var nx, ny := x + dx * j, y + dy * j;
    IsValid(nx, ny) && ny < |b| && nx < |b[ny]| && b[ny][nx] == v
  }

  /** One scanning loop of `checkWin`: how many of the points i, i + 1, ..., 4 steps out
      hold `v` before the first that does not. The loop stops after four steps, so a
      run counts at most 4. */
  function RunFrom(b: Board<Point>, x: int, y: int, dx: int, dy: int, v: Point, i: int): nat
    requires 1 <= i <= 5
    decreases 5 - i
  {
    if i == 5 || !Holds(b, x, y, dx, dy, v, i) then 0
    else 1 + RunFrom(b, x, y, dx, dy, v, i + 1)
  }

  function Run(b: Board<Point>, x: int, y: int, dx: int, dy: int, v: Point): nat
  {
    RunFrom(b, x, y, dx, dy, v, 1)
  }

  /** Five consecutive points along `d`, one of them (x, y), all hold `v`. */
  ghost predicate Five(b: Board<Point>, x: int, y: int, d: (int, int), v: Point)
  {
    exists s :: 0 <= s <= 4 && Window(b, x, y, d, v, s)
  }

  /** The five points from s steps behind (x, y) to 4 - s steps ahead along `d` hold `v`. */
  ghost predicate Window(b: Board<Point>, x: int, y: int, d: (int, int), v: Point, s: int)
  {
    forall j :: -s <= j <= 4 - s ==> Holds(b, x, y, d.0, d.1, v, j)
  }

  /** Some axis has five in a row of `v` through (x, y). */
  ghost predicate Won(b: Board<Point>, x: int, y: int, v: Point)
  {
    exists a :: 0 <= a < 4 && Five(b, x, y, Axes[a], v)
  }

  /** Every point holds a stone. */
  ghost predicate Full(b: Board<Point>)
    requires IsGrid(b, Size, Size)
  {
    forall y, x :: 0 <= y < Size && 0 <= x < Size ==> b[y][x].Taken?
  }

  /** A run of k from step i: the points i .. i + k - 1 hold `v`, and unless the scan
      reached step 4 the point after them does not. */
  lemma {:induction false} RunFacts(b: Board<Point>, x: int, y: int, dx: int, dy: int, v: Point, i: int)
    requires 1 <= i <= 5
    ensures var k := RunFrom(b, x, y, dx, dy, v, i);
            && k <= 5 - i
            && (forall j :: i <= j < i + k ==> Holds(b, x, y, dx, dy, v, j))
            && (i + k < 5 ==> !Holds(b, x, y, dx, dy, v, i + k))
    decreases 5 - i
  {
    if i < 5 && Holds(b, x, y, dx, dy, v, i) {
      RunFacts(b, x, y, dx, dy, v, i + 1);
    }
  }

  /** Every point of a run holds its colour. */
  lemma {:induction false} RunHolds(b: Board<Point>, x: int, y: int, dx: int, dy: int, v: Point, i: int, j: int)
    requires 1 <= i <= 5 && i <= j < i + RunFrom(b, x, y, dx, dy, v, i)
    ensures Holds(b, x, y, dx, dy, v, j)
    decreases 5 - i
  {
    if j > i {
      RunHolds(b, x, y, dx, dy, v, i + 1, j);
    }
  }

  /** Stepping backwards is stepping forwards along the opposite direction. */
  lemma Backwards(b: Board<Point>, x: int, y: int, dx: int, dy: int, v: Point, j: int)
    ensures Holds(b, x, y, -dx, -dy, v, j) == Holds(b, x, y, dx, dy, v, -j)
  {
    assert x + (-dx) * j == x + dx * (-j) && y + (-dy) * j == y + dy * (-j);
  }

  /** The counting test of `checkWin` on one axis (the stone itself, plus the forward run,
      plus the backward run, at least 5) holds exactly when five consecutive points along
      that axis through (x, y) hold the stone's colour. */
  lemma RunsMeanFive(b: Board<Point>, x: int, y: int, dx: int, dy: int, v: Point)
    requires Holds(b, x, y, dx, dy, v, 0)
    ensures 1 + Run(b, x, y, dx, dy, v) + Run(b, x, y, -dx, -dy, v) >= 5 <==> Five(b, x, y, (dx, dy), v)
  {
    if 1 + Run(b, x, y, dx, dy, v) + Run(b, x, y, -dx, -dy, v) >= 5 {
      RunsGiveFive(b, x, y, dx, dy, v);
    } else if Five(b, x, y, (dx, dy), v) {
      FiveGivesRuns(b, x, y, dx, dy, v);
    }
  }

  lemma RunsGiveFive(b: Board<Point>, x: int, y: int, dx: int, dy: int, v: Point)
    requires Holds(b, x, y, dx, dy, v, 0)
    requires 1 + Run(b, x, y, dx, dy, v) + Run(b, x, y, -dx, -dy, v) >= 5
    ensures Five(b, x, y, (dx, dy), v)
  {
    var f: int, k: int := Run(b, x, y, dx, dy, v), Run(b, x, y, -dx, -dy, v);
    var s: int := if k >= 4 then 4 else k;
    forall j | -s <= j <= 4 - s
      ensures Holds(b, x, y, dx, dy, v, j)
    {
      if j < 0 {
        RunHolds(b, x, y, -dx, -dy, v, 1, -j);
        Backwards(b, x, y, dx, dy, v, -j);
      } else if j > 0 {
        RunHolds(b, x, y, dx, dy, v, 1, j);
      }
    }
    assert Window(b, x, y, (dx, dy), v, s);
  }

  lemma FiveGivesRuns(b: Board<Point>, x: int, y: int, dx: int, dy: int, v: Point)
    requires Five(b, x, y, (dx, dy), v)
    ensures 1 + Run(b, x, y, dx, dy, v) + Run(b, x, y, -dx, -dy, v) >= 5
  {
    var f: int, k: int := Run(b, x, y, dx, dy, v), Run(b, x, y, -dx, -dy, v);
    RunFacts(b, x, y, dx, dy, v, 1);
    RunFacts(b, x, y, -dx, -dy, v, 1);
    var s: int :| 0 <= s <= 4 && Window(b, x, y, (dx, dy), v, s);
    // A forward run shorter than 4 - s, or a backward run shorter than s, would stop
    // at a point inside the window.
    Backwards(b, x, y, dx, dy, v, 1 + k);
  }

  /** Every window through (x, y) contains (x, y), so only the colour standing there can
      have five in a row through it: the winner is always the player who just moved. */
  lemma WinnerOwnsPoint(b: Board<Point>, x: int, y: int, v: Point)
    requires IsGrid(b, Size, Size) && IsValid(x, y) && Won(b, x, y, v)
    ensures b[y][x] == v
  {
    var a :| 0 <= a < 4 && Five(b, x, y, Axes[a], v);
    var s :| 0 <= s <= 4 && Window(b, x, y, Axes[a], v, s);
    assert Holds(b, x, y, Axes[a].0, Axes[a].1, v, 0);
  }

  /** One scanning loop of `checkWin`, from (x, y) along (dx, dy). */
  method Scan(b: Board<Point>, x: int, y: int, dx: int, dy: int, v: Point) returns (n: nat)
    requires IsGrid(b, Size, Size)
    ensures n == Run(b, x, y, dx, dy, v)
  {
    n := 0;
    var i := 1;
    while i < 5
      invariant 1 <= i <= 5 && n == i - 1
      invariant Run(b, x, y, dx, dy, v) == n + RunFrom(b, x, y, dx, dy, v, i)
    {
      var nx, ny := x + dx * i, y + dy * i;
      if IsValid(nx, ny) && b[ny][nx] == v {
        n := n + 1;
      } else {
        break;
      }
      i := i + 1;
    }
  }

  class Game {
    var gameState: Board<Point>
    var currentPlayer: Stone
    var gameActive: bool
    var moveHistory: seq<(int, int)>

    /** Each recorded move is an occupied point, there are as many moves as stones, and
        a game in progress has a free point. */
    ghost predicate Valid()
      reads this
    {
      Tracked() && (gameActive ==> |moveHistory| < Size * Size)
    }

    /** The move record and the board agree. */
    ghost predicate Tracked()
      reads this
    {
      && IsGrid(gameState, Size, Size)
      && |moveHistory| == Count(gameState, IsTaken)
      && (forall k :: 0 <= k < |moveHistory| ==>
            IsValid(moveHistory[k].0, moveHistory[k].1) && gameState[moveHistory[k].1][moveHistory[k].0].Taken?)
    }

    constructor ()
      ensures Valid()
      ensures gameState == Fill(Size, Size, Empty)
      ensures currentPlayer == Black && gameActive && moveHistory == []
    {
      new;
      ResetGame();
    }

    /** `resetGame`: an empty board, black to move, the game on, no moves recorded. */
    method ResetGame()
      modifies this
      ensures Valid()
      ensures gameState == Fill(Size, Size, Empty)
      ensures currentPlayer == Black && gameActive && moveHistory == []
    {
      gameState := Fill(Size, Size, Empty);
      currentPlayer := Black;
      gameActive := true;
      moveHistory := [];
      CountBound(gameState, Size, Size, IsTaken);
    }

    /** `handleCellClick`: ignored when the game is over or the point is occupied;
        otherwise the stone is placed. */
    method HandleCellClick(x: int, y: int)
      requires Valid() && IsValid(x, y)
      modifies this
      ensures Valid()
      ensures old(!gameActive || gameState[y][x].Taken?) ==>
                && gameState == old(gameState) && moveHistory == old(moveHistory)
                && gameActive == old(gameActive) && currentPlayer == old(currentPlayer)
      ensures old(gameActive && gameState[y][x] == Empty) ==>
                && gameState == Set(old(gameState), y, x, Taken(old(currentPlayer)))
                && moveHistory == old(moveHistory) + [(x, y)]
                && (gameActive <==> !Won(gameState, x, y, Taken(old(currentPlayer))) && !Full(gameState))
                && currentPlayer == (if gameActive then Other(old(currentPlayer)) else old(currentPlayer))
    {
      if !gameActive {
        return;
      }
      if gameState[y][x].Taken? {
        return;
      }
      var outcome := PlaceStone(x, y);
    }

    /** `placeStone`: the mover's stone goes on (x, y) and is recorded; then a win ends
        the game for the mover, else a full board ends it drawn, else the turn passes. */
    method PlaceStone(x: int, y: int) returns (outcome: Outcome)
      requires Valid() && IsValid(x, y) && gameState[y][x] == Empty
      modifies this
      ensures gameState == Set(old(gameState), y, x, Taken(old(currentPlayer)))
      ensures moveHistory == old(moveHistory) + [(x, y)]
      ensures Valid()
      ensures Won(gameState, x, y, Taken(old(currentPlayer))) ==>
                outcome == Win(old(currentPlayer)) && !gameActive && currentPlayer == old(currentPlayer)
      ensures !Won(gameState, x, y, Taken(old(currentPlayer))) && Full(gameState) ==>
                outcome == Draw && !gameActive && currentPlayer == old(currentPlayer)
      ensures !Won(gameState, x, y, Taken(old(currentPlayer))) && !Full(gameState) ==>
                outcome == Ongoing && gameActive == old(gameActive) && currentPlayer == Other(old(currentPlayer))
    {
      CountSet(gameState, y, x, Taken(currentPlayer), IsTaken);
      gameState := Set(gameState, y, x, Taken(currentPlayer));
      moveHistory := moveHistory + [(x, y)];
      var won := CheckWin(x, y);
      if won {
        outcome := Win(currentPlayer);
        EndGame();
        return;
      }
      var draw := CheckDraw();
      if draw {
        outcome := Draw;
        EndGame();
      } else {
        outcome := Ongoing;
        CountBound(gameState, Size, Size, IsTaken);
        TogglePlayer();
      }
    }

    /** `togglePlayer`. */
    method TogglePlayer()
      modifies this
      ensures currentPlayer == Other(old(currentPlayer))
      ensures gameState == old(gameState) && gameActive == old(gameActive) && moveHistory == old(moveHistory)
    {
      currentPlayer := if currentPlayer == Black then White else Black;
    }

    /** The state part of `endGame`. */
    method EndGame()
      modifies this
      ensures !gameActive
      ensures gameState == old(gameState) && currentPlayer == old(currentPlayer) && moveHistory == old(moveHistory)
    {
      gameActive := false;
    }

    /** `checkWin(x, y)`: scans the four axes both ways from (x, y) for the colour found
        there, and holds exactly when one axis has five in a row through (x, y). Every
        point read passes `IsValid` first. */
    method CheckWin(x: int, y: int) returns (won: bool)
      requires IsGrid(gameState, Size, Size) && IsValid(x, y)
      ensures won <==> Won(gameState, x, y, gameState[y][x])
    {
      var player := gameState[y][x];
      var a := 0;
      while a < 4
        invariant 0 <= a <= 4
        invariant forall a' :: 0 <= a' < a ==> !Five(gameState, x, y, Axes[a'], player)
      {
        var (dx, dy) := Axes[a];
        var count := 1;
        var forward := Scan(gameState, x, y, dx, dy, player);
        count := count + forward;
        var backward := Scan(gameState, x, y, -dx, -dy, player);
        count := count + backward;
        assert Holds(gameState, x, y, dx, dy, player, 0);
        RunsMeanFive(gameState, x, y, dx, dy, player);
        if count >= 5 {
          return true;
        }
        a := a + 1;
      }
      return false;
    }

    /** `checkDraw`: as many moves as points, which holds exactly when the board is full. */
    method CheckDraw() returns (draw: bool)
      requires Tracked()
      ensures draw <==> Full(gameState)
    {
      CountBound(gameState, Size, Size, IsTaken);
      draw := |moveHistory| >= Size * Size;
    }
  }
}

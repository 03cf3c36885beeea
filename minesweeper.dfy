/** Minesweeper: a rows by cols field of cells, some of them mines. The first click
    plants the mines away from the clicked cell and numbers every safe cell with its
    count of neighbouring mines; a click on a zero cell floods outward. */
module Minesweeper {
  import opened Grid

  datatype Cell = Cell(isMine: bool, isRevealed: bool, isFlagged: bool, neighborMines: int)

  /** The cell `createBoard` makes. */
  const Fresh: Cell := Cell(false, false, false, 0)

  datatype Difficulty = Easy | Medium | Hard

  /** Rows, columns and mines of each difficulty. */
  function Config(d: Difficulty): (int, int, int)
  {
    match d
    case Easy => (9, 9, 10)
    case Medium => (16, 16, 40)
    case Hard => (16, 30, 99)
  }

  function IsMine(x: Cell): bool { x.isMine }
  function IsRevealed(x: Cell): bool { x.isRevealed }
  function IsFlagged(x: Cell): bool { x.isFlagged }
  function IsHidden(x: Cell): bool { !x.isRevealed }
  function IsSafe(x: Cell): bool { !x.isMine }

  /** Number of cells not yet revealed: the measure that makes the flood fill stop. */
  function Hidden(b: Board<Cell>): nat { Count(b, IsHidden) }

  /** The neighbour of (r, c) in direction k. */
  function Neighbour(r: int, c: int, k: int): (int, int)
    requires 0 <= k < 8
  {
    DirectionsAreDirs();
    (r + Directions[k].0, c + Directions[k].1)
  }

  /** Mines among the neighbours of (r, c) in directions i .. 7 that lie on the board. */
  function MinesFrom(b: Board<Cell>, rows: nat, cols: nat, r: int, c: int, i: nat): nat
    requires IsGrid(b, rows, cols) && i <= 8
    decreases 8 - i
  {
    if i == 8 then 0
    else
      var n := Neighbour(r, c, i);
      (if InBounds(rows, cols, n.0, n.1) && b[n.0][n.1].isMine then 1 else 0) + MinesFrom(b, rows, cols, r, c, i + 1)
  }

  /** The count `calculateNumbers` writes into a safe cell. */
  function MinesAround(b: Board<Cell>, rows: nat, cols: nat, r: int, c: int): nat
    requires IsGrid(b, rows, cols)
  {
    MinesFrom(b, rows, cols, r, c, 0)
  }

  /** Every safe cell carries the number of mines around it. */
  ghost predicate NumbersCorrect(b: Board<Cell>, rows: nat, cols: nat)
    requires IsGrid(b, rows, cols)
  {
    forall r, c :: 0 <= r < rows && 0 <= c < cols && !b[r][c].isMine ==>
      b[r][c].neighborMines == MinesAround(b, rows, cols, r, c)
  }

  /** The two boards have their mines in the same cells. */
  ghost predicate SameMines(b: Board<Cell>, b': Board<Cell>, rows: nat, cols: nat)
    requires IsGrid(b, rows, cols) && IsGrid(b', rows, cols)
  {
    forall r, c :: 0 <= r < rows && 0 <= c < cols ==> b'[r][c].isMine == b[r][c].isMine
  }

  /** `calculateNumbers`: every safe cell gets its count, mines are left alone. */
  function Numbered(b: Board<Cell>, rows: nat, cols: nat): (b': Board<Cell>)
    requires IsGrid(b, rows, cols)
    ensures IsGrid(b', rows, cols)
  {
    seq(rows, r requires 0 <= r < rows => seq(cols, c requires 0 <= c < cols =>
      if b[r][c].isMine then b[r][c] else b[r][c].(neighborMines := MinesAround(b, rows, cols, r, c))))
  }

  /** (r, c) is the first-clicked cell or one of its eight neighbours. */
  predicate NearSafe(r: int, c: int, safeR: int, safeC: int)
  {
    -1 <= r - safeR <= 1 && -1 <= c - safeC <= 1
  }

  ghost predicate PicksOnBoard(picks: seq<(int, int)>, rows: nat, cols: nat)
  {
    forall k :: 0 <= k < |picks| ==> InBounds(rows, cols, picks[k].0, picks[k].1)
  }

  /** The mine-placing loop of `placeMines`: each random pick that is not yet a mine and
      not next to the first click becomes a mine, until `want` more mines are placed. */
  function Planted(b: Board<Cell>, rows: nat, cols: nat, want: nat, safeR: int, safeC: int, picks: seq<(int, int)>): (b': Board<Cell>)
    requires IsGrid(b, rows, cols) && PicksOnBoard(picks, rows, cols)
    ensures IsGrid(b', rows, cols)
    decreases |picks|
  {
    if want == 0 || |picks| == 0 then b
    else
      var (r, c) := picks[0];
      if !b[r][c].isMine && !NearSafe(r, c, safeR, safeC) then
        Planted(Set(b, r, c, b[r][c].(isMine := true)), rows, cols, want - 1, safeR, safeC, picks[1..])
      else
        Planted(b, rows, cols, want, safeR, safeC, picks[1..])
  }

  /** One reveal step on a cell: nothing, or a hidden unflagged cell turned face up. */
  predicate Step(x: Cell, y: Cell)
  {
    y == x || (!x.isFlagged && !x.isRevealed && y == x.(isRevealed := true))
  }

  /** `b'` differs from `b` only by cells turned face up, none of them flagged. */
  ghost predicate Grows(b: Board<Cell>, b': Board<Cell>, rows: nat, cols: nat)
  {
    IsGrid(b, rows, cols) && IsGrid(b', rows, cols)
    && forall r, c :: 0 <= r < rows && 0 <= c < cols ==> Step(b[r][c], b'[r][c])
  }

  /** `revealCell(r, c)`: a revealed or flagged cell stops the fill; otherwise the cell
      is turned face up, and a cell with no mine around it goes on to its neighbours. */
  function Reveal(b: Board<Cell>, rows: nat, cols: nat, r: int, c: int): (b': Board<Cell>)
    requires IsGrid(b, rows, cols) && InBounds(rows, cols, r, c)
    ensures IsGrid(b', rows, cols) && Hidden(b') <= Hidden(b)
    decreases Hidden(b), 1
  {
    var cell := b[r][c];
    if cell.isRevealed || cell.isFlagged then b
    else
      var b1 := Set(b, r, c, cell.(isRevealed := true));
      CountSet(b, r, c, cell.(isRevealed := true), IsHidden);
      if cell.neighborMines > 0 then b1 else RevealAround(b1, rows, cols, r, c, 0)
  }

  /** The `forEach` over the directions i .. 7 of a zero cell. */
  function RevealAround(b: Board<Cell>, rows: nat, cols: nat, r: int, c: int, i: nat): (b': Board<Cell>)
    requires IsGrid(b, rows, cols) && i <= 8
    ensures IsGrid(b', rows, cols) && Hidden(b') <= Hidden(b)
    decreases Hidden(b), 9 - i
  {
    if i == 8 then b
    else
      var n := Neighbour(r, c, i);
      var b1 := if InBounds(rows, cols, n.0, n.1) then Reveal(b, rows, cols, n.0, n.1) else b;
      RevealAround(b1, rows, cols, r, c, i + 1)
  }

  /** No mine is face up. */
  ghost predicate NoMineShown(b: Board<Cell>, rows: nat, cols: nat)
    requires IsGrid(b, rows, cols)
  {
    forall r, c :: 0 <= r < rows && 0 <= c < cols ==> !(b[r][c].isMine && b[r][c].isRevealed)
  }

  // ---------------------------------------------------------------- numbers

  lemma {:induction false} MinesFromFacts(b: Board<Cell>, rows: nat, cols: nat, r: int, c: int, i: nat)
    requires IsGrid(b, rows, cols) && i <= 8
    ensures MinesFrom(b, rows, cols, r, c, i) <= 8 - i
    ensures MinesFrom(b, rows, cols, r, c, i) == 0 <==>
              forall k :: i <= k < 8 && InBounds(rows, cols, Neighbour(r, c, k).0, Neighbour(r, c, k).1) ==>
                !b[Neighbour(r, c, k).0][Neighbour(r, c, k).1].isMine
    decreases 8 - i
  {
    if i < 8 {
      MinesFromFacts(b, rows, cols, r, c, i + 1);
    }
  }

  /** A cell has between 0 and 8 mines around it, and 0 exactly when none of its
      neighbours on the board is a mine. */
  lemma MinesAroundFacts(b: Board<Cell>, rows: nat, cols: nat, r: int, c: int)
    requires IsGrid(b, rows, cols)
    ensures 0 <= MinesAround(b, rows, cols, r, c) <= 8
    ensures MinesAround(b, rows, cols, r, c) == 0 <==>
              forall k :: 0 <= k < 8 && InBounds(rows, cols, Neighbour(r, c, k).0, Neighbour(r, c, k).1) ==>
                !b[Neighbour(r, c, k).0][Neighbour(r, c, k).1].isMine
  {
    MinesFromFacts(b, rows, cols, r, c, 0);
  }

  lemma {:induction false} MinesFromSame(b: Board<Cell>, b': Board<Cell>, rows: nat, cols: nat, r: int, c: int, i: nat)
    requires IsGrid(b, rows, cols) && IsGrid(b', rows, cols) && SameMines(b, b', rows, cols) && i <= 8
    ensures MinesFrom(b', rows, cols, r, c, i) == MinesFrom(b, rows, cols, r, c, i)
    decreases 8 - i
  {
    if i < 8 {
      MinesFromSame(b, b', rows, cols, r, c, i + 1);
    }
  }

  /** Boards with the same mines give every cell the same count. */
  lemma MinesAroundSame(b: Board<Cell>, b': Board<Cell>, rows: nat, cols: nat)
    requires IsGrid(b, rows, cols) && IsGrid(b', rows, cols) && SameMines(b, b', rows, cols)
    ensures forall r, c :: MinesAround(b', rows, cols, r, c) == MinesAround(b, rows, cols, r, c)
  {
    forall r, c ensures MinesAround(b', rows, cols, r, c) == MinesAround(b, rows, cols, r, c) {
      MinesFromSame(b, b', rows, cols, r, c, 0);
    }
  }

  /** After `calculateNumbers` every safe cell is numbered correctly, each number lies in
      0 .. 8, and nothing but the numbers of safe cells has changed. */
  lemma NumberedCorrect(b: Board<Cell>, rows: nat, cols: nat)
    requires IsGrid(b, rows, cols)
    ensures var b' := Numbered(b, rows, cols);
            && NumbersCorrect(b', rows, cols)
            && (forall r, c :: 0 <= r < rows && 0 <= c < cols ==> 0 <= b'[r][c].neighborMines <= 8 || b[r][c].isMine)
            && forall r, c :: 0 <= r < rows && 0 <= c < cols ==> b'[r][c] == b[r][c].(neighborMines := b'[r][c].neighborMines)
  {
    var b' := Numbered(b, rows, cols);
    assert SameMines(b, b', rows, cols);
    MinesAroundSame(b, b', rows, cols);
    forall r, c | 0 <= r < rows && 0 <= c < cols
      ensures 0 <= b'[r][c].neighborMines <= 8 || b[r][c].isMine
    {
      MinesAroundFacts(b, rows, cols, r, c);
    }
  }

  // ------------------------------------------------------------------ mines

  /** `placeMines` plants no more mines than asked, only on safe cells away from the
      first click, changes nothing else, and falls short only when every usable pick
      has been used. */
  lemma {:induction false} PlantedFacts(b: Board<Cell>, rows: nat, cols: nat, want: nat, safeR: int, safeC: int, picks: seq<(int, int)>)
    requires IsGrid(b, rows, cols) && PicksOnBoard(picks, rows, cols)
    ensures var b' := Planted(b, rows, cols, want, safeR, safeC, picks);
            && Count(b, IsMine) <= Count(b', IsMine) <= Count(b, IsMine) + want
            && (forall r, c :: 0 <= r < rows && 0 <= c < cols ==>
                  b'[r][c] == b[r][c] || (!b[r][c].isMine && !NearSafe(r, c, safeR, safeC) && b'[r][c] == b[r][c].(isMine := true)))
            && (Count(b', IsMine) < Count(b, IsMine) + want ==>
                  forall k :: 0 <= k < |picks| && !NearSafe(picks[k].0, picks[k].1, safeR, safeC) ==> b'[picks[k].0][picks[k].1].isMine)
    decreases |picks|
  {
    if want > 0 && |picks| > 0 {
      var (r, c) := picks[0];
      assert PicksOnBoard(picks[1..], rows, cols) by {
        assert forall k :: 0 <= k < |picks| - 1 ==> picks[1..][k] == picks[k + 1];
      }
      if !b[r][c].isMine && !NearSafe(r, c, safeR, safeC) {
        var b1 := Set(b, r, c, b[r][c].(isMine := true));
        CountSet(b, r, c, b[r][c].(isMine := true), IsMine);
        PlantedFacts(b1, rows, cols, want - 1, safeR, safeC, picks[1..]);
        var b': Board<Cell> := Planted(b1, rows, cols, want - 1, safeR, safeC, picks[1..]);
        assert b'[r][c].isMine;
      } else {
        PlantedFacts(b, rows, cols, want, safeR, safeC, picks[1..]);
      }
    }
  }

  // -------------------------------------------------------------- flood fill

  lemma StepTrans(x: Cell, y: Cell, z: Cell)
    requires Step(x, y) && Step(y, z)
    ensures Step(x, z)
  {
  }

  lemma GrowsTrans(b: Board<Cell>, b1: Board<Cell>, b2: Board<Cell>, rows: nat, cols: nat)
    requires Grows(b, b1, rows, cols) && Grows(b1, b2, rows, cols)
    ensures Grows(b, b2, rows, cols)
  {
    forall r, c | 0 <= r < rows && 0 <= c < cols ensures Step(b[r][c], b2[r][c]) {
      StepTrans(b[r][c], b1[r][c], b2[r][c]);
    }
  }

  /** Turning cells face up keeps the mines, the flags and the numbers, so the numbers
      stay correct. */
  lemma GrowsKeepsNumbers(b: Board<Cell>, b': Board<Cell>, rows: nat, cols: nat)
    requires Grows(b, b', rows, cols) && NumbersCorrect(b, rows, cols)
    ensures NumbersCorrect(b', rows, cols) && SameMines(b, b', rows, cols)
  {
    assert SameMines(b, b', rows, cols);
    MinesAroundSame(b, b', rows, cols);
  }

  /** Turning one hidden, unflagged safe cell face up is a growth step that keeps the
      numbers right and shows no mine, and it leaves one hidden cell fewer. */
  lemma TurnUpSafe(b: Board<Cell>, rows: nat, cols: nat, r: int, c: int)
    requires IsGrid(b, rows, cols) && InBounds(rows, cols, r, c)
    requires NumbersCorrect(b, rows, cols) && NoMineShown(b, rows, cols)
    requires !b[r][c].isMine && !b[r][c].isRevealed && !b[r][c].isFlagged
    ensures var b1 := Set(b, r, c, b[r][c].(isRevealed := true));
            && Hidden(b1) < Hidden(b) && b1[r][c].isRevealed
            && Grows(b, b1, rows, cols) && NumbersCorrect(b1, rows, cols) && NoMineShown(b1, rows, cols)
  {
    var cell := b[r][c];
    var b1 := Set(b, r, c, cell.(isRevealed := true));
    CountSet(b, r, c, cell.(isRevealed := true), IsHidden);
    assert Grows(b, b1, rows, cols);
    GrowsKeepsNumbers(b, b1, rows, cols);
  }

  /** The flood fill from a safe cell only turns cells face up, never a flagged one,
      never a mine, and always the clicked cell unless it is flagged: it recurses only
      from a cell whose count is zero, and all neighbours of such a cell are safe. */
  lemma {:induction false} RevealSafe(b: Board<Cell>, rows: nat, cols: nat, r: int, c: int)
    requires IsGrid(b, rows, cols) && InBounds(rows, cols, r, c)
    requires NumbersCorrect(b, rows, cols) && NoMineShown(b, rows, cols) && !b[r][c].isMine
    ensures var b' := Reveal(b, rows, cols, r, c);
            && Grows(b, b', rows, cols) && NoMineShown(b', rows, cols)
            && (!b[r][c].isFlagged ==> b'[r][c].isRevealed)
    decreases Hidden(b), 1
  {
    var cell := b[r][c];
    if !cell.isRevealed && !cell.isFlagged {
      var b1 := Set(b, r, c, cell.(isRevealed := true));
      TurnUpSafe(b, rows, cols, r, c);
      if cell.neighborMines == 0 {
        var b2: Board<Cell> := RevealAround(b1, rows, cols, r, c, 0);
        assert Grows(b1, b2, rows, cols) && NoMineShown(b2, rows, cols) by {
          assert MinesFrom(b1, rows, cols, r, c, 0) == 0;
          RevealAroundSafe(b1, rows, cols, r, c, 0);
        }
        GrowsTrans(b, b1, b2, rows, cols);
      }
    }
  }

  lemma {:induction false} RevealAroundSafe(b: Board<Cell>, rows: nat, cols: nat, r: int, c: int, i: nat)
    requires IsGrid(b, rows, cols) && i <= 8
    requires NumbersCorrect(b, rows, cols) && NoMineShown(b, rows, cols)
    requires MinesFrom(b, rows, cols, r, c, i) == 0
    ensures var b' := RevealAround(b, rows, cols, r, c, i);
            Grows(b, b', rows, cols) && NoMineShown(b', rows, cols)
    decreases Hidden(b), 9 - i
  {
    if i < 8 {
      var n := Neighbour(r, c, i);
      if InBounds(rows, cols, n.0, n.1) {
        var b1: Board<Cell> := Reveal(b, rows, cols, n.0, n.1);
        assert Grows(b, b1, rows, cols) && NumbersCorrect(b1, rows, cols) && NoMineShown(b1, rows, cols) by {
          RevealSafe(b, rows, cols, n.0, n.1);
          GrowsKeepsNumbers(b, b1, rows, cols);
        }
        assert MinesFrom(b1, rows, cols, r, c, i + 1) == 0 by {
          GrowsKeepsNumbers(b, b1, rows, cols);
          MinesFromSame(b, b1, rows, cols, r, c, i + 1);
        }
        var b2 := RevealAround(b1, rows, cols, r, c, i + 1);
        assert Grows(b1, b2, rows, cols) && NoMineShown(b2, rows, cols) by {
          RevealAroundSafe(b1, rows, cols, r, c, i + 1);
        }
        GrowsTrans(b, b1, b2, rows, cols);
      } else {
        RevealAroundSafe(b, rows, cols, r, c, i + 1);
      }
    }
  }

  /** A cell that stops the fill: face up already, or flagged. */
  predicate Up(x: Cell)
  {
    x.isRevealed || x.isFlagged
  }

  /** Every on-board neighbour of (x, y) in directions i .. 7 is face up or flagged. */
  ghost predicate NeighboursUp(b: Board<Cell>, rows: nat, cols: nat, x: int, y: int, i: nat)
    requires IsGrid(b, rows, cols)
  {
    forall k :: i <= k < 8 && InBounds(rows, cols, Neighbour(x, y, k).0, Neighbour(x, y, k).1) ==>
      Up(b[Neighbour(x, y, k).0][Neighbour(x, y, k).1])
  }

  /** The flood fill's promise from `b` to `b'`: every cell it turned face up whose
      count is not positive has all its on-board neighbours face up (or flagged) in `b'`,
      so the fill goes on through connected zero cells and stops at the numbered cells
      bordering them. */
  ghost predicate Spread(b: Board<Cell>, b': Board<Cell>, rows: nat, cols: nat)
    requires IsGrid(b, rows, cols) && IsGrid(b', rows, cols)
  {
    forall x, y ::
      0 <= x < rows && 0 <= y < cols && !b[x][y].isRevealed && b'[x][y].isRevealed && b'[x][y].neighborMines <= 0
      ==> NeighboursUp(b', rows, cols, x, y, 0)
  }

  /** Turning cells face up never turns a stopping cell back. */
  lemma GrowsKeepsUp(b: Board<Cell>, b': Board<Cell>, rows: nat, cols: nat, x: int, y: int, i: nat)
    requires Grows(b, b', rows, cols) && NeighboursUp(b, rows, cols, x, y, i)
    ensures NeighboursUp(b', rows, cols, x, y, i)
  {
    forall k | i <= k < 8 && InBounds(rows, cols, Neighbour(x, y, k).0, Neighbour(x, y, k).1)
      ensures Up(b'[Neighbour(x, y, k).0][Neighbour(x, y, k).1])
    {
      var n := Neighbour(x, y, k);
      assert Step(b[n.0][n.1], b'[n.0][n.1]);
    }
  }

  lemma SpreadTrans(b: Board<Cell>, b1: Board<Cell>, b2: Board<Cell>, rows: nat, cols: nat)
    requires Grows(b, b1, rows, cols) && Grows(b1, b2, rows, cols)
    requires Spread(b, b1, rows, cols) && Spread(b1, b2, rows, cols)
    ensures Spread(b, b2, rows, cols)
  {
    forall x, y | 0 <= x < rows && 0 <= y < cols && !b[x][y].isRevealed && b2[x][y].isRevealed
      && b2[x][y].neighborMines <= 0
      ensures NeighboursUp(b2, rows, cols, x, y, 0)
    {
      if b1[x][y].isRevealed {
        assert Step(b1[x][y], b2[x][y]);
        GrowsKeepsUp(b1, b2, rows, cols, x, y, 0);
      }
    }
  }

  lemma NeighboursUpExtend(b: Board<Cell>, rows: nat, cols: nat, x: int, y: int, i: nat)
    requires IsGrid(b, rows, cols) && i < 8 && NeighboursUp(b, rows, cols, x, y, i + 1)
    requires InBounds(rows, cols, Neighbour(x, y, i).0, Neighbour(x, y, i).1) ==>
      Up(b[Neighbour(x, y, i).0][Neighbour(x, y, i).1])
    ensures NeighboursUp(b, rows, cols, x, y, i)
  {
  }

  /** Turning (r, c) face up and then spreading around it spreads from the start. */
  lemma SpreadAfterTurnUp(b: Board<Cell>, b1: Board<Cell>, b2: Board<Cell>, rows: nat, cols: nat, r: int, c: int)
    requires IsGrid(b, rows, cols) && IsGrid(b2, rows, cols) && InBounds(rows, cols, r, c)
    requires b1 == Set(b, r, c, b[r][c].(isRevealed := true))
    requires Spread(b1, b2, rows, cols) && NeighboursUp(b2, rows, cols, r, c, 0)
    ensures Spread(b, b2, rows, cols)
  {
    forall x, y | 0 <= x < rows && 0 <= y < cols && !b[x][y].isRevealed && b2[x][y].isRevealed
      && b2[x][y].neighborMines <= 0
      ensures NeighboursUp(b2, rows, cols, x, y, 0)
    {
      if (x, y) != (r, c) {
        assert !b1[x][y].isRevealed;
      }
    }
  }

  /** `revealCell` spreads: from a safe cell, every cell the fill turns face up with no
      mine around it has all its neighbours face up or flagged afterwards. */
  lemma {:induction false} RevealSpreads(b: Board<Cell>, rows: nat, cols: nat, r: int, c: int)
    requires IsGrid(b, rows, cols) && InBounds(rows, cols, r, c)
    requires NumbersCorrect(b, rows, cols) && NoMineShown(b, rows, cols) && !b[r][c].isMine
    ensures Spread(b, Reveal(b, rows, cols, r, c), rows, cols)
    decreases Hidden(b), 1
  {
    var cell := b[r][c];
    if !cell.isRevealed && !cell.isFlagged {
      var b1: Board<Cell> := Set(b, r, c, cell.(isRevealed := true));
      if cell.neighborMines > 0 {
        assert Spread(b, b1, rows, cols);
        assert Reveal(b, rows, cols, r, c) == b1;
      } else {
        var b2: Board<Cell> := RevealAround(b1, rows, cols, r, c, 0);
        assert Spread(b1, b2, rows, cols) && NeighboursUp(b2, rows, cols, r, c, 0) by {
          TurnUpSafe(b, rows, cols, r, c);
          assert MinesFrom(b1, rows, cols, r, c, 0) == 0;
          RevealAroundSpreads(b1, rows, cols, r, c, 0);
        }
        SpreadAfterTurnUp(b, b1, b2, rows, cols, r, c);
        assert Reveal(b, rows, cols, r, c) == b2;
      }
    }
  }

  /** The neighbour loop of a zero cell spreads, and leaves each of the neighbours i .. 7
      on the board face up or flagged. */
  lemma {:induction false} RevealAroundSpreads(b: Board<Cell>, rows: nat, cols: nat, r: int, c: int, i: nat)
    requires IsGrid(b, rows, cols) && i <= 8
    requires NumbersCorrect(b, rows, cols) && NoMineShown(b, rows, cols)
    requires MinesFrom(b, rows, cols, r, c, i) == 0
    ensures var b' := RevealAround(b, rows, cols, r, c, i);
            Spread(b, b', rows, cols) && NeighboursUp(b', rows, cols, r, c, i)
    decreases Hidden(b), 9 - i
  {
    if i < 8 {
      var n := Neighbour(r, c, i);
      if InBounds(rows, cols, n.0, n.1) {
        var b1: Board<Cell> := Reveal(b, rows, cols, n.0, n.1);
        assert Grows(b, b1, rows, cols) && Spread(b, b1, rows, cols) && NumbersCorrect(b1, rows, cols)
          && NoMineShown(b1, rows, cols) && MinesFrom(b1, rows, cols, r, c, i + 1) == 0 by {
          RevealSafe(b, rows, cols, n.0, n.1);
          RevealSpreads(b, rows, cols, n.0, n.1);
          GrowsKeepsNumbers(b, b1, rows, cols);
          MinesFromSame(b, b1, rows, cols, r, c, i + 1);
        }
        var b2: Board<Cell> := RevealAround(b1, rows, cols, r, c, i + 1);
        assert Grows(b1, b2, rows, cols) && Spread(b1, b2, rows, cols) && NeighboursUp(b2, rows, cols, r, c, i + 1) by {
          RevealAroundSpreads(b1, rows, cols, r, c, i + 1);
          RevealAroundSafe(b1, rows, cols, r, c, i + 1);
        }
        SpreadTrans(b, b1, b2, rows, cols);
        assert Up(b2[n.0][n.1]) by {
          RevealSafe(b, rows, cols, n.0, n.1);
          assert Step(b[n.0][n.1], b1[n.0][n.1]);
          assert Step(b1[n.0][n.1], b2[n.0][n.1]);
        }
        NeighboursUpExtend(b2, rows, cols, r, c, i);
      } else {
        RevealAroundSpreads(b, rows, cols, r, c, i + 1);
      }
    }
  }

  /** (x, y) is a cell the fill opened from `b` to `b'` whose count is not positive,
      so the fill went on from it to its neighbours. */
  ghost predicate OpenedZero(b: Board<Cell>, b': Board<Cell>, rows: nat, cols: nat, x: int, y: int)
    requires IsGrid(b, rows, cols) && IsGrid(b', rows, cols)
  {
    InBounds(rows, cols, x, y) && !b[x][y].isRevealed && b'[x][y].isRevealed && b'[x][y].neighborMines <= 0
  }

  /** Some neighbour of (x, y) is a zero cell opened from `b` to `b'`. */
  ghost predicate Supported(b: Board<Cell>, b': Board<Cell>, rows: nat, cols: nat, x: int, y: int)
    requires IsGrid(b, rows, cols) && IsGrid(b', rows, cols)
  {
    exists k :: 0 <= k < 8 && OpenedZero(b, b', rows, cols, Neighbour(x, y, k).0, Neighbour(x, y, k).1)
  }

  /** (x, y) is one of the eight neighbours of (r, c). */
  ghost predicate NextTo(r: int, c: int, x: int, y: int)
  {
    exists k :: 0 <= k < 8 && Neighbour(r, c, k) == (x, y)
  }

  /** The converse of `Spread`: besides the clicked cell (r, c), the fill from `b` to `b'`
      turns face up only neighbours of zero cells it opened. */
  ghost predicate OnlyFromZero(b: Board<Cell>, b': Board<Cell>, rows: nat, cols: nat, r: int, c: int)
    requires IsGrid(b, rows, cols) && IsGrid(b', rows, cols)
  {
    forall x, y ::
      0 <= x < rows && 0 <= y < cols && (x, y) != (r, c) && !b[x][y].isRevealed && b'[x][y].isRevealed
      ==> Supported(b, b', rows, cols, x, y)
  }

  /** The same for the neighbour loop of (r, c): each cell it turns face up is a neighbour
      of (r, c) or of a zero cell it opened. */
  ghost predicate AroundFromZero(b: Board<Cell>, b': Board<Cell>, rows: nat, cols: nat, r: int, c: int)
    requires IsGrid(b, rows, cols) && IsGrid(b', rows, cols)
  {
    forall x, y ::
      0 <= x < rows && 0 <= y < cols && !b[x][y].isRevealed && b'[x][y].isRevealed
      ==> NextTo(r, c, x, y) || Supported(b, b', rows, cols, x, y)
  }

  /** Directions k and 7 - k are opposite, so (r, c) is a neighbour of each of its neighbours. */
  lemma NeighbourBack(r: int, c: int, k: nat)
    requires k < 8
    ensures Neighbour(Neighbour(r, c, k).0, Neighbour(r, c, k).1, 7 - k) == (r, c)
  {
  }

  /** An opened zero cell stays one through a later growth step, and a cell opened in
      the later step was face down at the start. */
  lemma OpenedZeroTrans(b: Board<Cell>, b1: Board<Cell>, b2: Board<Cell>, rows: nat, cols: nat, x: int, y: int)
    requires Grows(b, b1, rows, cols) && Grows(b1, b2, rows, cols)
    requires OpenedZero(b, b1, rows, cols, x, y) || OpenedZero(b1, b2, rows, cols, x, y)
    ensures OpenedZero(b, b2, rows, cols, x, y)
  {
    assert Step(b[x][y], b1[x][y]) && Step(b1[x][y], b2[x][y]);
  }

  lemma SupportedTrans(b: Board<Cell>, b1: Board<Cell>, b2: Board<Cell>, rows: nat, cols: nat, x: int, y: int)
    requires Grows(b, b1, rows, cols) && Grows(b1, b2, rows, cols)
    requires Supported(b, b1, rows, cols, x, y) || Supported(b1, b2, rows, cols, x, y)
    ensures Supported(b, b2, rows, cols, x, y)
  {
    var k :| 0 <= k < 8 && (OpenedZero(b, b1, rows, cols, Neighbour(x, y, k).0, Neighbour(x, y, k).1)
                            || OpenedZero(b1, b2, rows, cols, Neighbour(x, y, k).0, Neighbour(x, y, k).1));
    OpenedZeroTrans(b, b1, b2, rows, cols, Neighbour(x, y, k).0, Neighbour(x, y, k).1);
  }

  /** Turning (r, c) face up as a zero cell and then running its neighbour loop opens only
      (r, c) and neighbours of opened zero cells. */
  lemma OnlyFromZeroAfterTurnUp(b: Board<Cell>, b1: Board<Cell>, b2: Board<Cell>, rows: nat, cols: nat, r: int, c: int)
    requires IsGrid(b, rows, cols) && InBounds(rows, cols, r, c) && !b[r][c].isRevealed && b[r][c].neighborMines <= 0
    requires b1 == Set(b, r, c, b[r][c].(isRevealed := true))
    requires Grows(b, b1, rows, cols) && Grows(b1, b2, rows, cols)
    requires AroundFromZero(b1, b2, rows, cols, r, c)
    ensures OnlyFromZero(b, b2, rows, cols, r, c)
  {
    assert OpenedZero(b, b2, rows, cols, r, c) by {
      assert Step(b1[r][c], b2[r][c]);
    }
    forall x, y | 0 <= x < rows && 0 <= y < cols && (x, y) != (r, c) && !b[x][y].isRevealed && b2[x][y].isRevealed
      ensures Supported(b, b2, rows, cols, x, y)
    {
      assert !b1[x][y].isRevealed;
      if NextTo(r, c, x, y) {
        var k :| 0 <= k < 8 && Neighbour(r, c, k) == (x, y);
        NeighbourBack(r, c, k);
        assert OpenedZero(b, b2, rows, cols, Neighbour(x, y, 7 - k).0, Neighbour(x, y, 7 - k).1);
      } else {
        var k :| 0 <= k < 8 && OpenedZero(b1, b2, rows, cols, Neighbour(x, y, k).0, Neighbour(x, y, k).1);
        var n := Neighbour(x, y, k);
        assert n != (r, c);
        assert OpenedZero(b, b2, rows, cols, n.0, n.1);
      }
    }
  }

  /** `revealCell` recurses only from cells with no neighbouring mines: from a safe cell,
      every other cell the fill turns face up borders a zero cell it opened. */
  lemma {:induction false} RevealOnlyFromZero(b: Board<Cell>, rows: nat, cols: nat, r: int, c: int)
    requires IsGrid(b, rows, cols) && InBounds(rows, cols, r, c)
    requires NumbersCorrect(b, rows, cols) && NoMineShown(b, rows, cols) && !b[r][c].isMine
    ensures OnlyFromZero(b, Reveal(b, rows, cols, r, c), rows, cols, r, c)
    decreases Hidden(b), 1
  {
    var cell := b[r][c];
    if !cell.isRevealed && !cell.isFlagged {
      var b1: Board<Cell> := Set(b, r, c, cell.(isRevealed := true));
      if cell.neighborMines > 0 {
        assert OnlyFromZero(b, b1, rows, cols, r, c);
        assert Reveal(b, rows, cols, r, c) == b1;
      } else {
        var b2: Board<Cell> := RevealAround(b1, rows, cols, r, c, 0);
        assert Grows(b, b1, rows, cols) && Grows(b1, b2, rows, cols) && AroundFromZero(b1, b2, rows, cols, r, c) by {
          TurnUpSafe(b, rows, cols, r, c);
          assert MinesFrom(b1, rows, cols, r, c, 0) == 0;
          RevealAroundOnlyFromZero(b1, rows, cols, r, c, 0);
          RevealAroundSafe(b1, rows, cols, r, c, 0);
        }
        OnlyFromZeroAfterTurnUp(b, b1, b2, rows, cols, r, c);
        assert Reveal(b, rows, cols, r, c) == b2;
      }
    }
  }

  /** Composing one reveal of the neighbour (n0, n1) of (r, c) with the rest of the loop. */
  lemma AroundFromZeroTrans(b: Board<Cell>, b1: Board<Cell>, b2: Board<Cell>, rows: nat, cols: nat,
                            r: int, c: int, n0: int, n1: int)
    requires Grows(b, b1, rows, cols) && Grows(b1, b2, rows, cols) && NextTo(r, c, n0, n1)
    requires OnlyFromZero(b, b1, rows, cols, n0, n1) && AroundFromZero(b1, b2, rows, cols, r, c)
    ensures AroundFromZero(b, b2, rows, cols, r, c)
  {
    forall x, y | 0 <= x < rows && 0 <= y < cols && !b[x][y].isRevealed && b2[x][y].isRevealed
      && !NextTo(r, c, x, y)
      ensures Supported(b, b2, rows, cols, x, y)
    {
      if b1[x][y].isRevealed {
        assert (x, y) != (n0, n1);
      }
      SupportedTrans(b, b1, b2, rows, cols, x, y);
    }
  }

  lemma {:induction false} RevealAroundOnlyFromZero(b: Board<Cell>, rows: nat, cols: nat, r: int, c: int, i: nat)
    requires IsGrid(b, rows, cols) && i <= 8
    requires NumbersCorrect(b, rows, cols) && NoMineShown(b, rows, cols)
    requires MinesFrom(b, rows, cols, r, c, i) == 0
    ensures AroundFromZero(b, RevealAround(b, rows, cols, r, c, i), rows, cols, r, c)
    decreases Hidden(b), 9 - i, 1
  {
    if i < 8 {
      var n := Neighbour(r, c, i);
      if InBounds(rows, cols, n.0, n.1) {
        RevealNeighbourOnlyFromZero(b, rows, cols, r, c, i);
      } else {
        RevealAroundOnlyFromZero(b, rows, cols, r, c, i + 1);
      }
    }
  }

  /** One turn of the neighbour loop, on an on-board neighbour. */
  lemma {:induction false} RevealNeighbourOnlyFromZero(b: Board<Cell>, rows: nat, cols: nat, r: int, c: int, i: nat)
    requires IsGrid(b, rows, cols) && i < 8
    requires InBounds(rows, cols, Neighbour(r, c, i).0, Neighbour(r, c, i).1)
    requires NumbersCorrect(b, rows, cols) && NoMineShown(b, rows, cols)
    requires MinesFrom(b, rows, cols, r, c, i) == 0
    ensures AroundFromZero(b, RevealAround(b, rows, cols, r, c, i), rows, cols, r, c)
    decreases Hidden(b), 9 - i, 0
  {
    var n := Neighbour(r, c, i);
    var b1: Board<Cell> := Reveal(b, rows, cols, n.0, n.1);
    assert Grows(b, b1, rows, cols) && OnlyFromZero(b, b1, rows, cols, n.0, n.1) && NumbersCorrect(b1, rows, cols)
      && NoMineShown(b1, rows, cols) && MinesFrom(b1, rows, cols, r, c, i + 1) == 0 by {
      RevealSafe(b, rows, cols, n.0, n.1);
      RevealOnlyFromZero(b, rows, cols, n.0, n.1);
      GrowsKeepsNumbers(b, b1, rows, cols);
      MinesFromSame(b, b1, rows, cols, r, c, i + 1);
    }
    var b2: Board<Cell> := RevealAround(b1, rows, cols, r, c, i + 1);
    assert Grows(b1, b2, rows, cols) && AroundFromZero(b1, b2, rows, cols, r, c) by {
      RevealAroundOnlyFromZero(b1, rows, cols, r, c, i + 1);
      RevealAroundSafe(b1, rows, cols, r, c, i + 1);
    }
    assert NextTo(r, c, n.0, n.1) by {
      assert Neighbour(r, c, i) == n;
    }
    AroundFromZeroTrans(b, b1, b2, rows, cols, r, c, n.0, n.1);
    assert RevealAround(b, rows, cols, r, c, i) == b2;
  }

  // -------------------------------------------------------------------- win

  lemma {:induction false} CountRowSafe(row: seq<Cell>)
    ensures CountRow(row, IsSafe) + CountRow(row, IsMine) == |row|
  {
    if row != [] {
      CountRowSafe(row[1..]);
    }
  }

  lemma {:induction false} CountSafe(b: Board<Cell>, rows: nat, cols: nat)
    requires IsGrid(b, rows, cols)
    ensures Count(b, IsSafe) + Count(b, IsMine) == rows * cols
  {
    if rows > 0 {
      CountRowSafe(b[0]);
      assert IsGrid(b[1..], rows - 1, cols) by {
        assert forall i :: 0 <= i < rows - 1 ==> b[1..][i] == b[i + 1];
      }
      CountSafe(b[1..], rows - 1, cols);
      assert (rows - 1) * cols + cols == rows * cols;
    }
  }

  /** Every cell without a mine is face up: the game is won. */
  ghost predicate AllSafeRevealed(b: Board<Cell>, rows: nat, cols: nat)
    requires IsGrid(b, rows, cols)
  {
    forall r, c :: 0 <= r < rows && 0 <= c < cols && !b[r][c].isMine ==> b[r][c].isRevealed
  }

  /** With exactly `mines` mines on the board and none face up, the win test of
      `checkWin` (revealed cells = rows * cols - mines) holds exactly when every safe
      cell is face up. */
  lemma WinMeansAllSafeRevealed(b: Board<Cell>, rows: nat, cols: nat, mines: int)
    requires IsGrid(b, rows, cols) && NoMineShown(b, rows, cols) && Count(b, IsMine) == mines
    ensures Count(b, IsRevealed) == rows * cols - mines <==> AllSafeRevealed(b, rows, cols)
  {
    CountSafe(b, rows, cols);
    CountMono(b, IsRevealed, IsSafe);
    if AllSafeRevealed(b, rows, cols) {
      CountMono(b, IsSafe, IsRevealed);
    }
  }

  // ------------------------------------------------------------------- game

  /** The inner `forEach` of `calculateNumbers` for one cell. */
  method CountNeighbourMines(b: Board<Cell>, rows: nat, cols: nat, r: int, c: int) returns (count: nat)
    requires IsGrid(b, rows, cols)
    ensures count == MinesAround(b, rows, cols, r, c)
  {
    count := 0;
    var k := 0;
    while k < 8
      invariant 0 <= k <= 8
      invariant count + MinesFrom(b, rows, cols, r, c, k) == MinesAround(b, rows, cols, r, c)
    {
      var n := Neighbour(r, c, k);
      if 0 <= n.0 < rows && 0 <= n.1 < cols && b[n.0][n.1].isMine {
        count := count + 1;
      }
      k := k + 1;
    }
  }

  /** What every handler keeps: the flag counter matches the flags, no face-up cell is
      flagged or a mine, the numbers are right, before the first click there are no mines
      and nothing is face up, and after it there are exactly `totalMines` mines. */
  ghost predicate Consistent(b: Board<Cell>, rows: nat, cols: nat, totalMines: nat, flagsPlaced: int, firstClick: bool, gameOver: bool)
  {
    IsGrid(b, rows, cols)
    && flagsPlaced == Count(b, IsFlagged)
    && (forall r, c :: 0 <= r < rows && 0 <= c < cols ==> !(b[r][c].isRevealed && b[r][c].isFlagged))
    && NoMineShown(b, rows, cols)
    && NumbersCorrect(b, rows, cols)
    && Count(b, IsMine) == (if firstClick then 0 else totalMines)
    && (firstClick ==> !gameOver && forall r, c :: 0 <= r < rows && 0 <= c < cols ==> !b[r][c].isMine && !b[r][c].isRevealed)
  }

  class Game {
    var rows: nat
    var cols: nat
    var totalMines: nat
    var board: Board<Cell>
    var gameOver: bool
    var flagsPlaced: int
    var firstClick: bool

    ghost predicate Valid()
      reads this
    {
      Consistent(board, rows, cols, totalMines, flagsPlaced, firstClick, gameOver)
    }

    /** The page opens on the easy board. */
    constructor ()
      ensures Valid()
      ensures (rows, cols, totalMines) == Config(Easy)
      ensures board == Fill(rows, cols, Fresh)
      ensures !gameOver && flagsPlaced == 0 && firstClick
    {
      new;
      StartGame(Easy);
    }

    /** `startGame`: the difficulty's dimensions, a fresh board, no flags, waiting for
        the first click. */
    method StartGame(difficulty: Difficulty)
      modifies this
      ensures Valid()
      ensures (rows, cols, totalMines) == Config(difficulty)
      ensures board == Fill(rows, cols, Fresh)
      ensures !gameOver && flagsPlaced == 0 && firstClick
    {
      var (r, c, m) := Config(difficulty);
      rows, cols, totalMines := r, c, m;
      gameOver, flagsPlaced, firstClick := false, 0, true;
      board := [];
      CreateBoard();
      FreshConsistent(rows, cols, totalMines);
    }

    /** `createBoard`: appends `rows` rows of `cols` fresh cells. */
    method CreateBoard()
      requires board == []
      modifies this
      ensures rows == old(rows) && cols == old(cols) && totalMines == old(totalMines)
      ensures gameOver == old(gameOver) && flagsPlaced == old(flagsPlaced) && firstClick == old(firstClick)
      ensures board == Fill(rows, cols, Fresh)
    {
      var b := NewBoard(rows, cols);
      board := b;
    }

    /** `placeMines(safeR, safeC)` followed by its `calculateNumbers`. The random cells
        are the sequence `picks`; the source draws until the count is reached. */
    method PlaceMines(safeR: int, safeC: int, picks: seq<(int, int)>)
      requires IsGrid(board, rows, cols) && PicksOnBoard(picks, rows, cols)
      modifies this
      ensures rows == old(rows) && cols == old(cols) && totalMines == old(totalMines)
      ensures gameOver == old(gameOver) && flagsPlaced == old(flagsPlaced) && firstClick == old(firstClick)
      ensures board == Numbered(Planted(old(board), rows, cols, totalMines, safeR, safeC, picks), rows, cols)
    {
      var b := Plant(board, rows, cols, totalMines, safeR, safeC, picks);
      board := b;
      CalculateNumbers();
    }

    /** `calculateNumbers`: each safe cell gets the count of mines around it. */
    method CalculateNumbers()
      requires IsGrid(board, rows, cols)
      modifies this
      ensures rows == old(rows) && cols == old(cols) && totalMines == old(totalMines)
      ensures gameOver == old(gameOver) && flagsPlaced == old(flagsPlaced) && firstClick == old(firstClick)
      ensures board == Numbered(old(board), rows, cols)
    {
      var b := NumberAll(board, rows, cols);
      board := b;
    }

    /** `checkWin`: count the face-up cells; all safe cells face up ends the game. */
    method CheckWin() returns (won: bool)
      requires IsGrid(board, rows, cols)
      modifies this
      ensures board == old(board) && rows == old(rows) && cols == old(cols) && totalMines == old(totalMines)
      ensures flagsPlaced == old(flagsPlaced) && firstClick == old(firstClick)
      ensures won <==> Count(board, IsRevealed) == rows * cols - totalMines
      ensures gameOver == (old(gameOver) || won)
    {
      var revealedCount := CountRevealed(board, rows, cols);
      won := revealedCount == rows * cols - totalMines;
      if won {
        gameOver := true;
      }
    }

    /** `revealCell(r, c)`, recursive as in the source. */
    method RevealCell(r: int, c: int)
      requires IsGrid(board, rows, cols) && InBounds(rows, cols, r, c)
      modifies this`board
      ensures rows == old(rows) && cols == old(cols) && totalMines == old(totalMines)
      ensures gameOver == old(gameOver) && flagsPlaced == old(flagsPlaced) && firstClick == old(firstClick)
      ensures board == Reveal(old(board), rows, cols, r, c)
      decreases Hidden(board), 1
    {
      var cell := board[r][c];
      if cell.isRevealed || cell.isFlagged {
        return;
      }
      CountSet(board, r, c, cell.(isRevealed := true), IsHidden);
      board := Set(board, r, c, cell.(isRevealed := true));
      if cell.neighborMines > 0 {
        return;
      }
      RevealNeighbours(r, c, old(Hidden(board)));
    }

    /** The eight-neighbour loop of `revealCell`, run once the cell is face up. The
        ghost `bound` is above the face-down count and makes the mutual recursion with
        `RevealCell` terminate. */
    method RevealNeighbours(r: int, c: int, ghost bound: nat)
      requires IsGrid(board, rows, cols) && Hidden(board) < bound
      modifies this`board
      ensures board == RevealAround(old(board), rows, cols, r, c, 0)
      decreases bound, 0
    {
      ghost var goal := RevealAround(board, rows, cols, r, c, 0);
      var k := 0;
      while k < 8
        invariant 0 <= k <= 8 && IsGrid(board, rows, cols)
        invariant Hidden(board) < bound
        invariant RevealAround(board, rows, cols, r, c, k) == goal
      {
        var n := Neighbour(r, c, k);
        if 0 <= n.0 < rows && 0 <= n.1 < cols {
          RevealCell(n.0, n.1);
        }
        k := k + 1;
      }
    }

    /** `handleRightClick(r, c)`: on a face-down cell of a live game, toggle the flag and
        keep the counter in step. */
    method HandleRightClick(r: int, c: int)
      requires Valid() && InBounds(rows, cols, r, c)
      modifies this
      ensures rows == old(rows) && cols == old(cols) && totalMines == old(totalMines)
      ensures gameOver == old(gameOver) && firstClick == old(firstClick)
      ensures Valid()
      ensures old(gameOver || board[r][c].isRevealed) ==> board == old(board) && flagsPlaced == old(flagsPlaced)
      ensures !old(gameOver || board[r][c].isRevealed) ==>
                && board == Set(old(board), r, c, old(board[r][c]).(isFlagged := !old(board[r][c].isFlagged)))
                && flagsPlaced == old(flagsPlaced) + (if old(board[r][c].isFlagged) then -1 else 1)
    {
      if gameOver || board[r][c].isRevealed {
        return;
      }
      ToggleFlag(r, c);
    }

    /** The body of `handleRightClick` past its guard: flip the flag, move the counter. */
    method ToggleFlag(r: int, c: int)
      requires Valid() && InBounds(rows, cols, r, c) && !gameOver && !board[r][c].isRevealed
      modifies this
      ensures rows == old(rows) && cols == old(cols) && totalMines == old(totalMines)
      ensures gameOver == old(gameOver) && firstClick == old(firstClick)
      ensures Valid()
      ensures board == Set(old(board), r, c, old(board[r][c]).(isFlagged := !old(board[r][c].isFlagged)))
      ensures flagsPlaced == old(flagsPlaced) + (if old(board[r][c].isFlagged) then -1 else 1)
    {
      var cell := board[r][c];
      var flags := if !cell.isFlagged then flagsPlaced + 1 else flagsPlaced - 1;
      var b := Set(board, r, c, cell.(isFlagged := !cell.isFlagged));
      FlagKeepsConsistent(board, rows, cols, totalMines, flagsPlaced, firstClick, gameOver, r, c);
      board, flagsPlaced := b, flags;
    }

    /** `handleLeftClick(r, c)`. A click on a flagged or face-up cell, or after the game
        has ended, does nothing. The first click plants the mines around it (random
        cells in `picks`, which hold enough usable cells for the drawing loop to reach
        `totalMines`, as the source's loop only ends when it does). A mine ends the game
        (`explode`); any other cell is revealed and the win is checked. */
    method HandleLeftClick(r: int, c: int, picks: seq<(int, int)>)
      requires Valid() && InBounds(rows, cols, r, c) && PicksOnBoard(picks, rows, cols)
      requires firstClick && !board[r][c].isFlagged ==>
                 Count(Planted(board, rows, cols, totalMines, r, c, picks), IsMine) == totalMines
      modifies this
      ensures rows == old(rows) && cols == old(cols) && totalMines == old(totalMines)
      ensures flagsPlaced == old(flagsPlaced)
      ensures Valid()
      ensures old(gameOver || board[r][c].isFlagged || board[r][c].isRevealed) ==>
                board == old(board) && gameOver == old(gameOver) && firstClick == old(firstClick)
      ensures !old(gameOver || board[r][c].isFlagged || board[r][c].isRevealed) ==>
                var planted := if old(firstClick) then Numbered(Planted(old(board), rows, cols, totalMines, r, c, picks), rows, cols)
                               else old(board);
                && !firstClick
                && (old(firstClick) ==> board[r][c].isRevealed)
                && (planted[r][c].isMine ==> board == planted && gameOver)
                && (!planted[r][c].isMine ==>
                      && board == Reveal(planted, rows, cols, r, c)
                      && board[r][c].isRevealed
                      && Spread(planted, board, rows, cols)
                      && OnlyFromZero(planted, board, rows, cols, r, c)
                      && (gameOver <==> Count(board, IsRevealed) == rows * cols - totalMines)
                      && (gameOver <==> AllSafeRevealed(board, rows, cols)))
    {
      if gameOver || board[r][c].isFlagged || board[r][c].isRevealed {
        return;
      }
      if firstClick {
        firstClick := false;
        ghost var b0 := board;
        PlaceMines(r, c, picks);
        PlantKeepsConsistent(b0, rows, cols, totalMines, flagsPlaced, r, c, picks);
      }
      var cell := board[r][c];
      if cell.isMine {
        gameOver := true;
        return;
      }
      ghost var before := board;
      RevealCell(r, c);
      RevealKeepsConsistent(before, rows, cols, totalMines, flagsPlaced, r, c);
      var won := CheckWin();
    }
  }

  /** `createBoard`'s nested loops: `rows` rows of `cols` fresh cells. */
  method NewBoard(rows: nat, cols: nat) returns (b: Board<Cell>)
    ensures b == Fill(rows, cols, Fresh)
  {
    b := [];
    var r := 0;
    while r < rows
      invariant 0 <= r <= rows && b == Fill(r, cols, Fresh)
    {
      var row: seq<Cell> := [];
      var c := 0;
      while c < cols
        invariant 0 <= c <= cols && row == seq(c, _ => Fresh)
      {
        row := row + [Fresh];
        c := c + 1;
      }
      b := b + [row];
      r := r + 1;
    }
  }

  /** The counting loop of `placeMines`, drawing from `picks`. */
  method Plant(b: Board<Cell>, rows: nat, cols: nat, totalMines: nat, safeR: int, safeC: int, picks: seq<(int, int)>) returns (b': Board<Cell>)
    requires IsGrid(b, rows, cols) && PicksOnBoard(picks, rows, cols)
    ensures b' == Planted(b, rows, cols, totalMines, safeR, safeC, picks)
  {
    b' := b;
    var placed := 0;
    var i := 0;
    while placed < totalMines && i < |picks|
      invariant 0 <= placed <= totalMines && 0 <= i <= |picks| && IsGrid(b', rows, cols)
      invariant PicksOnBoard(picks[i..], rows, cols)
      invariant Planted(b', rows, cols, totalMines - placed, safeR, safeC, picks[i..]) == Planted(b, rows, cols, totalMines, safeR, safeC, picks)
      decreases |picks| - i
    {
      var (r, c) := picks[i];
      assert picks[i..][1..] == picks[i + 1..];
      i := i + 1;
      if !b'[r][c].isMine && !(-1 <= r - safeR <= 1 && -1 <= c - safeC <= 1) {
        b' := Set(b', r, c, b'[r][c].(isMine := true));
        placed := placed + 1;
      }
    }
  }

  /** The nested loops of `calculateNumbers`, writing each safe cell's count in place. */
  method NumberAll(b: Board<Cell>, rows: nat, cols: nat) returns (b': Board<Cell>)
    requires IsGrid(b, rows, cols)
    ensures b' == Numbered(b, rows, cols)
  {
    b' := b;
    var r := 0;
    while r < rows
      invariant 0 <= r <= rows && |b'| == rows
      invariant forall i :: 0 <= i < rows ==> b'[i] == (if i < r then Numbered(b, rows, cols)[i] else b[i])
    {
      var row := NumberRow(b, rows, cols, r);
      b' := b'[r := row];
      r := r + 1;
    }
  }

  /** The counting loops of `checkWin`. */
  method CountRevealed(b: Board<Cell>, rows: nat, cols: nat) returns (revealedCount: nat)
    requires IsGrid(b, rows, cols)
    ensures revealedCount == Count(b, IsRevealed)
  {
    revealedCount := 0;
    var r := 0;
    while r < rows
      invariant 0 <= r <= rows && revealedCount == Count(b[..r], IsRevealed)
    {
      var c := 0;
      while c < cols
        invariant 0 <= c <= cols
        invariant revealedCount == Count(b[..r], IsRevealed) + CountRow(b[r][..c], IsRevealed)
      {
        CountRowPrefix(b[r], c, IsRevealed);
        if b[r][c].isRevealed {
          revealedCount := revealedCount + 1;
        }
        c := c + 1;
      }
      CountPrefix(b, r, IsRevealed);
      assert b[r][..cols] == b[r];
      r := r + 1;
    }
    assert b[..rows] == b;
  }

  /** A fresh board satisfies the invariant with no flags, before the first click. */
  lemma FreshConsistent(rows: nat, cols: nat, totalMines: nat)
    ensures Consistent(Fill(rows, cols, Fresh), rows, cols, totalMines, 0, true, false)
  {
    var b := Fill(rows, cols, Fresh);
    CountBound(b, rows, cols, IsFlagged);
    CountBound(b, rows, cols, IsMine);
    MinesAroundAllSafe(b, rows, cols);
  }

  /** Toggling the flag of a face-down cell keeps the invariant, with the counter moved
      by one in the direction of the toggle. */
  lemma FlagKeepsConsistent(b: Board<Cell>, rows: nat, cols: nat, totalMines: nat, flagsPlaced: int, firstClick: bool, over: bool, r: int, c: int)
    requires Consistent(b, rows, cols, totalMines, flagsPlaced, firstClick, over)
    requires InBounds(rows, cols, r, c) && !b[r][c].isRevealed
    ensures var b' := Set(b, r, c, b[r][c].(isFlagged := !b[r][c].isFlagged));
            Consistent(b', rows, cols, totalMines, if !b[r][c].isFlagged then flagsPlaced + 1 else flagsPlaced - 1, firstClick, over)
  {
    var cell := b[r][c];
    var b': Board<Cell> := Set(b, r, c, cell.(isFlagged := !cell.isFlagged));
    assert Count(b', IsFlagged) == if !cell.isFlagged then flagsPlaced + 1 else flagsPlaced - 1 by {
      CountSet(b, r, c, cell.(isFlagged := !cell.isFlagged), IsFlagged);
    }
    assert NumbersCorrect(b', rows, cols) && Count(b', IsMine) == Count(b, IsMine) by {
      FlagKeepsMines(b, rows, cols, r, c);
    }
    assert forall i, j :: 0 <= i < rows && 0 <= j < cols ==>
      b'[i][j].isRevealed == b[i][j].isRevealed && b'[i][j].isMine == b[i][j].isMine;
  }

  /** A flag toggle moves no mine, so the mine count and every number stay right. */
  lemma FlagKeepsMines(b: Board<Cell>, rows: nat, cols: nat, r: int, c: int)
    requires IsGrid(b, rows, cols) && InBounds(rows, cols, r, c) && NumbersCorrect(b, rows, cols)
    ensures var b' := Set(b, r, c, b[r][c].(isFlagged := !b[r][c].isFlagged));
            NumbersCorrect(b', rows, cols) && Count(b', IsMine) == Count(b, IsMine)
  {
    var b' := Set(b, r, c, b[r][c].(isFlagged := !b[r][c].isFlagged));
    assert SameMines(b, b', rows, cols);
    SameMinesCount(b, b', rows, cols);
    MinesAroundSame(b, b', rows, cols);
  }

  /** Planting and numbering on the first click keeps the invariant: the board had no
      mines and nothing face up, so nothing face up is a mine, the flags stay on the
      same cells, and the numbers are recomputed. No mine lies next to the click. */
  lemma PlantKeepsConsistent(b: Board<Cell>, rows: nat, cols: nat, totalMines: nat, flagsPlaced: int, safeR: int, safeC: int, picks: seq<(int, int)>)
    requires Consistent(b, rows, cols, totalMines, flagsPlaced, true, false) && PicksOnBoard(picks, rows, cols)
    requires Count(Planted(b, rows, cols, totalMines, safeR, safeC, picks), IsMine) == totalMines
    ensures var b' := Numbered(Planted(b, rows, cols, totalMines, safeR, safeC, picks), rows, cols);
            && Consistent(b', rows, cols, totalMines, flagsPlaced, false, false)
            && (forall r, c :: 0 <= r < rows && 0 <= c < cols && NearSafe(r, c, safeR, safeC) ==> !b'[r][c].isMine)
            && (forall r, c :: 0 <= r < rows && 0 <= c < cols ==>
                  b'[r][c].isFlagged == b[r][c].isFlagged && b'[r][c].isRevealed == b[r][c].isRevealed)
  {
    var p := Planted(b, rows, cols, totalMines, safeR, safeC, picks);
    var b': Board<Cell> := Numbered(p, rows, cols);
    assert forall r, c :: 0 <= r < rows && 0 <= c < cols ==>
           && p[r][c].isFlagged == b[r][c].isFlagged && !p[r][c].isRevealed
           && !(p[r][c].isMine && NearSafe(r, c, safeR, safeC))
    by {
      assert Count(b, IsMine) == 0 by {
        CountBound(b, rows, cols, IsMine);
      }
      PlantedFacts(b, rows, cols, totalMines, safeR, safeC, picks);
    }
    assert NumbersCorrect(b', rows, cols)
      && forall r, c :: 0 <= r < rows && 0 <= c < cols ==> b'[r][c] == p[r][c].(neighborMines := b'[r][c].neighborMines)
    by {
      NumberedCorrect(p, rows, cols);
    }
    assert Count(b', IsFlagged) == flagsPlaced by {
      CountSameCells(b, b', rows, cols, IsFlagged);
    }
    assert Count(b', IsMine) == Count(p, IsMine) by {
      assert SameMines(p, b', rows, cols);
      SameMinesCount(p, b', rows, cols);
    }
  }

  /** Revealing from a safe cell keeps the invariant (the game-over flag is untouched
      by the invariant once the first click is past). */
  lemma RevealKeepsConsistent(b: Board<Cell>, rows: nat, cols: nat, totalMines: nat, flagsPlaced: int, r: int, c: int)
    requires Consistent(b, rows, cols, totalMines, flagsPlaced, false, false)
    requires InBounds(rows, cols, r, c) && !b[r][c].isMine && !b[r][c].isFlagged
    ensures var b' := Reveal(b, rows, cols, r, c);
            && b'[r][c].isRevealed
            && (forall over :: Consistent(b', rows, cols, totalMines, flagsPlaced, false, over))
            && (Count(b', IsRevealed) == rows * cols - totalMines <==> AllSafeRevealed(b', rows, cols))
            && Spread(b, b', rows, cols) && OnlyFromZero(b, b', rows, cols, r, c)
  {
    var b' := Reveal(b, rows, cols, r, c);
    RevealSafe(b, rows, cols, r, c);
    RevealSpreads(b, rows, cols, r, c);
    RevealOnlyFromZero(b, rows, cols, r, c);
    GrowsKeepsNumbers(b, b', rows, cols);
    CountSameCells(b, b', rows, cols, IsFlagged);
    SameMinesCount(b, b', rows, cols);
    WinMeansAllSafeRevealed(b', rows, cols, totalMines);
  }

  /** On a board without mines every count is zero, so the fresh board's zeros are right. */
  lemma MinesAroundAllSafe(b: Board<Cell>, rows: nat, cols: nat)
    requires IsGrid(b, rows, cols) && forall r, c :: 0 <= r < rows && 0 <= c < cols ==> b[r][c] == Fresh
    ensures NumbersCorrect(b, rows, cols)
  {
    forall r, c | 0 <= r < rows && 0 <= c < cols
      ensures MinesAround(b, rows, cols, r, c) == 0
    {
      MinesAroundFacts(b, rows, cols, r, c);
    }
  }

  /** One row of `calculateNumbers`: each safe cell of row `r` with its count. The
      counts read only the mines, which numbering never changes, so reading them from
      the board before numbering gives the same values as the source's in-place pass. */
  method NumberRow(b: Board<Cell>, rows: nat, cols: nat, r: int) returns (row: seq<Cell>)
    requires IsGrid(b, rows, cols) && 0 <= r < rows
    ensures row == Numbered(b, rows, cols)[r]
  {
    row := [];
    var c := 0;
    while c < cols
      invariant 0 <= c <= cols && |row| == c
      invariant forall j :: 0 <= j < c ==> row[j] == Numbered(b, rows, cols)[r][j]
    {
      var cell := b[r][c];
      if !cell.isMine {
        var count := CountNeighbourMines(b, rows, cols, r, c);
        cell := cell.(neighborMines := count);
      }
      row := row + [cell];
      c := c + 1;
    }
  }

  lemma SameMinesCount(b: Board<Cell>, b': Board<Cell>, rows: nat, cols: nat)
    requires IsGrid(b, rows, cols) && IsGrid(b', rows, cols) && SameMines(b, b', rows, cols)
    ensures Count(b', IsMine) == Count(b, IsMine)
  {
    CountSameCells(b, b', rows, cols, IsMine);
  }

  /** Boards that agree on `f` cell by cell have the same count. */
  lemma {:induction false} CountSameCells(b: Board<Cell>, b': Board<Cell>, rows: nat, cols: nat, f: Cell -> bool)
    requires IsGrid(b, rows, cols) && IsGrid(b', rows, cols)
    requires forall r, c :: 0 <= r < rows && 0 <= c < cols ==> f(b'[r][c]) == f(b[r][c])
    ensures Count(b', f) == Count(b, f)
  {
    if rows > 0 {
      CountRowRelate(b[0], b'[0], f);
      assert IsGrid(b[1..], rows - 1, cols) && IsGrid(b'[1..], rows - 1, cols);
      CountSameCells(b[1..], b'[1..], rows - 1, cols, f);
    }
  }

  lemma {:induction false} CountRowRelate(row: seq<Cell>, row': seq<Cell>, f: Cell -> bool)
    requires |row| == |row'| && forall j :: 0 <= j < |row| ==> f(row'[j]) == f(row[j])
    ensures CountRow(row', f) == CountRow(row, f)
  {
    if row != [] {
      CountRowRelate(row[1..], row'[1..], f);
    }
  }

}

/** Reversi on an 8 by 8 board. A cell holds 0 (empty), 1 (black) or 2 (white); a
    move places a stone and turns over every run of opponent stones that it closes off
    against another stone of the mover's, looking in the eight compass directions. */
module Reversi {
  import opened Grid

  const Size: int := 8
  const Empty: int := 0
  const Black: int := 1
  const White: int := 2

  function Opponent(p: int): int { if p == Black then White else Black }

  predicate IsStone(p: int) { p == Black || p == White }

  /** An 8 by 8 board whose cells are all empty, black or white. */
  ghost predicate IsBoard(b: Board<int>)
  {
    IsGrid(b, Size, Size) && forall i, j :: 0 <= i < Size && 0 <= j < Size ==> 0 <= b[i][j] <= 2
  }

  /** `x` after k steps of `d` (one of -1, 0, 1): the scan's `nr += dr`. */
  function Move(x: int, d: int, k: int): int
  {
    if d > 0 then x + k else if d < 0 then x - k else x
  }

  /** The cell k steps from (r, c) in direction `d`. */
  function RayAt(r: int, c: int, d: (int, int), k: int): (int, int)
  {
    (Move(r, d.0, k), Move(c, d.1, k))
  }

  predicate On(x: (int, int)) { InBounds(Size, Size, x.0, x.1) }

  /** Seen from step k of the ray, the scan of `canFlip` and `makeMove`: the number of
      `o` stones before the first `p` stone, or -1 when the run of `o` stones is ended
      by an empty cell or by the edge of the board. */
  function Flank(b: Board<int>, r: int, c: int, d: (int, int), p: int, o: int, k: int): int
    requires IsGrid(b, Size, Size) && InBounds(Size, Size, r, c) && IsDir(d) && k >= 1
    decreases Size - k
  {
    var x := RayAt(r, c, d, k);
    if !On(x) then -1
    else if b[x.0][x.1] == o then
      var t := Flank(b, r, c, d, p, o, k + 1);
      if t < 0 then -1 else t + 1
    else if b[x.0][x.1] == p then 0
    else -1
  }

  /** Stones of `o` that a stone of `p` at (r, c) closes off in direction `d`. */
  function Captures(b: Board<int>, r: int, c: int, d: (int, int), p: int, o: int): nat
    requires IsGrid(b, Size, Size) && InBounds(Size, Size, r, c) && IsDir(d)
  {
    var t := Flank(b, r, c, d, p, o, 1);
    if t > 0 then t else 0
  }

  /** `canFlip(r, c, p, o)`: some direction has a capture. */
  predicate CanFlip(b: Board<int>, r: int, c: int, p: int, o: int)
    requires IsGrid(b, Size, Size) && InBounds(Size, Size, r, c)
  {
    exists i :: 0 <= i < 8 && IsDir(Directions[i]) && Captures(b, r, c, Directions[i], p, o) > 0
  }

  /** The reference reading of a capture: steps k .. k + t - 1 of the ray hold `o`
      stones and step k + t holds a `p` stone, all on the board. */
  predicate RunThenStone(b: Board<int>, r: int, c: int, d: (int, int), p: int, o: int, k: int, t: nat)
    requires IsGrid(b, Size, Size)
  {
    (forall j :: k <= j < k + t ==> On(RayAt(r, c, d, j)) && b[RayAt(r, c, d, j).0][RayAt(r, c, d, j).1] == o)
    && On(RayAt(r, c, d, k + t)) && b[RayAt(r, c, d, k + t).0][RayAt(r, c, d, k + t).1] == p
  }

  /** The cells at steps 1 .. k of the ray turned to `p`, nearest first (a step off
      the board changes nothing; the scan never reports one). */
  function FlipRay(b: Board<int>, r: int, c: int, d: (int, int), p: int, k: nat): (b': Board<int>)
    requires IsGrid(b, Size, Size)
    ensures IsGrid(b', Size, Size)
  {
    if k == 0 then b
    else
      var x := RayAt(r, c, d, k);
      if On(x) then Set(FlipRay(b, r, c, d, p, k - 1), x.0, x.1, p) else FlipRay(b, r, c, d, p, k - 1)
  }

  lemma {:induction false} FlipRayKeepsBoard(b: Board<int>, r: int, c: int, d: (int, int), p: int, k: nat)
    requires IsBoard(b) && IsStone(p)
    ensures IsBoard(FlipRay(b, r, c, d, p, k))
  {
    if k > 0 {
      FlipRayKeepsBoard(b, r, c, d, p, k - 1);
    }
  }

  /** The flipping loop of `makeMove` over directions i .. 7, each direction scanning the
      board as the earlier ones left it. */
  function FlipDirs(b: Board<int>, r: int, c: int, p: int, o: int, i: nat): (b': Board<int>)
    requires IsGrid(b, Size, Size) && InBounds(Size, Size, r, c) && i <= 8
    ensures IsGrid(b', Size, Size)
    decreases 8 - i
  {
    if i == 8 then b
    else
      DirectionsAreDirs();
      var d := Directions[i];
      var k := Captures(b, r, c, d, p, o);
      FlipDirs(FlipRay(b, r, c, d, p, k), r, c, p, o, i + 1)
  }

  /** The number of stones the loop over directions i .. 7 turns over. */
  function FlipCount(b: Board<int>, r: int, c: int, p: int, o: int, i: nat): nat
    requires IsGrid(b, Size, Size) && InBounds(Size, Size, r, c) && i <= 8
    decreases 8 - i
  {
    if i == 8 then 0
    else
      DirectionsAreDirs();
      var d := Directions[i];
      var k := Captures(b, r, c, d, p, o);
      k + FlipCount(FlipRay(b, r, c, d, p, k), r, c, p, o, i + 1)
  }

  /** `makeMove(r, c)` for player `p`: place the stone, then flip. */
  function AfterMove(b: Board<int>, r: int, c: int, p: int): Board<int>
    requires IsGrid(b, Size, Size) && InBounds(Size, Size, r, c)
  {
    FlipDirs(Set(b, r, c, p), r, c, p, Opponent(p), 0)
  }

  /** Stones turned over by that move. */
  function Flipped(b: Board<int>, r: int, c: int, p: int): nat
    requires IsGrid(b, Size, Size) && InBounds(Size, Size, r, c)
  {
    FlipCount(Set(b, r, c, p), r, c, p, Opponent(p), 0)
  }

  /** (r, c) is empty and a stone of `p` there would flank something. */
  predicate Legal(b: Board<int>, p: int, r: int, c: int)
    requires IsGrid(b, Size, Size) && InBounds(Size, Size, r, c)
  {
    b[r][c] == Empty && CanFlip(b, r, c, p, Opponent(p))
  }

  /** The legal moves of `p` in the columns 0 .. c - 1 of row r, left to right. */
  function MovesInRow(b: Board<int>, p: int, r: int, c: int): seq<(int, int)>
    requires IsGrid(b, Size, Size) && 0 <= r < Size && 0 <= c <= Size
  {
    if c == 0 then []
    else
      MovesInRow(b, p, r, c - 1)
      + (if Legal(b, p, r, c - 1) then [(r, c - 1)] else [])
  }

  /** The legal moves of `p` in rows 0 .. r - 1, in the order `getValidMoves` lists them. */
  function MovesUpTo(b: Board<int>, p: int, r: int): seq<(int, int)>
    requires IsGrid(b, Size, Size) && 0 <= r <= Size
  {
    if r == 0 then [] else MovesUpTo(b, p, r - 1) + MovesInRow(b, p, r - 1, Size)
  }

  function ValidMoves(b: Board<int>, p: int): seq<(int, int)>
    requires IsGrid(b, Size, Size)
  {
    MovesUpTo(b, p, Size)
  }

  /** Some empty cell is a legal move of `p`. */
  predicate HasMove(b: Board<int>, p: int)
    requires IsGrid(b, Size, Size)
  {
    exists r, c :: 0 <= r < Size && 0 <= c < Size && b[r][c] == Empty && CanFlip(b, r, c, p, Opponent(p))
  }

  function Is(v: int): int -> bool { x => x == v }

  function Occupied(): int -> bool { x => x != Empty }

  datatype Outcome = Player1Wins | Player2Wins | Draw

  /** The winner decision of `endGame`. */
  function Winner(p1: nat, p2: nat): Outcome
  {
    if p1 > p2 then Player1Wins else if p2 > p1 then Player2Wins else Draw
  }

  /** `getScores`: each player's stone count for the colour assigned to them. */
  function Scores(b: Board<int>, p1Color: int, p2Color: int): (nat, nat)
  {
    (Count(b, Is(p1Color)), Count(b, Is(p2Color)))
  }

  /** The opening position as `startNewGame` lays it out: an empty board with white
      stones at (3,3) and (4,4) and black stones at (3,4) and (4,3). */
  function Initial(): (b: Board<int>)
    ensures IsBoard(b)
    ensures b[3][3] == White && b[4][4] == White && b[3][4] == Black && b[4][3] == Black
    ensures forall i, j :: 0 <= i < Size && 0 <= j < Size && !(3 <= i <= 4 && 3 <= j <= 4) ==> b[i][j] == Empty
  {
    var e, mid := Fill(Size, Size, Empty), Size / 2;
    assert mid == 4;
    Set(Set(Set(Set(e, mid - 1, mid - 1, White), mid - 1, mid, Black), mid, mid - 1, Black), mid, mid, White)
  }

  datatype TurnResult = Continue | Passed | Over(outcome: Outcome)

  // -------------------------------------------------------------- the scan

  /** The scan only reads cells of the board: if it reports t >= 0, the t cells it
      passed and the closing cell are on the board. */
  lemma {:induction false} FlankOnBoard(b: Board<int>, r: int, c: int, d: (int, int), p: int, o: int, k: int)
    requires IsGrid(b, Size, Size) && InBounds(Size, Size, r, c) && IsDir(d) && k >= 1
    ensures var t := Flank(b, r, c, d, p, o, k);
            t >= 0 ==> forall j :: k <= j <= k + t ==> On(RayAt(r, c, d, j))
    ensures var t := Flank(b, r, c, d, p, o, k);
            t >= 0 ==> forall j :: k <= j < k + t ==> b[RayAt(r, c, d, j).0][RayAt(r, c, d, j).1] == o
    decreases Size - k
  {
    var x := RayAt(r, c, d, k);
    if On(x) && b[x.0][x.1] == o {
      FlankOnBoard(b, r, c, d, p, o, k + 1);
    }
  }

  /** The scan agrees with the reference reading: it reports t exactly when the ray
      holds t stones of `o` from step k on, closed by a stone of `p`. */
  lemma {:induction false} FlankMeans(b: Board<int>, r: int, c: int, d: (int, int), p: int, o: int, k: int, t: nat)
    requires IsGrid(b, Size, Size) && InBounds(Size, Size, r, c) && IsDir(d) && k >= 1 && p != o
    ensures Flank(b, r, c, d, p, o, k) == t <==> RunThenStone(b, r, c, d, p, o, k, t)
    decreases t
  {
    var x := RayAt(r, c, d, k);
    if t > 0 && On(x) && b[x.0][x.1] == o {
      FlankMeans(b, r, c, d, p, o, k + 1, t - 1);
      if RunThenStone(b, r, c, d, p, o, k + 1, t - 1) {
        assert RunThenStone(b, r, c, d, p, o, k, t);
      }
      if RunThenStone(b, r, c, d, p, o, k, t) {
        assert RunThenStone(b, r, c, d, p, o, k + 1, t - 1);
      }
    }
  }

  /** `canFlip` holds exactly when some direction holds at least one `o` stone followed
      directly by a `p` stone, with nothing empty and no edge in between. */
  lemma CanFlipMeans(b: Board<int>, r: int, c: int, p: int, o: int)
    requires IsGrid(b, Size, Size) && InBounds(Size, Size, r, c) && p != o
    ensures CanFlip(b, r, c, p, o) <==>
              exists i, t :: 0 <= i < 8 && t >= 1 && RunThenStone(b, r, c, Directions[i], p, o, 1, t)
  {
    DirectionsAreDirs();
    if CanFlip(b, r, c, p, o) {
      var i :| 0 <= i < 8 && IsDir(Directions[i]) && Captures(b, r, c, Directions[i], p, o) > 0;
      var t := Flank(b, r, c, Directions[i], p, o, 1);
      FlankMeans(b, r, c, Directions[i], p, o, 1, t);
    }
    if exists i, t :: 0 <= i < 8 && t >= 1 && RunThenStone(b, r, c, Directions[i], p, o, 1, t) {
      var i, t :| 0 <= i < 8 && t >= 1 && RunThenStone(b, r, c, Directions[i], p, o, 1, t);
      FlankMeans(b, r, c, Directions[i], p, o, 1, t);
      assert Captures(b, r, c, Directions[i], p, o) > 0;
    }
  }

  // ------------------------------------------------------------ legal moves

  lemma {:induction false} MovesInRowMembers(b: Board<int>, p: int, r: int, c: int, m: (int, int))
    requires IsGrid(b, Size, Size) && 0 <= r < Size && 0 <= c <= Size
    ensures m in MovesInRow(b, p, r, c) <==>
              m.0 == r && 0 <= m.1 < c && Legal(b, p, r, m.1)
  {
    if c > 0 {
      var before, last := MovesInRow(b, p, r, c - 1), if Legal(b, p, r, c - 1) then [(r, c - 1)] else [];
      assert m in MovesInRow(b, p, r, c) <==> m in before || m in last;
      assert m in last <==> m == (r, c - 1) && Legal(b, p, r, c - 1);
      MovesInRowMembers(b, p, r, c - 1, m);
    }
  }

  lemma {:induction false} MovesUpToMembers(b: Board<int>, p: int, r: int, m: (int, int))
    requires IsGrid(b, Size, Size) && 0 <= r <= Size
    ensures m in MovesUpTo(b, p, r) <==>
              0 <= m.0 < r && 0 <= m.1 < Size && Legal(b, p, m.0, m.1)
  {
    if r > 0 {
      var before, row := MovesUpTo(b, p, r - 1), MovesInRow(b, p, r - 1, Size);
      assert m in MovesUpTo(b, p, r) <==> m in before || m in row;
      MovesUpToMembers(b, p, r - 1, m);
      MovesInRowMembers(b, p, r - 1, Size, m);
    }
  }

  /** `getValidMoves(p)` lists exactly the empty cells where `canFlip` holds, so never an
      occupied cell. */
  lemma ValidMovesMembers(b: Board<int>, p: int, m: (int, int))
    requires IsGrid(b, Size, Size)
    ensures m in ValidMoves(b, p) <==>
              On(m) && b[m.0][m.1] == Empty && CanFlip(b, m.0, m.1, p, Opponent(p))
  {
    MovesUpToMembers(b, p, Size, m);
  }

  /** The list of legal moves is empty exactly when the player has no move. */
  lemma NoMovesMeans(b: Board<int>, p: int)
    requires IsGrid(b, Size, Size)
    ensures |ValidMoves(b, p)| == 0 <==> !HasMove(b, p)
  {
    if HasMove(b, p) {
      var r, c :| 0 <= r < Size && 0 <= c < Size && b[r][c] == Empty && CanFlip(b, r, c, p, Opponent(p));
      ValidMovesMembers(b, p, (r, c));
    }
    if |ValidMoves(b, p)| != 0 {
      var m := ValidMoves(b, p)[0];
      ValidMovesMembers(b, p, m);
    }
  }

  // ------------------------------------------------------- what a move does

  /** Turning over k stones of `o` along one ray moves exactly k stones from `o` to `p`
      and changes no other cell's colour but to `p`. */
  lemma {:induction false} FlipRayCounts(b: Board<int>, r: int, c: int, d: (int, int), p: int, o: int, k: nat)
    requires IsGrid(b, Size, Size) && IsDir(d) && p != o && p != Empty && o != Empty
    requires forall j :: 1 <= j <= k ==> On(RayAt(r, c, d, j)) && b[RayAt(r, c, d, j).0][RayAt(r, c, d, j).1] == o
    ensures Count(FlipRay(b, r, c, d, p, k), Is(p)) == Count(b, Is(p)) + k
    ensures Count(FlipRay(b, r, c, d, p, k), Is(o)) + k == Count(b, Is(o))
    ensures Count(FlipRay(b, r, c, d, p, k), Occupied()) == Count(b, Occupied())
    ensures forall j :: k < j ==> On(RayAt(r, c, d, j)) ==>
              FlipRay(b, r, c, d, p, k)[RayAt(r, c, d, j).0][RayAt(r, c, d, j).1] == b[RayAt(r, c, d, j).0][RayAt(r, c, d, j).1]
  {
    if k > 0 {
      FlipRayCounts(b, r, c, d, p, o, k - 1);
      var prev := FlipRay(b, r, c, d, p, k - 1);
      var x := RayAt(r, c, d, k);
      assert prev[x.0][x.1] == o;
      CountSet(prev, x.0, x.1, p, Is(p));
      CountSet(prev, x.0, x.1, p, Is(o));
      CountSet(prev, x.0, x.1, p, Occupied());
      forall j | k < j && On(RayAt(r, c, d, j))
        ensures FlipRay(b, r, c, d, p, k)[RayAt(r, c, d, j).0][RayAt(r, c, d, j).1] == b[RayAt(r, c, d, j).0][RayAt(r, c, d, j).1]
      {
        assert RayAt(r, c, d, j) != x;
      }
    }
  }

  /** Across the directions i .. 7 the mover gains exactly the stones the opponent loses,
      and the number of stones on the board does not change. */
  lemma {:induction false} FlipDirsCounts(b: Board<int>, r: int, c: int, p: int, o: int, i: nat)
    requires IsGrid(b, Size, Size) && InBounds(Size, Size, r, c) && i <= 8 && p != o && p != Empty && o != Empty
    ensures Count(FlipDirs(b, r, c, p, o, i), Is(p)) == Count(b, Is(p)) + FlipCount(b, r, c, p, o, i)
    ensures Count(FlipDirs(b, r, c, p, o, i), Is(o)) + FlipCount(b, r, c, p, o, i) == Count(b, Is(o))
    ensures Count(FlipDirs(b, r, c, p, o, i), Occupied()) == Count(b, Occupied())
    decreases 8 - i
  {
    if i < 8 {
      DirectionsAreDirs();
      var d := Directions[i];
      var k := Captures(b, r, c, d, p, o);
      FlankOnBoard(b, r, c, d, p, o, 1);
      FlipRayCounts(b, r, c, d, p, o, k);
      FlipDirsCounts(FlipRay(b, r, c, d, p, k), r, c, p, o, i + 1);
    }
  }

  /** Placing a stone on an empty cell and flipping: the mover gains 1 + K stones, the
      opponent loses K, and the board holds one stone more, where K is the number of
      stones turned over. */
  lemma MoveAccounting(b: Board<int>, r: int, c: int, p: int)
    requires IsBoard(b) && InBounds(Size, Size, r, c) && b[r][c] == Empty && IsStone(p)
    ensures var b', k := AfterMove(b, r, c, p), Flipped(b, r, c, p);
            && Count(b', Is(p)) == Count(b, Is(p)) + 1 + k
            && Count(b', Is(Opponent(p))) + k == Count(b, Is(Opponent(p)))
            && Count(b', Occupied()) == Count(b, Occupied()) + 1
  {
    var o := Opponent(p);
    var placed := Set(b, r, c, p);
    CountSet(b, r, c, p, Is(p));
    CountSet(b, r, c, p, Is(o));
    CountSet(b, r, c, p, Occupied());
    FlipDirsCounts(placed, r, c, p, o, 0);
  }

  /** Every cell a move changes, other than the one played, held a stone of the
      opponent and now holds one of the mover. */
  lemma {:induction false} FlipDirsOnlyOpponent(b: Board<int>, cur: Board<int>, r: int, c: int, p: int, o: int, i: nat)
    requires IsGrid(b, Size, Size) && IsGrid(cur, Size, Size) && InBounds(Size, Size, r, c) && i <= 8 && p != o
    requires forall x, y :: 0 <= x < Size && 0 <= y < Size ==> cur[x][y] == b[x][y] || (b[x][y] == o && cur[x][y] == p)
    ensures var b' := FlipDirs(cur, r, c, p, o, i);
            forall x, y :: 0 <= x < Size && 0 <= y < Size ==> b'[x][y] == b[x][y] || (b[x][y] == o && b'[x][y] == p)
    decreases 8 - i
  {
    if i < 8 {
      DirectionsAreDirs();
      var d := Directions[i];
      var k := Captures(cur, r, c, d, p, o);
      FlankOnBoard(cur, r, c, d, p, o, 1);
      var next := FlipRay(cur, r, c, d, p, k);
      FlipRayOnlyOpponent(b, cur, r, c, d, p, o, k);
      FlipDirsOnlyOpponent(b, next, r, c, p, o, i + 1);
    }
  }

  lemma {:induction false} FlipRayOnlyOpponent(b: Board<int>, cur: Board<int>, r: int, c: int, d: (int, int), p: int, o: int, k: nat)
    requires IsGrid(b, Size, Size) && IsGrid(cur, Size, Size) && IsDir(d) && p != o
    requires forall j :: 1 <= j <= k ==> On(RayAt(r, c, d, j)) && cur[RayAt(r, c, d, j).0][RayAt(r, c, d, j).1] == o
    requires forall x, y :: 0 <= x < Size && 0 <= y < Size ==> cur[x][y] == b[x][y] || (b[x][y] == o && cur[x][y] == p)
    ensures var b' := FlipRay(cur, r, c, d, p, k);
            forall x, y :: 0 <= x < Size && 0 <= y < Size ==> b'[x][y] == b[x][y] || (b[x][y] == o && b'[x][y] == p)
  {
    if k > 0 {
      FlipRayOnlyOpponent(b, cur, r, c, d, p, o, k - 1);
      var x := RayAt(r, c, d, k);
      assert cur[x.0][x.1] == o;
      assert b[x.0][x.1] == o;
    }
  }

  /** `makeMove` leaves the played cell to the mover and changes no other cell except
      by turning an opponent stone into a mover stone. */
  lemma MoveOnlyFlipsOpponent(b: Board<int>, r: int, c: int, p: int)
    requires IsBoard(b) && InBounds(Size, Size, r, c) && IsStone(p)
    ensures var b' := AfterMove(b, r, c, p);
            && IsGrid(b', Size, Size) && b'[r][c] == p
            && forall x, y :: 0 <= x < Size && 0 <= y < Size && (x, y) != (r, c) ==>
                 b'[x][y] == b[x][y] || (b[x][y] == Opponent(p) && b'[x][y] == p)
  {
    var placed := Set(b, r, c, p);
    FlipDirsOnlyOpponent(placed, placed, r, c, p, Opponent(p), 0);
  }

  // --------------------------------------- which cells a move turns over

  /** (x, y) is one of steps 1 .. k of the ray from (r, c) in direction `d`. */
  predicate OnRay(r: int, c: int, d: (int, int), k: int, x: int, y: int)
  {
    exists j :: 1 <= j <= k && RayAt(r, c, d, j) == (x, y)
  }

  /** `b'` holds what `b` holds on every cell of the ray from (r, c) in direction `d`. */
  ghost predicate RayAgrees(b': Board<int>, b: Board<int>, r: int, c: int, d: (int, int))
    requires IsGrid(b', Size, Size) && IsGrid(b, Size, Size)
  {
    forall j :: j >= 1 && On(RayAt(r, c, d, j)) ==>
      b'[RayAt(r, c, d, j).0][RayAt(r, c, d, j).1] == b[RayAt(r, c, d, j).0][RayAt(r, c, d, j).1]
  }

  /** Some direction i .. 7 captures a run on `b` that passes through (x, y). */
  ghost predicate CapturedFrom(b: Board<int>, r: int, c: int, p: int, o: int, i: int, x: int, y: int)
    requires IsGrid(b, Size, Size) && InBounds(Size, Size, r, c)
  {
    exists i' :: i <= i' < 8 && 0 <= i' && IsDir(Directions[i']) &&
      OnRay(r, c, Directions[i'], Captures(b, r, c, Directions[i'], p, o), x, y)
  }

  /** The reference reading of the cells a move turns over: (x, y) lies on a run of
      opponent stones that some direction from (r, c) closes off with a mover stone. */
  ghost predicate Flanked(b: Board<int>, r: int, c: int, p: int, x: int, y: int)
    requires IsGrid(b, Size, Size)
  {
    exists i, t, j :: 0 <= i < 8 && 1 <= j <= t &&
      RunThenStone(b, r, c, Directions[i], p, Opponent(p), 1, t) && RayAt(r, c, Directions[i], j) == (x, y)
  }

  lemma DirectionsDistinct()
    ensures forall i, i' :: 0 <= i < i' < 8 ==> Directions[i] != Directions[i']
  {
  }

  /** Two rays from the same cell in different directions meet only at that cell. */
  lemma RaysDisjoint(r: int, c: int, d: (int, int), e: (int, int), j: int, k: int)
    requires IsDir(d) && IsDir(e) && d != e && j >= 1 && k >= 1
    ensures RayAt(r, c, d, j) != RayAt(r, c, e, k)
  {
  }

  /** Turning over steps 1 .. k of a ray sets exactly those cells to `p`. */
  lemma {:induction false} FlipRayEffect(b: Board<int>, r: int, c: int, d: (int, int), p: int, k: nat, x: int, y: int)
    requires IsGrid(b, Size, Size) && IsDir(d) && InBounds(Size, Size, x, y)
    requires forall j :: 1 <= j <= k ==> On(RayAt(r, c, d, j))
    ensures FlipRay(b, r, c, d, p, k)[x][y] == (if OnRay(r, c, d, k, x, y) then p else b[x][y])
  {
    if k > 0 {
      FlipRayEffect(b, r, c, d, p, k - 1, x, y);
      if RayAt(r, c, d, k) == (x, y) {
        assert OnRay(r, c, d, k, x, y);
      } else {
        if OnRay(r, c, d, k, x, y) {
          var j :| 1 <= j <= k && RayAt(r, c, d, j) == (x, y);
          assert OnRay(r, c, d, k - 1, x, y);
        }
        if OnRay(r, c, d, k - 1, x, y) {
          var j :| 1 <= j <= k - 1 && RayAt(r, c, d, j) == (x, y);
          assert OnRay(r, c, d, k, x, y);
        }
      }
    }
  }

  /** The scan reads only the cells of its ray. */
  lemma {:induction false} FlankSameRay(b: Board<int>, b': Board<int>, r: int, c: int, d: (int, int), p: int, o: int, k: int)
    requires IsGrid(b, Size, Size) && IsGrid(b', Size, Size) && InBounds(Size, Size, r, c) && IsDir(d) && k >= 1
    requires RayAgrees(b', b, r, c, d)
    ensures Flank(b', r, c, d, p, o, k) == Flank(b, r, c, d, p, o, k)
    decreases Size - k
  {
    var x := RayAt(r, c, d, k);
    if On(x) {
      assert b'[x.0][x.1] == b[x.0][x.1];
      FlankSameRay(b, b', r, c, d, p, o, k + 1);
    }
  }

  /** Turning over a run in one direction leaves every other direction's ray as it was. */
  lemma FlipRayKeepsOtherRay(cur: Board<int>, b: Board<int>, r: int, c: int, d: (int, int), e: (int, int), p: int, k: nat)
    requires IsGrid(cur, Size, Size) && IsGrid(b, Size, Size) && IsDir(d) && IsDir(e) && d != e
    requires RayAgrees(cur, b, r, c, e)
    requires forall j :: 1 <= j <= k ==> On(RayAt(r, c, d, j))
    ensures RayAgrees(FlipRay(cur, r, c, d, p, k), b, r, c, e)
  {
    forall j | j >= 1 && On(RayAt(r, c, e, j))
      ensures FlipRay(cur, r, c, d, p, k)[RayAt(r, c, e, j).0][RayAt(r, c, e, j).1] == b[RayAt(r, c, e, j).0][RayAt(r, c, e, j).1]
    {
      var x := RayAt(r, c, e, j);
      FlipRayEffect(cur, r, c, d, p, k, x.0, x.1);
      if OnRay(r, c, d, k, x.0, x.1) {
        var j' :| 1 <= j' <= k && RayAt(r, c, d, j') == x;
        RaysDisjoint(r, c, d, e, j', j);
      }
    }
  }

  /** The flipping loop over directions i .. 7, while those rays still hold what they
      held on `b`, turns over exactly the runs each of them captures on `b`. */
  lemma {:induction false} FlipDirsEffect(b: Board<int>, cur: Board<int>, r: int, c: int, p: int, o: int, i: nat, x: int, y: int)
    requires IsGrid(b, Size, Size) && IsGrid(cur, Size, Size) && InBounds(Size, Size, r, c) && i <= 8
    requires InBounds(Size, Size, x, y)
    requires forall i' :: i <= i' < 8 ==> RayAgrees(cur, b, r, c, Directions[i'])
    ensures FlipDirs(cur, r, c, p, o, i)[x][y] == (if CapturedFrom(b, r, c, p, o, i, x, y) then p else cur[x][y])
    decreases 8 - i
  {
    DirectionsAreDirs();
    if i < 8 {
      DirectionsDistinct();
      var d := Directions[i];
      FlankSameRay(b, cur, r, c, d, p, o, 1);
      var k := Captures(cur, r, c, d, p, o);
      FlankOnBoard(cur, r, c, d, p, o, 1);
      var next := FlipRay(cur, r, c, d, p, k);
      forall i' | i + 1 <= i' < 8
        ensures RayAgrees(next, b, r, c, Directions[i'])
      {
        FlipRayKeepsOtherRay(cur, b, r, c, d, Directions[i'], p, k);
      }
      FlipDirsEffect(b, next, r, c, p, o, i + 1, x, y);
      FlipRayEffect(cur, r, c, d, p, k, x, y);
      assert CapturedFrom(b, r, c, p, o, i, x, y) <==>
               OnRay(r, c, d, k, x, y) || CapturedFrom(b, r, c, p, o, i + 1, x, y);
    }
  }

  /** One direction's capture, read on the original board, is a run closed by a mover
      stone in the sense of `RunThenStone`. */
  lemma CapturedMeansFlanked(b: Board<int>, r: int, c: int, p: int, x: int, y: int)
    requires IsGrid(b, Size, Size) && InBounds(Size, Size, r, c)
    ensures CapturedFrom(Set(b, r, c, p), r, c, p, Opponent(p), 0, x, y) <==> Flanked(b, r, c, p, x, y)
  {
    DirectionsAreDirs();
    var o := Opponent(p);
    var placed := Set(b, r, c, p);
    if CapturedFrom(placed, r, c, p, o, 0, x, y) {
      var i :| 0 <= i < 8 && IsDir(Directions[i]) &&
        OnRay(r, c, Directions[i], Captures(placed, r, c, Directions[i], p, o), x, y);
      RayAvoidsOrigin(b, r, c, Directions[i], p, o, p);
      var t := Captures(b, r, c, Directions[i], p, o);
      var j :| 1 <= j <= t && RayAt(r, c, Directions[i], j) == (x, y);
      FlankMeans(b, r, c, Directions[i], p, o, 1, t);
      assert RunThenStone(b, r, c, Directions[i], p, o, 1, t);
    }
    if Flanked(b, r, c, p, x, y) {
      var i, t, j :| 0 <= i < 8 && 1 <= j <= t &&
        RunThenStone(b, r, c, Directions[i], p, o, 1, t) && RayAt(r, c, Directions[i], j) == (x, y);
      FlankMeans(b, r, c, Directions[i], p, o, 1, t);
      RayAvoidsOrigin(b, r, c, Directions[i], p, o, p);
      assert OnRay(r, c, Directions[i], Captures(placed, r, c, Directions[i], p, o), x, y);
    }
  }

  /** `makeMove` turns over a cell other than the one played exactly when it lies on a
      run of opponent stones that some direction closes off with a mover stone, read on
      the board before the move, and every such cell becomes the mover's. */
  lemma MoveFlipsCell(b: Board<int>, r: int, c: int, p: int, x: int, y: int)
    requires IsGrid(b, Size, Size) && InBounds(Size, Size, r, c) && InBounds(Size, Size, x, y) && (x, y) != (r, c)
    ensures AfterMove(b, r, c, p)[x][y] == (if Flanked(b, r, c, p, x, y) then p else b[x][y])
    ensures AfterMove(b, r, c, p)[x][y] != b[x][y] <==> Flanked(b, r, c, p, x, y)
  {
    var o := Opponent(p);
    var placed := Set(b, r, c, p);
    FlipDirsEffect(placed, placed, r, c, p, o, 0, x, y);
    CapturedMeansFlanked(b, r, c, p, x, y);
    if Flanked(b, r, c, p, x, y) {
      var i, t, j :| 0 <= i < 8 && 1 <= j <= t &&
        RunThenStone(b, r, c, Directions[i], p, o, 1, t) && RayAt(r, c, Directions[i], j) == (x, y);
      assert b[x][y] == o;
    }
  }

  /** The same, for every cell at once. */
  lemma MoveFlipsExactly(b: Board<int>, r: int, c: int, p: int)
    requires IsGrid(b, Size, Size) && InBounds(Size, Size, r, c)
    ensures forall x, y :: 0 <= x < Size && 0 <= y < Size && (x, y) != (r, c) ==>
              (AfterMove(b, r, c, p)[x][y] != b[x][y] <==> Flanked(b, r, c, p, x, y))
    ensures forall x, y :: 0 <= x < Size && 0 <= y < Size && Flanked(b, r, c, p, x, y) ==>
              AfterMove(b, r, c, p)[x][y] == p
  {
    forall x, y | 0 <= x < Size && 0 <= y < Size && (x, y) != (r, c)
      ensures AfterMove(b, r, c, p)[x][y] != b[x][y] <==> Flanked(b, r, c, p, x, y)
      ensures Flanked(b, r, c, p, x, y) ==> AfterMove(b, r, c, p)[x][y] == p
    {
      MoveFlipsCell(b, r, c, p, x, y);
    }
    forall x, y | 0 <= x < Size && 0 <= y < Size && (x, y) == (r, c) && Flanked(b, r, c, p, x, y)
      ensures AfterMove(b, r, c, p)[x][y] == p
    {
      FlipDirsOnlyOpponent(Set(b, r, c, p), Set(b, r, c, p), r, c, p, Opponent(p), 0);
    }
  }

  /** While no direction has flipped anything yet the board is untouched, so the first
      direction with a capture on the original board flips at least one stone. */
  lemma {:induction false} FlipCountPositive(b: Board<int>, r: int, c: int, p: int, o: int, i: nat, i0: int)
    requires IsGrid(b, Size, Size) && InBounds(Size, Size, r, c) && i <= i0 < 8
    requires IsDir(Directions[i0]) && Captures(b, r, c, Directions[i0], p, o) > 0
    ensures FlipCount(b, r, c, p, o, i) > 0
    decreases 8 - i
  {
    DirectionsAreDirs();
    var k := Captures(b, r, c, Directions[i], p, o);
    if i < i0 && k == 0 {
      FlankOnBoard(b, r, c, Directions[i], p, o, 1);
      assert FlipRay(b, r, c, Directions[i], p, 0) == b;
      FlipCountPositive(b, r, c, p, o, i + 1, i0);
    }
  }

  /** A legal move turns over at least one stone: the flipping scan and `canFlip`
      read the same rays. */
  lemma ValidMoveFlips(b: Board<int>, r: int, c: int, p: int)
    requires IsBoard(b) && InBounds(Size, Size, r, c) && b[r][c] == Empty
    requires CanFlip(b, r, c, p, Opponent(p))
    ensures Flipped(b, r, c, p) > 0
  {
    var o := Opponent(p);
    var i0 :| 0 <= i0 < 8 && IsDir(Directions[i0]) && Captures(b, r, c, Directions[i0], p, o) > 0;
    var placed := Set(b, r, c, p);
    RayAvoidsOrigin(b, r, c, Directions[i0], p, o, p);
    FlipCountPositive(placed, r, c, p, o, 0, i0);
  }

  /** Writing the played cell does not change what any ray from it holds. */
  lemma RayAvoidsOrigin(b: Board<int>, r: int, c: int, d: (int, int), p: int, o: int, v: int)
    requires IsGrid(b, Size, Size) && InBounds(Size, Size, r, c) && IsDir(d)
    ensures Captures(Set(b, r, c, v), r, c, d, p, o) == Captures(b, r, c, d, p, o)
  {
    FlankAvoidsOrigin(b, r, c, d, p, o, v, 1);
  }

  lemma {:induction false} FlankAvoidsOrigin(b: Board<int>, r: int, c: int, d: (int, int), p: int, o: int, v: int, k: int)
    requires IsGrid(b, Size, Size) && InBounds(Size, Size, r, c) && IsDir(d) && k >= 1
    ensures Flank(Set(b, r, c, v), r, c, d, p, o, k) == Flank(b, r, c, d, p, o, k)
    decreases Size - k
  {
    var x := RayAt(r, c, d, k);
    if On(x) {
      assert x != (r, c);
      FlankAvoidsOrigin(b, r, c, d, p, o, v, k + 1);
    }
  }

  // ------------------------------------------------------------ the opening

  /** Black has a move in the opening position (at row 2, column 3, capturing
      downwards), so the `checkAndPass` of `startNewGame` changes nothing. */
  lemma InitialBlackCanMove()
    ensures HasMove(Initial(), Black)
  {
    var b := Initial();
    DirectionsAreDirs();
    assert Directions[6] == (1, 0);
    assert RunThenStone(b, 2, 3, (1, 0), Black, White, 1, 1);
    FlankMeans(b, 2, 3, (1, 0), Black, White, 1, 1);
    assert Captures(b, 2, 3, Directions[6], Black, White) > 0;
    assert CanFlip(b, 2, 3, Black, White);
  }

  /** Scores add up to the number of stones on the board. */
  lemma ScoresTotal(b: Board<int>, p1Color: int, p2Color: int)
    requires IsBoard(b) && IsStone(p1Color) && p2Color == Opponent(p1Color)
    ensures Scores(b, p1Color, p2Color).0 + Scores(b, p1Color, p2Color).1 == Count(b, Occupied())
  {
    CountSum(b, Is(p1Color), Is(p2Color), Occupied());
  }

  /** The scan after k - 1 steps over `o` stones: what it will report from step k
      determines what it reports from step 1. */
  lemma {:induction false} FlankPrefix(b: Board<int>, r: int, c: int, d: (int, int), p: int, o: int, k: int)
    requires IsGrid(b, Size, Size) && InBounds(Size, Size, r, c) && IsDir(d) && k >= 1
    requires forall j :: 1 <= j < k ==> On(RayAt(r, c, d, j)) && b[RayAt(r, c, d, j).0][RayAt(r, c, d, j).1] == o
    ensures Flank(b, r, c, d, p, o, 1) ==
              (if Flank(b, r, c, d, p, o, k) < 0 then -1 else Flank(b, r, c, d, p, o, k) + k - 1)
  {
    if k > 1 {
      FlankPrefix(b, r, c, d, p, o, k - 1);
      var x := RayAt(r, c, d, k - 1);
      assert On(x) && b[x.0][x.1] == o;
    }
  }

  /** The `forEach` of `makeMove` that turns the collected stones over, in the order
      they were collected. */
  method FlipStones(b: Board<int>, run: seq<(int, int)>, r: int, c: int, d: (int, int), p: int) returns (b': Board<int>)
    requires IsGrid(b, Size, Size)
    requires forall j :: 0 <= j < |run| ==> run[j] == RayAt(r, c, d, j + 1) && On(run[j])
    ensures b' == FlipRay(b, r, c, d, p, |run|)
  {
    b' := b;
    var j := 0;
    while j < |run|
      invariant 0 <= j <= |run|
      invariant b' == FlipRay(b, r, c, d, p, j)
    {
      var pos := run[j];
      b' := Set(b', pos.0, pos.1, p);
      j := j + 1;
    }
  }

  /** The walk along one direction shared by `canFlip` and `makeMove`: it collects
      the opponent stones it passes and stops at the edge, at an empty cell, or at a
      stone of the player's (`closed`). The run counts as a capture only when closed. */
  method ScanRay(board: Board<int>, r: int, c: int, d: (int, int), player: int, opponent: int) returns (run: seq<(int, int)>, closed: bool)
    requires IsGrid(board, Size, Size) && InBounds(Size, Size, r, c) && IsDir(d)
    ensures Captures(board, r, c, d, player, opponent) == (if closed then |run| else 0)
    ensures forall j :: 0 <= j < |run| ==> run[j] == RayAt(r, c, d, j + 1)
    ensures forall j :: 1 <= j <= |run| ==> On(RayAt(r, c, d, j)) && board[RayAt(r, c, d, j).0][RayAt(r, c, d, j).1] == opponent
  {
    var k := 1;
    var nr, nc := r + d.0, c + d.1;
    run, closed := [], false;
    while 0 <= nr < Size && 0 <= nc < Size
      invariant k >= 1 && (nr, nc) == RayAt(r, c, d, k)
      invariant |run| == k - 1 && forall j :: 0 <= j < k - 1 ==> run[j] == RayAt(r, c, d, j + 1)
      invariant forall j :: 1 <= j < k ==> On(RayAt(r, c, d, j)) && board[RayAt(r, c, d, j).0][RayAt(r, c, d, j).1] == opponent
      decreases Size - k
    {
      if board[nr][nc] == opponent {
        run := run + [(nr, nc)];
      } else if board[nr][nc] == player {
        closed := true;
        break;
      } else {
        break;
      }
      nr, nc, k := nr + d.0, nc + d.1, k + 1;
    }
    FlankPrefix(board, r, c, d, player, opponent, k);
  }

  /** The body of `makeMove` on the board: the stone goes down, then each of the eight
      directions is scanned and its closed-off run flipped. */
  method PlaceAndFlip(board: Board<int>, r: int, c: int, player: int, opponent: int) returns (b: Board<int>)
    requires IsBoard(board) && InBounds(Size, Size, r, c) && IsStone(player) && opponent == Opponent(player)
    ensures IsBoard(b) && b == AfterMove(board, r, c, player)
  {
    ghost var goal := AfterMove(board, r, c, player);
    b := Set(board, r, c, player);
    DirectionsAreDirs();
    var i := 0;
    while i < 8
      invariant 0 <= i <= 8 && IsBoard(b)
      invariant FlipDirs(b, r, c, player, opponent, i) == goal
    {
      b := FlipDirection(b, r, c, Directions[i], player, opponent);
      i := i + 1;
    }
  }

  /** One pass of the direction loop of `makeMove`: scan the ray, and if it closes
      off a run of opponent stones, turn them over nearest first. */
  method FlipDirection(board: Board<int>, r: int, c: int, d: (int, int), player: int, opponent: int) returns (b: Board<int>)
    requires IsBoard(board) && InBounds(Size, Size, r, c) && IsDir(d) && IsStone(player)
    ensures IsBoard(b)
    ensures b == FlipRay(board, r, c, d, player, Captures(board, r, c, d, player, opponent))
  {
    var stonesToFlip, closed := ScanRay(board, r, c, d, player, opponent);
    b := board;
    if closed && |stonesToFlip| > 0 {
      FlipRayKeepsBoard(board, r, c, d, player, |stonesToFlip|);
      b := FlipStones(board, stonesToFlip, r, c, d, player);
    }
  }

  // --------------------------------------------------------------- the game

  class Game {
    var board: Board<int>
    var currentPlayer: int
    var p1Color: int
    var p2Color: int

    ghost predicate Valid()
      reads this
    {
      IsBoard(board) && IsStone(currentPlayer) && IsStone(p1Color) && p2Color == Opponent(p1Color)
    }

    /** Construction followed by the setup dialog's start: `p1Black` is the outcome of
        the coin toss in `startNewGame`. */
    constructor (p1Black: bool)
      ensures Valid()
      ensures board == Initial() && currentPlayer == Black
      ensures p1Color == (if p1Black then Black else White)
    {
      board := [];
      currentPlayer := Black;
      p1Color := Black;
      p2Color := White;
      new;
      StartNewGame(p1Black);
    }

    /** `startNewGame`: the opening position, colours by coin toss, black to move; the
        closing `checkAndPass` never passes since black can move. */
    method StartNewGame(p1Black: bool)
      modifies this
      ensures Valid()
      ensures board == Initial() && currentPlayer == Black
      ensures p1Color == (if p1Black then Black else White)
    {
      if p1Black {
        p1Color, p2Color := Black, White;
      } else {
        p1Color, p2Color := White, Black;
      }
      currentPlayer := Black;
      board := Initial();
      assert Valid();
      InitialBlackCanMove();
      var result := CheckAndPass();
      assert result == Continue;
    }

    /** `canFlip(r, c, player, opponent)`: some direction closes off a non-empty run. */
    method CanFlipAt(r: int, c: int, player: int, opponent: int) returns (found: bool)
      requires Valid() && InBounds(Size, Size, r, c)
      ensures found == CanFlip(board, r, c, player, opponent)
    {
      DirectionsAreDirs();
      var i := 0;
      while i < 8
        invariant 0 <= i <= 8
        invariant forall i' :: 0 <= i' < i ==> Captures(board, r, c, Directions[i'], player, opponent) == 0
      {
        var run, closed := ScanRay(board, r, c, Directions[i], player, opponent);
        if closed && |run| > 0 {
          return true;
        }
        i := i + 1;
      }
      return false;
    }

    /** `getValidMoves(player)`: the empty cells where `canFlip` holds, row by row. */
    method GetValidMoves(player: int) returns (moves: seq<(int, int)>)
      requires Valid()
      ensures moves == ValidMoves(board, player)
    {
      moves := [];
      var opponent := if player == Black then White else Black;
      var r := 0;
      while r < Size
        invariant 0 <= r <= Size
        invariant moves == MovesUpTo(board, player, r)
      {
        var row := ValidMovesInRow(r, player, opponent);
        moves := moves + row;
        r := r + 1;
      }
    }

    /** One pass of the inner loop of `getValidMoves`, over row r. */
    method ValidMovesInRow(r: int, player: int, opponent: int) returns (row: seq<(int, int)>)
      requires Valid() && 0 <= r < Size && opponent == Opponent(player)
      ensures row == MovesInRow(board, player, r, Size)
    {
      row := [];
      var c := 0;
      while c < Size
        invariant 0 <= c <= Size
        invariant row == MovesInRow(board, player, r, c)
      {
        if board[r][c] == Empty {
          var ok := CanFlipAt(r, c, player, opponent);
          if ok {
            row := row + [(r, c)];
          }
        }
        c := c + 1;
      }
    }

    /** `makeMove(r, c)`: place the mover's stone, flip each closed-off run, and hand
        the turn to the opponent (the delayed `checkAndPass` is a separate call). */
    method MakeMove(r: int, c: int)
      requires Valid() && InBounds(Size, Size, r, c)
      modifies this
      ensures Valid()
      ensures board == AfterMove(old(board), r, c, old(currentPlayer))
      ensures currentPlayer == Opponent(old(currentPlayer))
      ensures p1Color == old(p1Color) && p2Color == old(p2Color)
      ensures forall x, y :: 0 <= x < Size && 0 <= y < Size && (x, y) != (r, c) ==>
                (board[x][y] != old(board)[x][y] <==> Flanked(old(board), r, c, old(currentPlayer), x, y))
    {
      var player := currentPlayer;
      var opponent := if player == Black then White else Black;
      MoveFlipsExactly(board, r, c, player);
      var b := PlaceAndFlip(board, r, c, player, opponent);
      board := b;
      currentPlayer := opponent;
    }

    /** `getScores`: black and white stones counted cell by cell, reported for the
        colour each player holds. */
    method GetScores() returns (p1: nat, p2: nat)
      requires Valid()
      ensures (p1, p2) == Scores(board, p1Color, p2Color)
    {
      var blackCount, whiteCount := 0, 0;
      var r := 0;
      while r < Size
        invariant 0 <= r <= Size
        invariant blackCount == Count(board[..r], Is(Black)) && whiteCount == Count(board[..r], Is(White))
      {
        var c := 0;
        while c < Size
          invariant 0 <= c <= Size
          invariant blackCount == Count(board[..r], Is(Black)) + CountRow(board[r][..c], Is(Black))
          invariant whiteCount == Count(board[..r], Is(White)) + CountRow(board[r][..c], Is(White))
        {
          CountRowPrefix(board[r], c, Is(Black));
          CountRowPrefix(board[r], c, Is(White));
          if board[r][c] == Black {
            blackCount := blackCount + 1;
          } else if board[r][c] == White {
            whiteCount := whiteCount + 1;
          }
          c := c + 1;
        }
        CountPrefix(board, r, Is(Black));
        CountPrefix(board, r, Is(White));
        assert board[r][..Size] == board[r];
        r := r + 1;
      }
      assert board[..Size] == board;
      p1 := if p1Color == Black then blackCount else whiteCount;
      p2 := if p2Color == Black then blackCount else whiteCount;
    }

    /** `endGame`: the player with more stones wins; equal scores are a draw. */
    method EndGame() returns (outcome: Outcome)
      requires Valid()
      ensures var (s1, s2) := Scores(board, p1Color, p2Color);
              && (outcome == Player1Wins <==> s1 > s2)
              && (outcome == Player2Wins <==> s2 > s1)
              && (outcome == Draw <==> s1 == s2)
    {
      var s1, s2 := GetScores();
      if s1 > s2 {
        outcome := Player1Wins;
      } else if s2 > s1 {
        outcome := Player2Wins;
      } else {
        outcome := Draw;
      }
    }

    /** `checkAndPass`: a player without a legal move passes to an opponent who has
        one; when neither can move the game ends. */
    method CheckAndPass() returns (result: TurnResult)
      requires Valid()
      modifies this
      ensures Valid() && board == old(board) && p1Color == old(p1Color) && p2Color == old(p2Color)
      ensures result == Continue <==> HasMove(board, old(currentPlayer))
      ensures result == Passed <==>
                !HasMove(board, old(currentPlayer)) && HasMove(board, Opponent(old(currentPlayer)))
      ensures result.Over? <==>
                !HasMove(board, old(currentPlayer)) && !HasMove(board, Opponent(old(currentPlayer)))
      ensures result.Over? ==> result.outcome == Winner(Scores(board, p1Color, p2Color).0, Scores(board, p1Color, p2Color).1)
      ensures currentPlayer == (if result == Passed then Opponent(old(currentPlayer)) else old(currentPlayer))
    {
      var moves := GetValidMoves(currentPlayer);
      NoMovesMeans(board, currentPlayer);
      if |moves| == 0 {
        var opponent := if currentPlayer == Black then White else Black;
        var oppMoves := GetValidMoves(opponent);
        NoMovesMeans(board, opponent);
        if |oppMoves| == 0 {
          var outcome := EndGame();
          result := Over(outcome);
        } else {
          currentPlayer := opponent;
          result := Passed;
        }
      } else {
        result := Continue;
      }
    }
  }
}

/** The numbered sliding puzzle: an n by n board holding the tiles 1 .. n*n - 1 and
    one empty slot (`null` in the game, written `Blank` here), read row by row. */
module ClassicPuzzle {
  import opened Tiles

  /** The empty slot. No numbered tile is 0, so 0 plays the part of `null`: it is the
      one value the truthiness test of the inversion loop skips. */
  const Blank: int := 0

  /** `initPuzzle(n)`: the tiles in order with the empty slot last. */
  function Solved(n: nat): (s: seq<int>)
    requires n >= 1
    ensures |s| == n * n
  {
    seq(n * n, i requires 0 <= i < n * n => if i < n * n - 1 then i + 1 else Blank)
  }

  /** A board of this puzzle: some rearrangement of the starting tiles. */
  ghost predicate IsArrangement(s: seq<int>, n: nat)
    requires n >= 1
  {
    multiset(s) == multiset(Solved(n))
  }

  /** `checkCompletion`: every slot but the last holds its own number, and the last
      slot is empty. */
  predicate Complete(s: seq<int>, n: nat)
    requires n >= 1 && |s| == n * n
  {
    (forall i :: 0 <= i < n * n - 1 ==> s[i] == i + 1) && s[n * n - 1] == Blank
  }

  /** `isSolvable`: the inversion parity compared with the empty slot's row counted
      from the bottom (1 for the last row). */
  predicate Solvable(s: seq<int>, n: nat)
    requires n >= 1
  {
    var inv := Inversions(s, Blank);
    if n % 2 != 0 then inv % 2 == 0
    else
      var rowFromBottom := n - IndexOf(s, Blank) / n;
      if rowFromBottom % 2 == 0 then inv % 2 != 0 else inv % 2 == 0
  }

  /** `moveTile(index)`: the clicked tile and the empty slot change places when they
      are orthogonal neighbours; any other click leaves the board as it was. */
  function Step(s: seq<int>, n: nat, index: int): seq<int>
    requires n >= 1 && Blank in s && 0 <= index < |s|
  {
    var e := IndexOf(s, Blank);
    if Adjacent(index, e, n) then Swap(s, e, index) else s
  }

  /** The board after clicking the positions of `clicks` in turn. */
  function Play(s: seq<int>, n: nat, clicks: seq<int>): seq<int>
    requires n >= 1 && IsArrangement(s, n)
    requires forall k :: 0 <= k < |clicks| ==> 0 <= clicks[k] < |s|
    decreases |clicks|
  {
    if clicks == [] then s
    else
      StepArrangement(s, n, clicks[0]);
      Play(Step(s, n, clicks[0]), n, clicks[1..])
  }

  /** The do-while of `shufflePuzzle`: shuffle once per round of draws until the board
      is solvable and not already complete. Gives the board and whether some round
      succeeded. */
  function Deal(s: seq<int>, n: nat, rounds: seq<seq<int>>): (seq<int>, bool)
    requires n >= 1
    requires forall k :: 0 <= k < |rounds| ==> ValidPicks(rounds[k], |s|)
    decreases |rounds|
  {
    if rounds == [] then (s, false)
    else
      var t := Shuffled(s, rounds[0]);
      if |t| == n * n && Solvable(t, n) && !Complete(t, n) then (t, true)
      else Deal(t, n, rounds[1..])
  }

  // ------------------------------------------------------------------ lemmas

  lemma SolvedDistinct(n: nat)
    requires n >= 1
    ensures Distinct(Solved(n))
  {
  }

  /** Every board of the puzzle holds n*n distinct entries, one of them the blank. */
  lemma ArrangementFacts(s: seq<int>, n: nat)
    requires n >= 1 && IsArrangement(s, n)
    ensures |s| == n * n && Distinct(s) && Blank in s
  {
    var t := Solved(n);
    assert |multiset(s)| == |multiset(t)|;
    SolvedDistinct(n);
    DistinctPermutation(s, t);
    assert t[n * n - 1] == Blank;
    assert Blank in multiset(t);
  }

  /** A board is complete exactly when it is the starting arrangement. */
  lemma CompleteIsSolved(s: seq<int>, n: nat)
    requires n >= 1 && |s| == n * n
    ensures Complete(s, n) <==> s == Solved(n)
  {
    if Complete(s, n) {
      assert forall i :: 0 <= i < n * n ==> s[i] == Solved(n)[i];
    }
  }

  /** A move keeps the tiles: the result is again an arrangement of the puzzle. */
  lemma StepArrangement(s: seq<int>, n: nat, index: int)
    requires n >= 1 && IsArrangement(s, n) && 0 <= index < |s|
    ensures Blank in s && IsArrangement(Step(s, n, index), n)
  {
    ArrangementFacts(s, n);
    var e := IndexOf(s, Blank);
    SwapPermutes(s, e, index);
  }

  /** A click changes the board exactly when the clicked tile is a neighbour of the
      empty slot. */
  lemma StepMoves(s: seq<int>, n: nat, index: int)
    requires n >= 1 && IsArrangement(s, n) && 0 <= index < |s|
    ensures Blank in s
    ensures Step(s, n, index) != s <==> Adjacent(index, IndexOf(s, Blank), n)
  {
    ArrangementFacts(s, n);
    var e := IndexOf(s, Blank);
    if Adjacent(index, e, n) {
      assert index != e;
      assert Swap(s, e, index)[e] != s[e];
    }
  }

  /** The formula of `isSolvable` for an inversion count `inv` and an empty slot in
      row `row` counted from the top. */
  predicate Parity(inv: int, row: int, n: int)
  {
    if n % 2 != 0 then inv % 2 == 0
    else if (n - row) % 2 == 0 then inv % 2 != 0 else inv % 2 == 0
  }

  lemma SolvableParity(s: seq<int>, n: nat)
    requires n >= 1
    ensures Solvable(s, n) == Parity(Inversions(s, Blank), IndexOf(s, Blank) / n, n)
  {
  }

  /** A move within a row keeps the inversion parity and the row; a move between rows
      changes the parity by n - 1 and the row by one. Either way the formula agrees. */
  lemma ParityStep(inv: int, inv': int, row: int, row': int, n: int)
    requires n >= 1
    requires row == row' ==> inv' % 2 == inv % 2
    requires row != row' ==> Abs(row - row') == 1 && inv' % 2 == (inv + n - 1) % 2
    ensures Parity(inv', row', n) == Parity(inv, row, n)
  {
  }

  /** Solvability, as `isSolvable` computes it, is an invariant of play: a legal move
      from a solvable board gives a solvable board, and from an unsolvable one an
      unsolvable one. */
  lemma StepPreservesSolvable(s: seq<int>, n: nat, index: int)
    requires n >= 1 && IsArrangement(s, n) && 0 <= index < |s|
    ensures Blank in s && (Solvable(Step(s, n, index), n) <==> Solvable(s, n))
  {
    ArrangementFacts(s, n);
    var e := IndexOf(s, Blank);
    if Adjacent(index, e, n) {
      var s' := Swap(s, e, index);
      AdjacentCases(index, e, n);
      SlideParity(s, e, index, Blank);
      SlideBlank(s, e, index, Blank);
      ParityByRow(Inversions(s, Blank), Inversions(s', Blank), Abs(index - e), n, index / n == e / n);
      SolvableParity(s, n);
      SolvableParity(s', n);
      ParityStep(Inversions(s, Blank), Inversions(s', Blank), e / n, index / n, n);
    }
  }

  lemma LastRow(n: nat)
    requires n >= 1
    ensures (n * n - 1) / n == n - 1
  {
    assert n * n - 1 == (n - 1) * n + (n - 1);
    DivUnique(n * n - 1, n, n - 1, n - 1);
  }

  lemma SolvedFacts(n: nat)
    requires n >= 1
    ensures Distinct(Solved(n)) && Inversions(Solved(n), Blank) == 0
    ensures IndexOf(Solved(n), Blank) == n * n - 1
  {
    var t := Solved(n);
    SortedNoInversions(t, Blank);
    SolvedDistinct(n);
    IndexOfDistinct(t, n * n - 1);
  }

  /** The starting arrangement has no inversions and its empty slot in the bottom row,
      so `isSolvable` accepts it. */
  lemma SolvedIsSolvable(n: nat)
    requires n >= 1
    ensures Solvable(Solved(n), n)
  {
    SolvedFacts(n);
    LastRow(n);
    SolvableParity(Solved(n), n);
  }

  /** Exchanging the last two numbered tiles of the starting arrangement (14 and 15 on
      the 4 by 4 board) gives a board `isSolvable` rejects: it has exactly one
      inversion and its empty slot in the bottom row. */
  lemma LastTwoSwappedUnsolvable(n: nat)
    requires n >= 2
    ensures !Solvable(Swap(Solved(n), n * n - 3, n * n - 2), n)
  {
    var t := Solved(n);
    var N := n * n;
    assert N >= 4;
    var t' := Swap(t, N - 3, N - 2);
    var u := t[..N - 3];
    assert t == u + [N - 2, N - 1] + [Blank];
    assert t' == u + [N - 1, N - 2] + [Blank];
    SolvedFacts(n);
    AdjacentSwap(u, N - 2, N - 1, [Blank], Blank);
    assert Inversions(t', Blank) == 1;
    SwapDistinct(t, N - 3, N - 2);
    IndexOfDistinct(t', N - 1);
    LastRow(n);
    assert IndexOf(t', Blank) / n == n - 1;
    SolvableParity(t', n);
    assert !Parity(1, n - 1, n);
  }

  /** Clicks never change whether a board is solvable. */
  lemma {:induction false} PlayPreservesSolvable(s: seq<int>, n: nat, clicks: seq<int>)
    requires n >= 1 && IsArrangement(s, n)
    requires forall k :: 0 <= k < |clicks| ==> 0 <= clicks[k] < |s|
    ensures Solvable(Play(s, n, clicks), n) <==> Solvable(s, n)
    decreases |clicks|
  {
    if clicks != [] {
      StepArrangement(s, n, clicks[0]);
      StepPreservesSolvable(s, n, clicks[0]);
      var s' := Step(s, n, clicks[0]);
      ArrangementFacts(s', n);
      PlayPreservesSolvable(s', n, clicks[1..]);
    }
  }

  lemma {:induction false} PlayArrangement(s: seq<int>, n: nat, clicks: seq<int>)
    requires n >= 1 && IsArrangement(s, n)
    requires forall k :: 0 <= k < |clicks| ==> 0 <= clicks[k] < |s|
    ensures IsArrangement(Play(s, n, clicks), n)
    decreases |clicks|
  {
    if clicks != [] {
      StepArrangement(s, n, clicks[0]);
      var s' := Step(s, n, clicks[0]);
      ArrangementFacts(s', n);
      PlayArrangement(s', n, clicks[1..]);
    }
  }

  /** A board that `isSolvable` rejects can never be completed, whatever is clicked. */
  lemma UnsolvableNeverCompletes(s: seq<int>, n: nat, clicks: seq<int>)
    requires n >= 1 && IsArrangement(s, n) && !Solvable(s, n)
    requires forall k :: 0 <= k < |clicks| ==> 0 <= clicks[k] < |s|
    ensures var r := Play(s, n, clicks); |r| == n * n && !Complete(r, n)
  {
    var r := Play(s, n, clicks);
    PlayArrangement(s, n, clicks);
    ArrangementFacts(r, n);
    PlayPreservesSolvable(s, n, clicks);
    CompleteIsSolved(r, n);
    SolvedIsSolvable(n);
  }

  /** `shufflePuzzle` ends, when some round succeeds, on a rearrangement of the tiles
      that is solvable and not complete. */
  lemma {:induction false} DealResult(s: seq<int>, n: nat, rounds: seq<seq<int>>)
    requires n >= 1 && IsArrangement(s, n)
    requires forall k :: 0 <= k < |rounds| ==> ValidPicks(rounds[k], |s|)
    ensures IsArrangement(Deal(s, n, rounds).0, n)
    ensures var (t, dealt) := Deal(s, n, rounds);
            dealt ==> |t| == n * n && Solvable(t, n) && !Complete(t, n)
    decreases |rounds|
  {
    if rounds != [] {
      var t := Shuffled(s, rounds[0]);
      ShuffledFromPermutes(s, rounds[0], |s| - 1);
      if !(|t| == n * n && Solvable(t, n) && !Complete(t, n)) {
        DealResult(t, n, rounds[1..]);
      }
    }
  }

  // ------------------------------------------------------------------ the game

  /** The page's puzzle state: grid size, the tile array and the move counter. */
  class Puzzle {
    var n: nat
    var tiles: array<int>
    var moveCount: nat

    ghost predicate Valid()
      reads this, tiles
    {
      n >= 1 && tiles.Length == n * n && IsArrangement(tiles[..], n) && Blank in tiles[..]
    }

    /** The page load: `initPuzzle(gridSize)` with no move made. */
    constructor (size: nat)
      requires size >= 1
      ensures Valid() && n == size && tiles[..] == Solved(size) && moveCount == 0
    {
      var a := NewTiles(size);
      assert a[..][size * size - 1] == Blank;
      n, tiles, moveCount := size, a, 0;
    }

    /** `initPuzzle(size)` on a change of difficulty: a fresh solved board. */
    method InitPuzzle(size: nat)
      requires size >= 1
      modifies this
      ensures Valid() && n == size && fresh(tiles) && tiles[..] == Solved(size)
      ensures moveCount == old(moveCount)
    {
      n := size;
      tiles := NewTiles(size);
      assert tiles[..][size * size - 1] == Blank;
    }

    /** `startNewGame`: reset the counter and deal. */
    method StartNewGame(rounds: seq<seq<int>>) returns (dealt: bool)
      requires Valid()
      requires forall k :: 0 <= k < |rounds| ==> ValidPicks(rounds[k], tiles.Length)
      modifies this, tiles
      ensures Valid() && n == old(n) && tiles == old(tiles) && moveCount == 0
      ensures (tiles[..], dealt) == Deal(old(tiles[..]), n, rounds)
    {
      moveCount := 0;
      dealt := ShufflePuzzle(rounds);
    }

    /** `shufflePuzzle`: one Fisher-Yates pass per round of draws, stopping at the first
        board that is solvable and not complete. */
    method ShufflePuzzle(rounds: seq<seq<int>>) returns (dealt: bool)
      requires Valid()
      requires forall k :: 0 <= k < |rounds| ==> ValidPicks(rounds[k], tiles.Length)
      modifies tiles
      ensures Valid()
      ensures (tiles[..], dealt) == Deal(old(tiles[..]), n, rounds)
    {
      ghost var goal := Deal(tiles[..], n, rounds);
      dealt := false;
      var k := 0;
      while k < |rounds| && !dealt
        invariant 0 <= k <= |rounds|
        invariant Valid()
        invariant dealt ==> (tiles[..], dealt) == goal
        invariant !dealt ==> Deal(tiles[..], n, rounds[k..]) == goal
      {
        assert rounds[k..][1..] == rounds[k + 1..];
        ghost var before := tiles[..];
        ShuffledFromPermutes(before, rounds[k], |before| - 1);
        Shuffle(tiles, rounds[k]);
        assert IsArrangement(tiles[..], n);
        ArrangementFacts(tiles[..], n);
        var solvable := IsSolvable();
        var complete := CheckCompletion();
        dealt := solvable && !complete;
        k := k + 1;
      }
      assert !dealt ==> rounds[k..] == [];
    }

    /** `isSolvable(tiles, n)`. */
    method IsSolvable() returns (b: bool)
      requires Valid()
      ensures b == Solvable(tiles[..], n)
    {
      var invCount := CountInversions(tiles, Blank);
      if n % 2 != 0 {
        b := invCount % 2 == 0;
      } else {
        var rowFromBottom := n - IndexOf(tiles[..], Blank) / n;
        if rowFromBottom % 2 == 0 {
          b := invCount % 2 != 0;
        } else {
          b := invCount % 2 == 0;
        }
      }
    }

    /** `checkCompletion`. */
    method CheckCompletion() returns (b: bool)
      requires Valid()
      ensures b == Complete(tiles[..], n)
    {
      var i := 0;
      while i < n * n - 1
        invariant 0 <= i <= n * n - 1
        invariant forall k :: 0 <= k < i ==> tiles[k] == k + 1
      {
        if tiles[i] != i + 1 {
          return false;
        }
        i := i + 1;
      }
      b := tiles[n * n - 1] == Blank;
    }

    /** `moveTile(index)`: slide when the clicked tile touches the empty slot, count the
        move, and report whether the board is now complete. */
    method MoveTile(index: int) returns (completed: bool)
      requires Valid() && 0 <= index < tiles.Length
      modifies this`moveCount, tiles
      ensures Valid() && tiles[..] == Step(old(tiles[..]), n, index)
      ensures Solvable(tiles[..], n) <==> old(Solvable(tiles[..], n))
      ensures var moved := Adjacent(index, IndexOf(old(tiles[..]), Blank), n);
              && (moved <==> tiles[..] != old(tiles[..]))
              && moveCount == old(moveCount) + (if moved then 1 else 0)
              && completed == (moved && Complete(tiles[..], n))
    {
      ArrangementFacts(tiles[..], n);
      StepArrangement(tiles[..], n, index);
      StepMoves(tiles[..], n, index);
      StepPreservesSolvable(tiles[..], n, index);
      var emptyIndex := IndexOf(tiles[..], Blank);
      var row, col := index / n, index % n;
      var emptyRow, emptyCol := emptyIndex / n, emptyIndex % n;
      var isAdjacent := Abs(row - emptyRow) + Abs(col - emptyCol) == 1;
      completed := false;
      if isAdjacent {
        tiles[emptyIndex], tiles[index] := tiles[index], tiles[emptyIndex];
        moveCount := moveCount + 1;
        completed := CheckCompletion();
      }
    }
  }

  /** The loop of `initPuzzle` pushing 1 .. n*n - 1 and then the empty slot. */
  method NewTiles(size: nat) returns (a: array<int>)
    requires size >= 1
    ensures fresh(a) && a[..] == Solved(size)
  {
    a := new int[size * size];
    var i := 0;
    while i < size * size - 1
      invariant 0 <= i <= size * size - 1
      invariant forall k :: 0 <= k < i ==> a[k] == k + 1
    {
      a[i] := i + 1;
      i := i + 1;
    }
    a[size * size - 1] := Blank;
    assert forall k :: 0 <= k < size * size ==> a[k] == Solved(size)[k];
  }
}

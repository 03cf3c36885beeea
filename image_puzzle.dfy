/** The picture sliding puzzle: an n by n board holding the pieces 0 .. n*n - 1 of an
    image, read row by row, where piece n*n - 1 (the bottom-right one) is the empty
    slot. Two parts of the game as written disagree with the sliding-puzzle rules it
    implements; both are modelled as written and corrected, and the game state below
    uses the corrected rules. */
module ImagePuzzle {
  import opened Tiles

  /** The piece that plays the empty slot. */
  function Blank(n: nat): int { n * n - 1 }

  /** `initPuzzle(n)`: every piece in its own place. */
  function Solved(n: nat): (s: seq<int>)
    requires n >= 1
    ensures |s| == n * n
  {
    seq(n * n, i => i)
  }

  ghost predicate IsArrangement(s: seq<int>, n: nat)
    requires n >= 1
  {
    multiset(s) == multiset(Solved(n))
  }

  /** `checkCompletion`. */
  predicate Complete(s: seq<int>, n: nat)
    requires n >= 1 && |s| == n * n
  {
    (forall i :: 0 <= i < n * n - 1 ==> s[i] == i) && s[n * n - 1] == n * n - 1
  }

  /** `isSolvable` as written: the truthiness test `array[i] && array[j]` skips the
      piece 0, a real piece, and counts the empty slot n*n - 1 as the largest piece. */
  predicate SolvableAsWritten(s: seq<int>, n: nat)
    requires n >= 1
  {
    var invCount := Inversions(s, 0);
    var emptyRow := IndexOf(s, Blank(n)) / n;
    if n % 2 == 1 then invCount % 2 == 0 else (invCount + emptyRow) % 2 == 1
  }

  /** `isSolvable` with the count over the pieces only, leaving out the empty slot; the
      parity formula is the one the game uses. */
  predicate Solvable(s: seq<int>, n: nat)
    requires n >= 1
  {
    var invCount := Inversions(s, Blank(n));
    var emptyRow := IndexOf(s, Blank(n)) / n;
    if n % 2 == 1 then invCount % 2 == 0 else (invCount + emptyRow) % 2 == 1
  }

  /** The `validMoves` test of `moveTile` as written: the clicked position is one of
      e - 1, e + 1, e - n, e + n, which also admits e - 1 and e + 1 across the end of
      a row. */
  predicate AdjacentAsWritten(index: int, e: int, n: int)
  {
    index == e - 1 || index == e + 1 || index == e - n || index == e + n
  }

  /** `moveTile(index)` as written. */
  function StepAsWritten(s: seq<int>, n: nat, index: int): seq<int>
    requires n >= 1 && Blank(n) in s && 0 <= index < |s|
  {
    var e := IndexOf(s, Blank(n));
    if AdjacentAsWritten(index, e, n) then Swap(s, e, index) else s
  }

  /** `moveTile(index)` with orthogonal neighbours only. */
  function Step(s: seq<int>, n: nat, index: int): seq<int>
    requires n >= 1 && Blank(n) in s && 0 <= index < |s|
  {
    var e := IndexOf(s, Blank(n));
    if Adjacent(index, e, n) then Swap(s, e, index) else s
  }

  function Play(s: seq<int>, n: nat, clicks: seq<int>): seq<int>
    requires n >= 1 && IsArrangement(s, n)
    requires forall k :: 0 <= k < |clicks| ==> 0 <= clicks[k] < |s|
    decreases |clicks|
  {
    if clicks == [] then s
    else
      StepArrangement(s, n, clicks[0]);
      Play(Step(s, n, clicks[0]), n, clicks[1..])
  }

  /** A run of clicks handled by `moveTile` as written. */
  function PlayAsWritten(s: seq<int>, n: nat, clicks: seq<int>): seq<int>
    requires n >= 1 && IsArrangement(s, n)
    requires forall k :: 0 <= k < |clicks| ==> 0 <= clicks[k] < |s|
    decreases |clicks|
  {
    if clicks == [] then s
    else
      StepArrangement(s, n, clicks[0]);
      PlayAsWritten(StepAsWritten(s, n, clicks[0]), n, clicks[1..])
  }

  /** The do-while of `shufflePuzzle` over the given rounds of draws. */
  function Deal(s: seq<int>, n: nat, rounds: seq<seq<int>>): (seq<int>, bool)
    requires n >= 1
    requires forall k :: 0 <= k < |rounds| ==> ValidPicks(rounds[k], |s|)
    decreases |rounds|
  {
    if rounds == [] then (s, false)
    else
      var t := Shuffled(s, rounds[0]);
      if |t| == n * n && Solvable(t, n) && !Complete(t, n) then (t, true)
      else Deal(t, n, rounds[1..])
  }

  // ------------------------------------------------------------------ lemmas

  lemma SolvedFacts(n: nat)
    requires n >= 1
    ensures Distinct(Solved(n))
    ensures Inversions(Solved(n), Blank(n)) == 0 && Inversions(Solved(n), 0) == 0
    ensures IndexOf(Solved(n), Blank(n)) == n * n - 1
    ensures (n * n - 1) / n == n - 1
  {
    var t := Solved(n);
    SortedNoInversions(t, Blank(n));
    SortedNoInversions(t, 0);
    IndexOfDistinct(t, n * n - 1);
    assert n * n - 1 == (n - 1) * n + (n - 1);
    DivUnique(n * n - 1, n, n - 1, n - 1);
  }

  lemma ArrangementFacts(s: seq<int>, n: nat)
    requires n >= 1 && IsArrangement(s, n)
    ensures |s| == n * n && Distinct(s) && Blank(n) in s
  {
    var t := Solved(n);
    assert |multiset(s)| == |multiset(t)|;
    SolvedFacts(n);
    DistinctPermutation(s, t);
    assert t[n * n - 1] == Blank(n);
    assert Blank(n) in multiset(t);
  }

  /** A board is complete exactly when every piece is in its own place. */
  lemma CompleteIsSolved(s: seq<int>, n: nat)
    requires n >= 1 && |s| == n * n
    ensures Complete(s, n) <==> s == Solved(n)
  {
    if Complete(s, n) {
      assert forall i :: 0 <= i < n * n ==> s[i] == Solved(n)[i];
    }
  }

  lemma StepArrangement(s: seq<int>, n: nat, index: int)
    requires n >= 1 && IsArrangement(s, n) && 0 <= index < |s|
    ensures Blank(n) in s && IsArrangement(Step(s, n, index), n)
    ensures IsArrangement(StepAsWritten(s, n, index), n)
  {
    ArrangementFacts(s, n);
    SwapPermutes(s, IndexOf(s, Blank(n)), index);
  }

  /** A click changes the board exactly when the clicked position passes the
      `validMoves` test. */
  lemma StepAsWrittenMoves(s: seq<int>, n: nat, index: int)
    requires n >= 1 && IsArrangement(s, n) && 0 <= index < |s|
    ensures Blank(n) in s
    ensures StepAsWritten(s, n, index) != s <==> AdjacentAsWritten(index, IndexOf(s, Blank(n)), n)
  {
    ArrangementFacts(s, n);
    var e := IndexOf(s, Blank(n));
    if AdjacentAsWritten(index, e, n) {
      assert Swap(s, e, index)[e] != s[e];
    }
  }

  lemma StepMoves(s: seq<int>, n: nat, index: int)
    requires n >= 1 && IsArrangement(s, n) && 0 <= index < |s|
    ensures Blank(n) in s
    ensures Step(s, n, index) != s <==> Adjacent(index, IndexOf(s, Blank(n)), n)
  {
    ArrangementFacts(s, n);
    var e := IndexOf(s, Blank(n));
    if Adjacent(index, e, n) {
      assert index != e;
      assert Swap(s, e, index)[e] != s[e];
    }
  }

  /** The game's parity formula for an inversion count and the empty slot's row. */
  predicate Parity(inv: int, row: int, n: int)
  {
    if n % 2 == 1 then inv % 2 == 0 else (inv + row) % 2 == 1
  }

  lemma ParityStep(inv: int, inv': int, row: int, row': int, n: int)
    requires n >= 1
    requires row == row' ==> inv' % 2 == inv % 2
    requires row != row' ==> Abs(row - row') == 1 && inv' % 2 == (inv + n - 1) % 2
    ensures Parity(inv', row', n) == Parity(inv, row, n)
  {
  }

  /** With orthogonal moves, the corrected test is an invariant of play. */
  lemma StepPreservesSolvable(s: seq<int>, n: nat, index: int)
    requires n >= 1 && IsArrangement(s, n) && 0 <= index < |s|
    ensures Blank(n) in s && (Solvable(Step(s, n, index), n) <==> Solvable(s, n))
  {
    ArrangementFacts(s, n);
    var b := Blank(n);
    var e := IndexOf(s, b);
    if Adjacent(index, e, n) {
      var s' := Swap(s, e, index);
      var inv, inv', row, row' := Inversions(s, b), Inversions(s', b), e / n, index / n;
      assert Parity(inv', row', n) == Parity(inv, row, n) by {
        AdjacentCases(index, e, n);
        SlideParity(s, e, index, b);
        ParityByRow(inv, inv', Abs(index - e), n, row' == row);
        ParityStep(inv, inv', row, row', n);
      }
      SlideBlank(s, e, index, b);
      assert Solvable(s', n) == Parity(inv', row', n);
    }
  }

  /** The finished picture passes both tests. */
  lemma SolvedIsSolvable(n: nat)
    requires n >= 1
    ensures Solvable(Solved(n), n) && SolvableAsWritten(Solved(n), n)
  {
    SolvedFacts(n);
  }

  lemma {:induction false} PlayFacts(s: seq<int>, n: nat, clicks: seq<int>)
    requires n >= 1 && IsArrangement(s, n)
    requires forall k :: 0 <= k < |clicks| ==> 0 <= clicks[k] < |s|
    ensures IsArrangement(Play(s, n, clicks), n)
    ensures Solvable(Play(s, n, clicks), n) <==> Solvable(s, n)
    decreases |clicks|
  {
    if clicks != [] {
      StepArrangement(s, n, clicks[0]);
      StepPreservesSolvable(s, n, clicks[0]);
      var s' := Step(s, n, clicks[0]);
      ArrangementFacts(s', n);
      PlayFacts(s', n, clicks[1..]);
    }
  }

  /** A board the corrected test rejects can never be completed by orthogonal moves. */
  lemma UnsolvableNeverCompletes(s: seq<int>, n: nat, clicks: seq<int>)
    requires n >= 1 && IsArrangement(s, n) && !Solvable(s, n)
    requires forall k :: 0 <= k < |clicks| ==> 0 <= clicks[k] < |s|
    ensures var r := Play(s, n, clicks); |r| == n * n && !Complete(r, n)
  {
    var r := Play(s, n, clicks);
    PlayFacts(s, n, clicks);
    ArrangementFacts(r, n);
    CompleteIsSolved(r, n);
    SolvedIsSolvable(n);
  }

  /** On a board of odd side every move the written test admits, the wrapping ones
      included, carries the empty slot 1 or n places, and n - 1 is even, so the parity
      of the piece inversions is kept: for odd n the corrected test is an invariant of
      play as written too. */
  lemma StepAsWrittenPreservesSolvableOdd(s: seq<int>, n: nat, index: int)
    requires n >= 1 && n % 2 == 1 && IsArrangement(s, n) && 0 <= index < |s|
    ensures Blank(n) in s && (Solvable(StepAsWritten(s, n, index), n) <==> Solvable(s, n))
  {
    ArrangementFacts(s, n);
    var b := Blank(n);
    var e := IndexOf(s, b);
    if AdjacentAsWritten(index, e, n) {
      var s' := Swap(s, e, index);
      var inv, inv' := Inversions(s, b), Inversions(s', b);
      assert inv' % 2 == inv % 2 by {
        SlideParity(s, e, index, b);
        OddSlideParity(inv, inv', Abs(index - e), n);
      }
    }
  }

  lemma OddSlideParity(inv: int, inv': int, d: int, n: int)
    requires n % 2 == 1 && (d == 1 || d == n)
    requires inv' % 2 == (inv + d - 1) % 2
    ensures inv' % 2 == inv % 2
  {
  }

  lemma {:induction false} PlayAsWrittenFactsOdd(s: seq<int>, n: nat, clicks: seq<int>)
    requires n >= 1 && n % 2 == 1 && IsArrangement(s, n)
    requires forall k :: 0 <= k < |clicks| ==> 0 <= clicks[k] < |s|
    ensures IsArrangement(PlayAsWritten(s, n, clicks), n)
    ensures Solvable(PlayAsWritten(s, n, clicks), n) <==> Solvable(s, n)
    decreases |clicks|
  {
    if clicks != [] {
      StepArrangement(s, n, clicks[0]);
      StepAsWrittenPreservesSolvableOdd(s, n, clicks[0]);
      var s' := StepAsWritten(s, n, clicks[0]);
      ArrangementFacts(s', n);
      PlayAsWrittenFactsOdd(s', n, clicks[1..]);
    }
  }

  /** On a board of odd side, one the corrected test rejects is never completed by
      the game's own clicks either. */
  lemma UnsolvableNeverCompletesAsWrittenOdd(s: seq<int>, n: nat, clicks: seq<int>)
    requires n >= 1 && n % 2 == 1 && IsArrangement(s, n) && !Solvable(s, n)
    requires forall k :: 0 <= k < |clicks| ==> 0 <= clicks[k] < |s|
    ensures var r := PlayAsWritten(s, n, clicks); |r| == n * n && !Complete(r, n)
  {
    var r := PlayAsWritten(s, n, clicks);
    PlayAsWrittenFactsOdd(s, n, clicks);
    ArrangementFacts(r, n);
    CompleteIsSolved(r, n);
    SolvedIsSolvable(n);
  }

  lemma {:induction false} DealResult(s: seq<int>, n: nat, rounds: seq<seq<int>>)
    requires n >= 1 && IsArrangement(s, n)
    requires forall k :: 0 <= k < |rounds| ==> ValidPicks(rounds[k], |s|)
    ensures IsArrangement(Deal(s, n, rounds).0, n)
    ensures var (t, dealt) := Deal(s, n, rounds);
            dealt ==> |t| == n * n && Solvable(t, n) && !Complete(t, n)
    decreases |rounds|
  {
    if rounds != [] {
      var t := Shuffled(s, rounds[0]);
      ShuffledFromPermutes(s, rounds[0], |s| - 1);
      if !(|t| == n * n && Solvable(t, n) && !Complete(t, n)) {
        DealResult(t, n, rounds[1..]);
      }
    }
  }

  // ------------------------------------------------- where the game as written errs

  lemma Board0132()
    ensures Inversions([0, 1, 3, 2], 0) == 1 && Inversions([0, 1, 3, 2], 3) == 0
    ensures IndexOf([0, 1, 3, 2], 3) == 2
  {
    assert [0, 1, 3, 2][1..] == [1, 3, 2] && [1, 3, 2][1..] == [3, 2] && [3, 2][1..] == [2];
  }

  lemma Board0312()
    ensures Inversions([0, 3, 1, 2], 3) == 0 && IndexOf([0, 3, 1, 2], 3) == 1
  {
    assert [0, 3, 1, 2][1..] == [3, 1, 2] && [3, 1, 2][1..] == [1, 2] && [1, 2][1..] == [2];
  }

  lemma SlideFromSolved2()
    ensures Solved(2) == [0, 1, 2, 3] && Step([0, 1, 2, 3], 2, 2) == [0, 1, 3, 2]
  {
    assert Solved(2) == [0, 1, 2, 3];
    assert IndexOf([0, 1, 2, 3], 3) == 3;
    assert Adjacent(2, 3, 2);
  }

  lemma Board0132Rejected()
    ensures !SolvableAsWritten([0, 1, 3, 2], 2)
  {
    Board0132();
  }

  lemma Board0132Solvable()
    ensures Solvable([0, 1, 3, 2], 2)
  {
    Board0132();
  }

  /** One legal move from the finished 2 by 2 picture (piece 2 slides right) reaches a
      board that `isSolvable` as written rejects, although the corrected test accepts
      it: skipping piece 0 and counting the empty slot miscounts. */
  lemma AsWrittenRejectsReachable()
    ensures Solved(2) == [0, 1, 2, 3] && Step(Solved(2), 2, 2) == [0, 1, 3, 2]
    ensures !SolvableAsWritten([0, 1, 3, 2], 2) && Solvable([0, 1, 3, 2], 2)
  {
    SlideFromSolved2();
    Board0132Rejected();
    Board0132Solvable();
  }

  /** The 3 by 3 picture with its first two pieces exchanged. */
  function CornerSwapped3(): seq<int>
  {
    [1, 0, 2, 3, 4, 5, 6, 7, 8]
  }

  lemma CornerSwapped3Counts()
    ensures Inversions(CornerSwapped3(), 0) == 0 && Inversions(CornerSwapped3(), Blank(3)) == 1
  {
    var s := CornerSwapped3();
    var t := s[2..];
    assert s[1..] == [0] + t;
    assert Inversions(t, 0) == 0 && Inversions(t, 8) == 0 by {
      SortedNoInversions(t, 0);
      SortedNoInversions(t, 8);
    }
    AboveNone(0, t, 0);
    AboveNone(0, t, 8);
    AboveNone(1, t, 0);
    AboveNone(1, t, 8);
  }

  lemma CornerSwapped3Arrangement()
    ensures IsArrangement(CornerSwapped3(), 3) && !Complete(CornerSwapped3(), 3)
  {
    SwapPermutes(Solved(3), 0, 1);
    assert Swap(Solved(3), 0, 1) == CornerSwapped3();
    assert CornerSwapped3()[0] != 0;
  }

  /** `isSolvable` as written accepts the 3 by 3 board [1, 0, 2, 3, 4, 5, 6, 7, 8],
      which is not complete, and no sequence of clicks handled by `moveTile` as
      written, the wrapping moves included, ever completes it. */
  lemma AsWrittenAcceptsUnsolvable(clicks: seq<int>)
    requires forall k :: 0 <= k < |clicks| ==> 0 <= clicks[k] < 9
    ensures IsArrangement(CornerSwapped3(), 3)
    ensures SolvableAsWritten(CornerSwapped3(), 3) && !Solvable(CornerSwapped3(), 3)
    ensures !Complete(CornerSwapped3(), 3)
    ensures var r := PlayAsWritten(CornerSwapped3(), 3, clicks); |r| == 9 && !Complete(r, 3)
  {
    CornerSwapped3Arrangement();
    CornerSwapped3Counts();
    UnsolvableNeverCompletesAsWrittenOdd(CornerSwapped3(), 3, clicks);
  }

  /** On the 3 by 3 board the written test lets the piece at the end of the first row
      (index 2) swap with an empty slot at the start of the second row (index 3),
      which are not neighbours. */
  lemma WrapMoveAccepted()
    ensures AdjacentAsWritten(2, 3, 3) && !Adjacent(2, 3, 3)
  {
    assert 2 / 3 == 0 && 2 % 3 == 2 && 3 / 3 == 1 && 3 % 3 == 0;
  }

  lemma WrapStep()
    ensures StepAsWritten([0, 1, 3, 2], 2, 1) == [0, 3, 1, 2]
  {
    Board0132();
  }

  lemma Board0312Unsolvable()
    ensures !Solvable([0, 3, 1, 2], 2)
  {
    Board0312();
  }

  /** On a board of even side such a wrapping move takes a board the corrected test
      accepts to one it rejects, so with the moves as written the test's answer is no
      invariant of play there. */
  lemma WrapMoveBreaksInvariant()
    ensures Solvable([0, 1, 3, 2], 2)
    ensures StepAsWritten([0, 1, 3, 2], 2, 1) == [0, 3, 1, 2]
    ensures !Solvable([0, 3, 1, 2], 2)
  {
    Board0132Solvable();
    WrapStep();
    Board0312Unsolvable();
  }

  // ------------------------------------------------------------------ the game

  /** The page's puzzle state, playing by the corrected rules. */
  class Puzzle {
    var n: nat
    var tiles: array<int>
    var moveCount: nat

    ghost predicate Valid()
      reads this, tiles
    {
      n >= 1 && tiles.Length == n * n && IsArrangement(tiles[..], n) && Blank(n) in tiles[..]
    }

    /** The page load: `initPuzzle(gridSize)` with no move made. */
    constructor (size: nat)
      requires size >= 1
      ensures Valid() && n == size && tiles[..] == Solved(size) && moveCount == 0
    {
      var a := NewTiles(size);
      assert a[..][size * size - 1] == Blank(size);
      n, tiles, moveCount := size, a, 0;
    }

    /** `initPuzzle(size)` for a new size or a new picture. */
    method InitPuzzle(size: nat)
      requires size >= 1
      modifies this
      ensures Valid() && n == size && fresh(tiles) && tiles[..] == Solved(size)
      ensures moveCount == old(moveCount)
    {
      n := size;
      tiles := NewTiles(size);
      assert tiles[..][size * size - 1] == Blank(size);
    }

    /** `startGame`: reset the counter and deal. */
    method StartGame(rounds: seq<seq<int>>) returns (dealt: bool)
      requires Valid()
      requires forall k :: 0 <= k < |rounds| ==> ValidPicks(rounds[k], tiles.Length)
      modifies this, tiles
      ensures Valid() && n == old(n) && tiles == old(tiles) && moveCount == 0
      ensures (tiles[..], dealt) == Deal(old(tiles[..]), n, rounds)
    {
      moveCount := 0;
      dealt := ShufflePuzzle(rounds);
    }

    /** `shufflePuzzle`, one Fisher-Yates pass per round of draws. */
    method ShufflePuzzle(rounds: seq<seq<int>>) returns (dealt: bool)
      requires Valid()
      requires forall k :: 0 <= k < |rounds| ==> ValidPicks(rounds[k], tiles.Length)
      modifies tiles
      ensures Valid()
      ensures (tiles[..], dealt) == Deal(old(tiles[..]), n, rounds)
    {
      ghost var goal := Deal(tiles[..], n, rounds);
      dealt := false;
      var k := 0;
      while k < |rounds| && !dealt
        invariant 0 <= k <= |rounds|
        invariant Valid()
        invariant dealt ==> (tiles[..], dealt) == goal
        invariant !dealt ==> Deal(tiles[..], n, rounds[k..]) == goal
      {
        assert rounds[k..][1..] == rounds[k + 1..];
        ghost var before := tiles[..];
        ShuffledFromPermutes(before, rounds[k], |before| - 1);
        Shuffle(tiles, rounds[k]);
        assert IsArrangement(tiles[..], n);
        ArrangementFacts(tiles[..], n);
        var solvable := IsSolvable();
        var complete := CheckCompletion();
        dealt := solvable && !complete;
        k := k + 1;
      }
      assert !dealt ==> rounds[k..] == [];
    }

    /** `isSolvable(tiles, n)`, counting inversions among the pieces only. */
    method IsSolvable() returns (b: bool)
      requires Valid()
      ensures b == Solvable(tiles[..], n)
    {
      var invCount := CountInversions(tiles, n * n - 1);
      var emptyRow := IndexOf(tiles[..], n * n - 1) / n;
      if n % 2 == 1 {
        b := invCount % 2 == 0;
      } else {
        b := (invCount + emptyRow) % 2 == 1;
      }
    }

    /** `checkCompletion`. */
    method CheckCompletion() returns (b: bool)
      requires Valid()
      ensures b == Complete(tiles[..], n)
    {
      var i := 0;
      while i < n * n - 1
        invariant 0 <= i <= n * n - 1
        invariant forall k :: 0 <= k < i ==> tiles[k] == k
      {
        if tiles[i] != i {
          return false;
        }
        i := i + 1;
      }
      b := tiles[n * n - 1] == n * n - 1;
    }

    /** `moveTile(index)` with orthogonal neighbours only. */
    method MoveTile(index: int) returns (completed: bool)
      requires Valid() && 0 <= index < tiles.Length
      modifies this`moveCount, tiles
      ensures Valid() && tiles[..] == Step(old(tiles[..]), n, index)
      ensures Solvable(tiles[..], n) <==> old(Solvable(tiles[..], n))
      ensures var moved := Adjacent(index, IndexOf(old(tiles[..]), Blank(n)), n);
              && (moved <==> tiles[..] != old(tiles[..]))
              && moveCount == old(moveCount) + (if moved then 1 else 0)
              && completed == (moved && Complete(tiles[..], n))
    {
      ArrangementFacts(tiles[..], n);
      StepArrangement(tiles[..], n, index);
      StepMoves(tiles[..], n, index);
      StepPreservesSolvable(tiles[..], n, index);
      var emptyIndex := IndexOf(tiles[..], n * n - 1);
      completed := false;
      if Abs(index / n - emptyIndex / n) + Abs(index % n - emptyIndex % n) == 1 {
        tiles[emptyIndex], tiles[index] := tiles[index], tiles[emptyIndex];
        moveCount := moveCount + 1;
        completed := CheckCompletion();
      }
    }
  }

  /** The loop of `initPuzzle` pushing 0 .. n*n - 1. */
  method NewTiles(size: nat) returns (a: array<int>)
    requires size >= 1
    ensures fresh(a) && a[..] == Solved(size)
  {
    a := new int[size * size];
    var i := 0;
    while i < size * size
      invariant 0 <= i <= size * size
      invariant forall k :: 0 <= k < i ==> a[k] == k
    {
      a[i] := i;
      i := i + 1;
    }
    assert forall k :: 0 <= k < size * size ==> a[k] == Solved(size)[k];
  }
}

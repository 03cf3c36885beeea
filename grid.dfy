/** Rectangular boards shared by the grid games: a board is a sequence of rows,
    a cell is written by rebuilding its row, and cells satisfying a property are counted. */
module Grid {

  type Board<T> = seq<seq<T>>

  /** `b` has exactly `rows` rows of `cols` cells each. */
  predicate IsGrid<T>(b: Board<T>, rows: nat, cols: nat)
  {
    |b| == rows && forall i :: 0 <= i < rows ==> |b[i]| == cols
  }

  predicate InBounds(rows: int, cols: int, r: int, c: int)
  {
    0 <= r < rows && 0 <= c < cols
  }

  /** The eight neighbouring directions as (row step, column step), in the order the
      games scan them: the row above left to right, the same row, the row below. */
  const Directions: seq<(int, int)> :=
    [(-1, -1), (-1, 0), (-1, 1), (0, -1), (0, 1), (1, -1), (1, 0), (1, 1)]

  predicate IsDir(d: (int, int))
  {
    -1 <= d.0 <= 1 && -1 <= d.1 <= 1 && d != (0, 0)
  }

  lemma DirectionsAreDirs()
    ensures |Directions| == 8
    ensures forall i :: 0 <= i < 8 ==> IsDir(Directions[i])
  {
  }

  /** A `rows` by `cols` board with every cell set to `v`. */
  function Fill<T>(rows: nat, cols: nat, v: T): (b: Board<T>)
    ensures IsGrid(b, rows, cols)
    ensures forall i, j :: 0 <= i < rows && 0 <= j < cols ==> b[i][j] == v
  {
    seq(rows, _ => seq(cols, _ => v))
  }

  /** The board with cell (r, c) replaced by `v`; every other cell keeps its value. */
  function Set<T>(b: Board<T>, r: int, c: int, v: T): (b': Board<T>)
    requires 0 <= r < |b| && 0 <= c < |b[r]|
    ensures |b'| == |b| && forall i :: 0 <= i < |b| ==> |b'[i]| == |b[i]|
    ensures b'[r][c] == v
    ensures forall i, j :: 0 <= i < |b| && 0 <= j < |b[i]| && (i, j) != (r, c) ==> b'[i][j] == b[i][j]
  {
    b[r := b[r][c := v]]
  }

  /** Number of cells of `row` satisfying `f`. */
  function CountRow<T>(row: seq<T>, f: T -> bool): nat
  {
    if row == [] then 0 else (if f(row[0]) then 1 else 0) + CountRow(row[1..], f)
  }

  /** Number of cells of `b` satisfying `f`. */
  function Count<T>(b: Board<T>, f: T -> bool): nat
  {
    if b == [] then 0 else CountRow(b[0], f) + Count(b[1..], f)
  }

  lemma {:induction false} CountRowUpdate<T>(row: seq<T>, c: int, v: T, f: T -> bool)
    requires 0 <= c < |row|
    ensures CountRow(row[c := v], f) + (if f(row[c]) then 1 else 0)
         == CountRow(row, f) + (if f(v) then 1 else 0)
  {
    if c > 0 {
      assert row[c := v][1..] == row[1..][c - 1 := v];
      CountRowUpdate(row[1..], c - 1, v, f);
    } else {
      assert row[c := v][1..] == row[1..];
    }
  }

  /** Writing one cell changes the count by what leaves and what enters that cell. */
  lemma {:induction false} CountSet<T>(b: Board<T>, r: int, c: int, v: T, f: T -> bool)
    requires 0 <= r < |b| && 0 <= c < |b[r]|
    ensures Count(Set(b, r, c, v), f) + (if f(b[r][c]) then 1 else 0)
         == Count(b, f) + (if f(v) then 1 else 0)
  {
    var b' := Set(b, r, c, v);
    if r == 0 {
      assert b'[1..] == b[1..];
      CountRowUpdate(b[0], c, v, f);
    } else {
      assert b'[1..] == Set(b[1..], r - 1, c, v);
      CountSet(b[1..], r - 1, c, v, f);
    }
  }

  lemma {:induction false} CountRowBound<T>(row: seq<T>, f: T -> bool)
    ensures CountRow(row, f) <= |row|
    ensures CountRow(row, f) == |row| <==> forall j :: 0 <= j < |row| ==> f(row[j])
    ensures CountRow(row, f) == 0 <==> forall j :: 0 <= j < |row| ==> !f(row[j])
  {
    if row != [] {
      CountRowBound(row[1..], f);
      assert forall j :: 1 <= j < |row| ==> row[j] == row[1..][j - 1];
    }
  }

  /** A board holds at most rows * cols cells satisfying `f`, with equality exactly
      when every cell satisfies it, and none exactly when no cell does. */
  lemma {:induction false} CountBound<T>(b: Board<T>, rows: nat, cols: nat, f: T -> bool)
    requires IsGrid(b, rows, cols)
    ensures Count(b, f) <= rows * cols
    ensures Count(b, f) == rows * cols <==> forall i, j :: 0 <= i < rows && 0 <= j < cols ==> f(b[i][j])
    ensures Count(b, f) == 0 <==> forall i, j :: 0 <= i < rows && 0 <= j < cols ==> !f(b[i][j])
  {
    if rows > 0 {
      CountRowBound(b[0], f);
      CountBound(b[1..], rows - 1, cols, f);
      assert forall i :: 1 <= i < rows ==> b[i] == b[1..][i - 1];
      assert (rows - 1) * cols + cols == rows * cols;
    }
  }

  lemma {:induction false} CountRowMono<T>(row: seq<T>, f: T -> bool, g: T -> bool)
    requires forall j :: 0 <= j < |row| ==> f(row[j]) ==> g(row[j])
    ensures CountRow(row, f) <= CountRow(row, g)
    ensures CountRow(row, f) == CountRow(row, g) ==> forall j :: 0 <= j < |row| ==> g(row[j]) ==> f(row[j])
  {
    if row != [] {
      assert forall j :: 1 <= j < |row| ==> row[j] == row[1..][j - 1];
      CountRowMono(row[1..], f, g);
    }
  }

  /** When `f` implies `g` on every cell, `f` counts no more cells than `g`, and the
      counts agree only if `g` implies `f` on every cell too. */
  lemma {:induction false} CountMono<T>(b: Board<T>, f: T -> bool, g: T -> bool)
    requires forall i, j :: 0 <= i < |b| && 0 <= j < |b[i]| ==> f(b[i][j]) ==> g(b[i][j])
    ensures Count(b, f) <= Count(b, g)
    ensures Count(b, f) == Count(b, g) ==>
              forall i, j :: 0 <= i < |b| && 0 <= j < |b[i]| ==> g(b[i][j]) ==> f(b[i][j])
  {
    if b != [] {
      assert forall i :: 1 <= i < |b| ==> b[i] == b[1..][i - 1];
      CountRowMono(b[0], f, g);
      CountMono(b[1..], f, g);
    }
  }

  lemma {:induction false} CountRowSum<T>(row: seq<T>, f: T -> bool, g: T -> bool, h: T -> bool)
    requires forall j :: 0 <= j < |row| ==> (h(row[j]) <==> f(row[j]) || g(row[j])) && !(f(row[j]) && g(row[j]))
    ensures CountRow(row, h) == CountRow(row, f) + CountRow(row, g)
  {
    if row != [] {
      assert forall j :: 1 <= j < |row| ==> row[j] == row[1..][j - 1];
      CountRowSum(row[1..], f, g, h);
    }
  }

  /** Counting cells of a disjoint union of two properties adds their counts. */
  lemma {:induction false} CountSum<T>(b: Board<T>, f: T -> bool, g: T -> bool, h: T -> bool)
    requires forall i, j :: 0 <= i < |b| && 0 <= j < |b[i]| ==>
               (h(b[i][j]) <==> f(b[i][j]) || g(b[i][j])) && !(f(b[i][j]) && g(b[i][j]))
    ensures Count(b, h) == Count(b, f) + Count(b, g)
  {
    if b != [] {
      assert forall i :: 1 <= i < |b| ==> b[i] == b[1..][i - 1];
      CountRowSum(b[0], f, g, h);
      CountSum(b[1..], f, g, h);
    }
  }

  lemma {:induction false} CountRowAppend<T>(a: seq<T>, b: seq<T>, f: T -> bool)
    ensures CountRow(a + b, f) == CountRow(a, f) + CountRow(b, f)
  {
    if a == [] {
      assert a + b == b;
    } else {
      assert (a + b)[1..] == a[1..] + b;
      CountRowAppend(a[1..], b, f);
    }
  }

  lemma {:induction false} CountAppend<T>(a: Board<T>, b: Board<T>, f: T -> bool)
    ensures Count(a + b, f) == Count(a, f) + Count(b, f)
  {
    if a == [] {
      assert a + b == b;
    } else {
      assert (a + b)[1..] == a[1..] + b;
      CountAppend(a[1..], b, f);
    }
  }

  /** The count over the first j + 1 cells of a row, as a left-to-right loop builds it. */
  lemma CountRowPrefix<T>(row: seq<T>, j: int, f: T -> bool)
    requires 0 <= j < |row|
    ensures CountRow(row[..j + 1], f) == CountRow(row[..j], f) + (if f(row[j]) then 1 else 0)
  {
    assert row[..j + 1] == row[..j] + [row[j]];
    CountRowAppend(row[..j], [row[j]], f);
    assert [row[j]][1..] == [];
  }

  /** The count over the first i + 1 rows, as a top-to-bottom loop builds it. */
  lemma CountPrefix<T>(b: Board<T>, i: int, f: T -> bool)
    requires 0 <= i < |b|
    ensures Count(b[..i + 1], f) == Count(b[..i], f) + CountRow(b[i], f)
  {
    assert b[..i + 1] == b[..i] + [b[i]];
    CountAppend(b[..i], [b[i]], f);
    assert [b[i]][1..] == [];
  }
}

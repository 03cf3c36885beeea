/** What the two sliding-tile puzzles share: the tile array as a sequence of numbers,
    the Fisher-Yates shuffle, `indexOf`, the inversion count behind the solvability
    test, and the parity facts that make that test an invariant of sliding moves. */
module Tiles {

  function Abs(x: int): nat { if x < 0 then -x else x }

  /** `s` with the entries at `i` and `j` exchanged (the destructuring swap of the game). */
  function Swap(s: seq<int>, i: int, j: int): (r: seq<int>)
    requires 0 <= i < |s| && 0 <= j < |s|
    ensures |r| == |s| && r[i] == s[j] && r[j] == s[i]
    ensures forall k :: 0 <= k < |s| && k != i && k != j ==> r[k] == s[k]
  {
    s[i := s[j]][j := s[i]]
  }

  /** Exchanging two entries is a permutation. */
  lemma SwapPermutes(s: seq<int>, i: int, j: int)
    requires 0 <= i < |s| && 0 <= j < |s|
    ensures multiset(Swap(s, i, j)) == multiset(s)
  {
  }

  /** `Array.prototype.indexOf`: the first position holding `x`, or -1. */
  function IndexOf(s: seq<int>, x: int): (k: int)
    ensures -1 <= k < |s|
    ensures k >= 0 ==> s[k] == x && forall i :: 0 <= i < k ==> s[i] != x
    ensures k == -1 <==> x !in s
  {
    if s == [] then -1
    else if s[0] == x then 0
    else
      var k := IndexOf(s[1..], x);
      assert forall i :: 1 <= i < |s| ==> s[i] == s[1..][i - 1];
      if k < 0 then -1 else k + 1
  }

  predicate Distinct(s: seq<int>)
  {
    forall i, j :: 0 <= i < j < |s| ==> s[i] != s[j]
  }

  lemma {:induction false} DistinctMultiplicity(t: seq<int>, x: int)
    requires Distinct(t)
    ensures multiset(t)[x] <= 1
  {
    if t != [] {
      assert t == [t[0]] + t[1..];
      assert Distinct(t[1..]) by {
        forall i, j | 0 <= i < j < |t[1..]| ensures t[1..][i] != t[1..][j] {
          assert t[1..][i] == t[i + 1] && t[1..][j] == t[j + 1];
        }
      }
      DistinctMultiplicity(t[1..], x);
      if t[0] == x {
        assert x !in t[1..] by {
          forall k | 0 <= k < |t[1..]| ensures t[1..][k] != x { assert t[1..][k] == t[k + 1]; }
        }
      }
    }
  }

  /** A rearrangement of a sequence without repeated entries has none either. */
  lemma DistinctPermutation(s: seq<int>, t: seq<int>)
    requires multiset(s) == multiset(t) && Distinct(t)
    ensures Distinct(s)
  {
    forall i, j | 0 <= i < j < |s| ensures s[i] != s[j] {
      if s[i] == s[j] {
        var x := s[i];
        assert s == s[..i] + [s[i]] + s[i + 1..j] + [s[j]] + s[j + 1..];
        assert multiset(s)[x] >= 2;
        DistinctMultiplicity(t, x);
        assert false;
      }
    }
  }

  // ---------------------------------------------------------------- the shuffle

  /** The random draws one pass of `shuffle` makes: at step i (from the last index down
      to 1) `Math.floor(Math.random() * (i + 1))`, a position in 0 .. i. */
  predicate ValidPicks(picks: seq<int>, len: nat)
  {
    |picks| == len && forall i :: 0 < i < len ==> 0 <= picks[i] <= i
  }

  /** The Fisher-Yates passes for positions i down to 1. */
  function ShuffledFrom(s: seq<int>, picks: seq<int>, i: int): (r: seq<int>)
    requires ValidPicks(picks, |s|) && i < |s|
    ensures |r| == |s|
    decreases i
  {
    if i <= 0 then s else ShuffledFrom(Swap(s, i, picks[i]), picks, i - 1)
  }

  /** Each pass only exchanges two entries, so the shuffle is a permutation. */
  lemma {:induction false} ShuffledFromPermutes(s: seq<int>, picks: seq<int>, i: int)
    requires ValidPicks(picks, |s|) && i < |s|
    ensures multiset(ShuffledFrom(s, picks, i)) == multiset(s)
    decreases i
  {
    if i > 0 {
      var t := Swap(s, i, picks[i]);
      assert ShuffledFrom(s, picks, i) == ShuffledFrom(t, picks, i - 1);
      SwapPermutes(s, i, picks[i]);
      ShuffledFromPermutes(t, picks, i - 1);
    } else {
      assert ShuffledFrom(s, picks, i) == s;
    }
  }

  function Shuffled(s: seq<int>, picks: seq<int>): seq<int>
    requires ValidPicks(picks, |s|)
  {
    ShuffledFrom(s, picks, |s| - 1)
  }

  /** `shuffle(array)`: the in-place Fisher-Yates shuffle driven by `picks`. */
  method Shuffle(a: array<int>, picks: seq<int>)
    requires ValidPicks(picks, a.Length)
    modifies a
    ensures a[..] == Shuffled(old(a[..]), picks)
  {
    ghost var goal := Shuffled(a[..], picks);
    var i := a.Length - 1;
    while i > 0
      invariant -1 <= i < a.Length
      invariant ShuffledFrom(a[..], picks, i) == goal
    {
      var j := picks[i];
      ghost var before := a[..];
      var t := a[i];
      a[i] := a[j];
      a[j] := t;
      SwapExtensional(before, a[..], i, j);
      i := i - 1;
    }
  }

  /** Swap is determined by the three facts its contract lists. */
  lemma SwapExtensional(before: seq<int>, after: seq<int>, i: int, j: int)
    requires 0 <= i < |before| && 0 <= j < |before| && |after| == |before|
    requires after[i] == before[j] && after[j] == before[i]
    requires forall k :: 0 <= k < |before| && k != i && k != j ==> after[k] == before[k]
    ensures after == Swap(before, i, j)
  {
  }

  // ---------------------------------------------------------- inversion count

  /** 1 when (x, y) is a counted out-of-order pair: neither is `skip` and x > y. The
      games test `array[i] && array[j] && array[i] > array[j]`, so `skip` is the one
      falsy value a tile array can hold. */
  function Gt(x: int, y: int, skip: int): nat
  {
    if x != skip && y != skip && x > y then 1 else 0
  }

  /** Number of later entries `t` that `x` forms a counted pair with. */
  function Above(x: int, t: seq<int>, skip: int): nat
  {
    if t == [] then 0 else Gt(x, t[0], skip) + Above(x, t[1..], skip)
  }

  /** Number of pairs i < j of `s` with s[i] > s[j], neither of them `skip`. */
  function Inversions(s: seq<int>, skip: int): nat
  {
    if s == [] then 0 else Above(s[0], s[1..], skip) + Inversions(s[1..], skip)
  }

  /** The nested loop of `isSolvable` that accumulates `invCount`. */
  method CountInversions(a: array<int>, skip: int) returns (count: nat)
    ensures count == Inversions(a[..], skip)
  {
    count := 0;
    var i := 0;
    while i < a.Length - 1
      invariant 0 <= i <= a.Length
      invariant count + Inversions(a[i..], skip) == Inversions(a[..], skip)
    {
      assert a[i..][1..] == a[i + 1..];
      var j := i + 1;
      while j < a.Length
        invariant i + 1 <= j <= a.Length
        invariant count + Above(a[i], a[j..], skip) + Inversions(a[i + 1..], skip) == Inversions(a[..], skip)
      {
        assert a[j..][1..] == a[j + 1..];
        if a[i] != skip && a[j] != skip && a[i] > a[j] {
          count := count + 1;
        }
        j := j + 1;
      }
      i := i + 1;
    }
    assert a[..] == a[0..];
  }

  lemma {:induction false} AboveAppend(x: int, p: seq<int>, q: seq<int>, skip: int)
    ensures Above(x, p + q, skip) == Above(x, p, skip) + Above(x, q, skip)
  {
    if p != [] {
      assert (p + q)[1..] == p[1..] + q;
      AboveAppend(x, p[1..], q, skip);
    } else {
      assert p + q == q;
    }
  }

  lemma AdjacentSwapHead(y: int, z: int, c: seq<int>, skip: int)
    ensures Inversions([z, y] + c, skip) + Gt(y, z, skip) == Inversions([y, z] + c, skip) + Gt(z, y, skip)
  {
    assert ([y, z] + c)[1..] == [z] + c && ([z] + c)[1..] == c;
    assert ([z, y] + c)[1..] == [y] + c && ([y] + c)[1..] == c;
  }

  /** Exchanging two neighbouring entries y, z changes the count by exactly the pair
      (y, z) itself: +1 if it becomes out of order, -1 if it stops being so. */
  lemma {:induction false} AdjacentSwap(u: seq<int>, y: int, z: int, c: seq<int>, skip: int)
    ensures Inversions(u + [z, y] + c, skip) + Gt(y, z, skip) == Inversions(u + [y, z] + c, skip) + Gt(z, y, skip)
  {
    if u == [] {
      assert u + [y, z] + c == [y, z] + c && u + [z, y] + c == [z, y] + c;
      AdjacentSwapHead(y, z, c, skip);
    } else {
      var h, t, a, a' := u[0], u[1..], [y, z] + c, [z, y] + c;
      assert u + [y, z] + c == [h] + (t + a) && ([h] + (t + a))[1..] == t + a;
      assert u + [z, y] + c == [h] + (t + a') && ([h] + (t + a'))[1..] == t + a';
      assert Above(h, t + a, skip) == Above(h, t + a', skip) by {
        AboveAppend(h, t, a, skip);
        AboveAppend(h, t, a', skip);
        AboveSwapHead(h, y, z, c, skip);
      }
      assert t + [y, z] + c == t + a && t + [z, y] + c == t + a';
      AdjacentSwap(t, y, z, c, skip);
    }
  }

  lemma AboveSwapHead(h: int, y: int, z: int, c: seq<int>, skip: int)
    ensures Above(h, [y, z] + c, skip) == Above(h, [z, y] + c, skip)
  {
    assert ([y, z] + c)[1..] == [z] + c && ([z] + c)[1..] == c;
    assert ([z, y] + c)[1..] == [y] + c && ([y] + c)[1..] == c;
  }

  /** Sliding the skipped entry to the right across `v` leaves the count unchanged. */
  lemma {:induction false} SkipShift(u: seq<int>, v: seq<int>, c: seq<int>, skip: int)
    ensures Inversions(u + [skip] + v + c, skip) == Inversions(u + v + [skip] + c, skip)
    decreases |v|
  {
    if v != [] {
      var w := v[0];
      AdjacentSwap(u, skip, w, v[1..] + c, skip);
      assert u + [skip] + v + c == u + [skip, w] + (v[1..] + c);
      assert u + [w, skip] + (v[1..] + c) == (u + [w]) + [skip] + v[1..] + c;
      SkipShift(u + [w], v[1..], c, skip);
      assert (u + [w]) + v[1..] + [skip] + c == u + v + [skip] + c;
    } else {
      assert u + [skip] + v + c == u + v + [skip] + c;
    }
  }

  /** Moving a counted entry `t` leftwards across the counted, different entries `m`
      changes the parity of the count once per entry crossed. */
  lemma {:induction false} MoveAcross(u: seq<int>, m: seq<int>, t: int, c: seq<int>, skip: int)
    requires t != skip
    requires forall k :: 0 <= k < |m| ==> m[k] != skip && m[k] != t
    ensures Inversions(u + m + [t] + c, skip) % 2 == (Inversions(u + [t] + m + c, skip) + |m|) % 2
    decreases |m|
  {
    if m != [] {
      var w := m[|m| - 1];
      var m' := m[..|m| - 1];
      AdjacentSwap(u + m', w, t, c, skip);
      assert u + m + [t] + c == (u + m') + [w, t] + c;
      assert (u + m') + [t, w] + c == u + m' + [t] + ([w] + c);
      assert Gt(w, t, skip) + Gt(t, w, skip) == 1;
      MoveAcross(u, m', t, [w] + c, skip);
      assert u + [t] + m' + ([w] + c) == u + [t] + m + c;
    } else {
      assert u + m + [t] + c == u + [t] + m + c;
    }
  }

  /** Exchanging the skipped entry with a counted one k places away, across counted
      entries different from both, changes the parity of the count by k - 1. */
  lemma SwapParity(s: seq<int>, i: int, j: int, skip: int)
    requires 0 <= i < j < |s|
    requires (s[i] == skip) != (s[j] == skip)
    requires forall k :: i < k < j ==> s[k] != skip && s[k] != s[i] && s[k] != s[j]
    ensures Inversions(Swap(s, i, j), skip) % 2 == (Inversions(s, skip) + (j - i - 1)) % 2
  {
    if s[i] == skip {
      SkipToFar(s, i, j, skip);
    } else {
      var s' := Swap(s, i, j);
      SkipToFar(s', i, j, skip);
      assert Swap(s', i, j) == s;
    }
  }

  lemma SkipToFar(s: seq<int>, i: int, j: int, skip: int)
    requires 0 <= i < j < |s| && s[i] == skip && s[j] != skip
    requires forall k :: i < k < j ==> s[k] != skip && s[k] != s[j]
    ensures Inversions(Swap(s, i, j), skip) % 2 == (Inversions(s, skip) + (j - i - 1)) % 2
  {
    var u, m, t, c := s[..i], s[i + 1..j], s[j], s[j + 1..];
    var s' := Swap(s, i, j);
    assert s == u + [skip] + (m + [t]) + c;
    assert s' == u + [t] + m + ([skip] + c);
    SkipShift(u, m + [t], c, skip);
    assert u + (m + [t]) + [skip] + c == u + m + [t] + ([skip] + c);
    assert forall k :: 0 <= k < |m| ==> m[k] == s[i + 1 + k];
    MoveAcross(u, m, t, [skip] + c, skip);
    ParityFlip(Inversions(s, skip), Inversions(s', skip), |m|);
  }

  lemma ParityFlip(a: int, b: int, k: int)
    requires a % 2 == (b + k) % 2
    ensures b % 2 == (a + k) % 2
  {
  }

  lemma {:induction false} AboveNone(x: int, t: seq<int>, skip: int)
    requires forall k :: 0 <= k < |t| ==> x == skip || t[k] == skip || x <= t[k]
    ensures Above(x, t, skip) == 0
  {
    if t != [] {
      AboveNone(x, t[1..], skip);
    }
  }

  /** An arrangement whose counted entries are in increasing order has no inversions. */
  lemma {:induction false} SortedNoInversions(s: seq<int>, skip: int)
    requires forall i, j :: 0 <= i < j < |s| && s[i] != skip && s[j] != skip ==> s[i] < s[j]
    ensures Inversions(s, skip) == 0
  {
    if s != [] {
      assert forall k :: 0 <= k < |s[1..]| ==> s[1..][k] == s[k + 1];
      AboveNone(s[0], s[1..], skip);
      SortedNoInversions(s[1..], skip);
    }
  }

  // ------------------------------------------------------------ grid geometry

  /** Orthogonal neighbours on a width-`n` grid: Manhattan distance 1 between the
      (row, column) positions `index / n, index % n`. */
  predicate Adjacent(index: int, e: int, n: int)
    requires n >= 1
  {
    Abs(index / n - e / n) + Abs(index % n - e % n) == 1
  }

  lemma DivMod(x: int, n: int)
    requires n >= 1
    ensures x == (x / n) * n + x % n && 0 <= x % n < n
  {
  }

  /** The quotient is the one q with x = q * n + r and 0 <= r < n. */
  lemma DivUnique(x: int, n: int, q: int, r: int)
    requires n >= 1 && 0 <= r < n && x == q * n + r
    ensures x / n == q
  {
    DivMod(x, n);
    var d := x / n - q;
    assert d * n == r - x % n;
    MulBound(d, n);
  }

  lemma MulBound(d: int, n: int)
    requires n >= 1
    ensures d >= 1 ==> d * n >= n
    ensures d <= -1 ==> d * n <= -n
  {
  }

  /** Two positions that are orthogonal neighbours are either side by side in one row,
      one apart, or in consecutive rows of the same column, `n` apart. */
  lemma AdjacentCases(index: int, e: int, n: int)
    requires n >= 1 && Adjacent(index, e, n)
    ensures index / n == e / n ==> Abs(index - e) == 1
    ensures index / n != e / n ==> Abs(index / n - e / n) == 1 && Abs(index - e) == n
  {
    DivMod(index, n);
    DivMod(e, n);
    var q1, q2 := index / n, e / n;
    if q1 == q2 {
      assert index - e == index % n - e % n;
    } else {
      assert index % n == e % n;
      if q1 == q2 + 1 {
        assert q1 * n == q2 * n + n;
      } else {
        assert q2 == q1 + 1;
        assert q2 * n == q1 * n + n;
      }
    }
  }

  /** Exchanging the one `skip` entry of a repetition-free arrangement with the entry
      `d` places away changes the parity of the count by d - 1: a move within a row
      (d = 1) keeps it, a move to a neighbouring row (d = n) changes it by n - 1. */
  lemma SlideParity(s: seq<int>, e: int, index: int, skip: int)
    requires 0 <= e < |s| && 0 <= index < |s| && e != index
    requires s[e] == skip && Distinct(s)
    ensures Inversions(Swap(s, e, index), skip) % 2 == (Inversions(s, skip) + Abs(index - e) - 1) % 2
  {
    if e < index {
      SwapParity(s, e, index, skip);
    } else {
      SwapExtensional(s, Swap(s, e, index), index, e);
      SwapParity(s, index, e, skip);
    }
  }

  /** In a repetition-free arrangement `indexOf` finds each entry where it is. */
  lemma IndexOfDistinct(s: seq<int>, k: int)
    requires Distinct(s) && 0 <= k < |s|
    ensures IndexOf(s, s[k]) == k
  {
    assert s[k] in s;
  }

  lemma SwapDistinct(s: seq<int>, i: int, j: int)
    requires Distinct(s) && 0 <= i < |s| && 0 <= j < |s|
    ensures Distinct(Swap(s, i, j))
  {
    SwapPermutes(s, i, j);
    DistinctPermutation(Swap(s, i, j), s);
  }

  /** After a slide the `skip` entry (the blank) stands at the clicked position. */
  lemma SlideBlank(s: seq<int>, e: int, index: int, skip: int)
    requires Distinct(s) && 0 <= e < |s| && 0 <= index < |s| && s[e] == skip
    ensures IndexOf(Swap(s, e, index), skip) == index
  {
    SwapDistinct(s, e, index);
    IndexOfDistinct(Swap(s, e, index), index);
  }

  /** The parity step of a slide on plain numbers: a distance of 1 keeps the parity, a
      distance of n shifts it by n - 1. */
  lemma ParityByRow(inv: int, inv': int, d: int, n: int, sameRow: bool)
    requires inv' % 2 == (inv + d - 1) % 2
    requires sameRow ==> d == 1
    requires !sameRow ==> d == n
    ensures sameRow ==> inv' % 2 == inv % 2
    ensures !sameRow ==> inv' % 2 == (inv + n - 1) % 2
  {
  }
}

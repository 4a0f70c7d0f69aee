/**
 * The game board: nine cells in row-major order, each empty or holding one
 * of the two marks. This module holds the value-level specification of the
 * board queries; the array itself lives in `Session.GameSession`.
 */
module Board {
  /** The two marks, "x" and "o". */
  datatype Mark = X | O

  /** A cell is empty (`null` in the game) or holds a mark. */
  datatype Cell = Empty | Marked(mark: Mark)

  /** Number of cells on the board. */
  const GridSize: nat := 9

  /** The indices 0, 1, ..., n - 1 in increasing order. */
  function Range(n: nat): (r: seq<nat>)
    ensures |r| == n
    ensures forall i | 0 <= i < n :: r[i] == i
  {
    if n == 0 then [] else Range(n - 1) + [n - 1]
  }

  /**
   * The indices of the cells equal to `c`, collected left to right by
   * appending, as the board's `reduce` and `for` loops do.
   */
  function IndicesOf(cells: seq<Cell>, c: Cell): (r: seq<nat>)
    ensures forall i: int :: i in r <==> 0 <= i < |cells| && cells[i] == c
    decreases |cells|
  {
    if cells == [] then []
    else
      var n := |cells| - 1;
      IndicesOf(cells[..n], c) + (if cells[n] == c then [n] else [])
  }

  /** Each index is smaller than every index after it. */
  predicate Increasing(r: seq<nat>)
  {
    forall j, k | 0 <= j < k < |r| :: r[j] < r[k]
  }

  /** The indices come out in strictly increasing order, as a left-to-right scan yields them. */
  lemma {:induction false} IndicesOrdered(cells: seq<Cell>, c: Cell)
    ensures Increasing(IndicesOf(cells, c))
    decreases |cells|
  {
    if cells != [] {
      var n := |cells| - 1;
      IndicesOrdered(cells[..n], c);
      var prefix := IndicesOf(cells[..n], c);
      var r := IndicesOf(cells, c);
      assert r == prefix + (if cells[n] == c then [n] else []);
      forall j, k | 0 <= j < k < |r| ensures r[j] < r[k] {
        if k < |prefix| {
          assert r[j] == prefix[j] && r[k] == prefix[k];
        } else {
          assert prefix[j] in prefix && r[j] == prefix[j] && r[k] == n;
        }
      }
    }
  }

  /** The list of indices holding `c` is empty exactly when no cell holds `c`. */
  lemma NoneIff(cells: seq<Cell>, c: Cell)
    ensures |IndicesOf(cells, c)| == 0 <==> forall i | 0 <= i < |cells| :: cells[i] != c
  {
    var r := IndicesOf(cells, c);
    if |r| > 0 {
      assert r[0] in r;
    }
  }

  /** On an all-empty board every index is empty and no index holds a mark. */
  lemma {:induction false} AllEmptyIndices(cells: seq<Cell>)
    requires forall i | 0 <= i < |cells| :: cells[i] == Empty
    ensures IndicesOf(cells, Empty) == Range(|cells|)
    ensures forall m: Mark :: IndicesOf(cells, Marked(m)) == []
  {
    if cells != [] {
      var n := |cells| - 1;
      assert cells[n] == Empty;
      AllEmptyIndices(cells[..n]);
      assert Range(|cells|) == Range(n) + [n];
    }
  }

  /**
   * Every index is empty, "x" or "o", and exactly one of them: the three
   * index lists are pairwise disjoint and together cover the board.
   */
  lemma Partition(cells: seq<Cell>)
    ensures forall i | 0 <= i < |cells| ::
      (i in IndicesOf(cells, Empty) || i in IndicesOf(cells, Marked(X)) || i in IndicesOf(cells, Marked(O)))
    ensures forall i :: !(i in IndicesOf(cells, Empty) && i in IndicesOf(cells, Marked(X)))
    ensures forall i :: !(i in IndicesOf(cells, Empty) && i in IndicesOf(cells, Marked(O)))
    ensures forall i :: !(i in IndicesOf(cells, Marked(X)) && i in IndicesOf(cells, Marked(O)))
  {
    forall i | 0 <= i < |cells|
      ensures i in IndicesOf(cells, Empty) || i in IndicesOf(cells, Marked(X)) || i in IndicesOf(cells, Marked(O))
    {
      if cells[i].Marked? && cells[i].mark == O {
        assert cells[i] == Marked(O);
      } else if cells[i].Marked? {
        assert cells[i] == Marked(X);
      }
    }
  }

  /** The lengths of the empty, "x" and "o" index lists add up to the board size. */
  lemma {:induction false} PartitionCount(cells: seq<Cell>)
    ensures |IndicesOf(cells, Empty)| + |IndicesOf(cells, Marked(X))| + |IndicesOf(cells, Marked(O))| == |cells|
  {
    if cells != [] {
      var n := |cells| - 1;
      PartitionCount(cells[..n]);
      if cells[n].Marked? && cells[n].mark == O {
        assert cells[n] == Marked(O);
      } else if cells[n].Marked? {
        assert cells[n] == Marked(X);
      }
    }
  }

  /**
   * Writing a mark `c` into an empty cell adds that index to the list of `c`,
   * removes it from the empty list and leaves every other list as long as before.
   */
  lemma {:induction false} CountAfterPlace(cells: seq<Cell>, pos: nat, c: Cell, d: Cell)
    requires pos < |cells| && cells[pos] == Empty && c != Empty
    ensures |IndicesOf(cells[pos := c], d)| ==
      |IndicesOf(cells, d)| + (if d == c then 1 else if d == Empty then -1 else 0)
  {
    var n := |cells| - 1;
    var placed := cells[pos := c];
    if pos == n {
      assert placed[..n] == cells[..n];
    } else {
      assert placed[..n] == cells[..n][pos := c];
      CountAfterPlace(cells[..n], pos, c, d);
    }
  }
}

/**
 * Win detection and the mode toggle: the fixed table of the eight lines of a
 * 3x3 board (three rows, three columns, two diagonals) and the test of
 * whether one mark's positions contain a whole line.
 */
module GameFlow {
  import opened Wrappers
  import opened Board
  import opened Players

  /** The eight winning triples, in the order the game tests them. */
  const WinningCombinations: seq<seq<nat>> := [
    [0, 1, 2],
    [3, 4, 5],
    [6, 7, 8],
    [0, 3, 6],
    [1, 4, 7],
    [2, 5, 8],
    [0, 4, 8],
    [2, 4, 6]
  ]

  /** Every element of `comb` occurs in `positions`. */
  predicate Contains(positions: seq<nat>, comb: seq<nat>)
  {
    forall e | e in comb :: e in positions
  }

  /** Some line of the table lies wholly inside `positions`. */
  predicate HasWin(positions: seq<nat>)
  {
    exists line | 0 <= line < |WinningCombinations| :: Contains(positions, WinningCombinations[line])
  }

  /**
   * The first line, at or after `from` in table order, that `positions`
   * contains; `None` when there is none.
   */
  function FirstMatch(positions: seq<nat>, from: nat): (r: Option<nat>)
    requires from <= |WinningCombinations|
    ensures r.Some? ==>
      && from <= r.value < |WinningCombinations|
      && Contains(positions, WinningCombinations[r.value])
      && forall j | from <= j < r.value :: !Contains(positions, WinningCombinations[j])
    ensures r.None? ==>
      forall j | from <= j < |WinningCombinations| :: !Contains(positions, WinningCombinations[j])
    decreases |WinningCombinations| - from
  {
    if from == |WinningCombinations| then None
    else if Contains(positions, WinningCombinations[from]) then Some(from)
    else FirstMatch(positions, from + 1)
  }

  /** A searched line is found exactly when the positions win. */
  lemma FirstMatchFindsWin(positions: seq<nat>)
    ensures FirstMatch(positions, 0).Some? <==> HasWin(positions)
  {
  }

  /** The distinct elements of a position list. */
  function Elements(positions: seq<nat>): set<nat>
  {
    set e | e in positions
  }

  /** |a| <= |b| whenever a is a subset of b. */
  lemma {:induction false} SubsetCardinality(a: set<nat>, b: set<nat>)
    requires a <= b
    ensures |a| <= |b|
    decreases a
  {
    if a != {} {
      var x :| x in a;
      SubsetCardinality(a - {x}, b - {x});
    }
  }

  /**
   * Positions with fewer than three distinct elements cannot contain a
   * line: every line has three distinct cells.
   */
  lemma FewerThanThreeNoWin(positions: seq<nat>)
    requires |Elements(positions)| < 3
    ensures !HasWin(positions)
    ensures FirstMatch(positions, 0) == None
  {
    var distinct := Elements(positions);
    if HasWin(positions) {
      var line :| 0 <= line < |WinningCombinations| && Contains(positions, WinningCombinations[line]);
      var comb := WinningCombinations[line];
      assert |comb| == 3 && comb[0] != comb[1] && comb[0] != comb[2] && comb[1] != comb[2];
      var cells := {comb[0], comb[1], comb[2]};
      assert |cells| == 3;
      assert cells <= distinct by {
        forall e | e in cells ensures e in distinct {
          assert e in comb;
        }
      }
      SubsetCardinality(cells, distinct);
      assert false;
    }
  }

  /** The other mode: `changeOpponent` swaps "one player" and "two players". */
  function Toggled(mode: Mode): (r: Mode)
    ensures r != mode
  {
    if mode == OnePlayer then TwoPlayers else OnePlayer
  }

  /** Toggling twice gives back the mode one started from. */
  lemma ToggleTwice(mode: Mode)
    ensures Toggled(Toggled(mode)) == mode
  {
  }

  /** Every cell of line `line` lies on the board and holds `mark`. */
  predicate Owns(cells: seq<Cell>, mark: Mark, line: nat)
    requires line < |WinningCombinations|
  {
    forall e | e in WinningCombinations[line] :: e < |cells| && cells[e] == Marked(mark)
  }

  /**
   * Testing a line against the list of a mark's positions is the same as
   * testing the cells of that line on the board.
   */
  lemma ContainsIsOwns(cells: seq<Cell>, mark: Mark, line: nat)
    requires line < |WinningCombinations|
    ensures Contains(IndicesOf(cells, Marked(mark)), WinningCombinations[line]) <==> Owns(cells, mark, line)
  {
  }
}

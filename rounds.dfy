/**
 * The outcome of one placement and how scores change at the end of a round:
 * the DOM-free decisions of the move pipeline, as value-level functions.
 */
module Rounds {
  import opened Wrappers
  import opened Board
  import opened Players
  import opened GameFlow

  /** What a placement leads to: a win over a line of the table, a tie, or play going on. */
  datatype RoundResult = Won(line: nat) | Tied | Continued

  /**
   * The outcome after the mover's mark is on the board: first the win test
   * on the mover's positions, then the full-board test.
   */
  function Judge(cells: seq<Cell>, mark: Mark): (r: RoundResult)
    ensures r.Won? ==> r.line < |WinningCombinations|
  {
    match FirstMatch(IndicesOf(cells, Marked(mark)), 0)
    case Some(line) => Won(line)
    case None => if |IndicesOf(cells, Empty)| < 1 then Tied else Continued
  }

  /**
   * A win is reported exactly when the mover owns a whole line, and the line
   * reported is the first one in table order; a tie exactly when the mover
   * owns no line and no cell is empty; otherwise play continues.
   */
  lemma JudgeMeaning(cells: seq<Cell>, mark: Mark)
    ensures Judge(cells, mark).Won? <==>
      exists line | 0 <= line < |WinningCombinations| :: Owns(cells, mark, line)
    ensures Judge(cells, mark).Won? ==>
      var line := Judge(cells, mark).line;
      && line < |WinningCombinations|
      && Owns(cells, mark, line)
      && forall j | 0 <= j < line :: !Owns(cells, mark, j)
    ensures Judge(cells, mark).Tied? <==>
      && (forall line | 0 <= line < |WinningCombinations| :: !Owns(cells, mark, line))
      && (forall i | 0 <= i < |cells| :: cells[i] != Empty)
    ensures Judge(cells, mark).Continued? <==>
      && (forall line | 0 <= line < |WinningCombinations| :: !Owns(cells, mark, line))
      && (exists i | 0 <= i < |cells| :: cells[i] == Empty)
  {
    forall line | 0 <= line < |WinningCombinations|
      ensures Contains(IndicesOf(cells, Marked(mark)), WinningCombinations[line]) <==> Owns(cells, mark, line)
    {
      ContainsIsOwns(cells, mark, line);
    }
    NoneIff(cells, Empty);
  }

  /** Neither mark owns a line of the table: the board of a round still in play. */
  predicate NoLine(cells: seq<Cell>)
  {
    forall mark: Mark, line | 0 <= line < |WinningCombinations| :: !Owns(cells, mark, line)
  }

  /** An empty board has no line: every line of the table has a cell, and none holds a mark. */
  lemma EmptyNoLine(n: nat)
    ensures NoLine(seq(n, _ => Empty))
  {
    var cells: seq<Cell> := seq(n, _ => Empty);
    forall mark: Mark, line | 0 <= line < |WinningCombinations|
      ensures !Owns(cells, mark, line)
    {
      assert WinningCombinations[line][0] in WinningCombinations[line];
    }
  }

  /**
   * A placement that does not win keeps the board free of lines: the mover
   * owns none by `JudgeMeaning`, and the other mark's cells are unchanged.
   * So a tie means that no cell is empty and neither mark owns a line.
   */
  lemma PlaceKeepsNoLine(cells: seq<Cell>, pos: nat, mover: Mark)
    requires NoLine(cells)
    requires pos < |cells| && cells[pos] == Empty
    requires !Judge(cells[pos := Marked(mover)], mover).Won?
    ensures NoLine(cells[pos := Marked(mover)])
  {
    var placed := cells[pos := Marked(mover)];
    JudgeMeaning(placed, mover);
    forall mark: Mark, line | 0 <= line < |WinningCombinations|
      ensures !Owns(placed, mark, line)
    {
      if mark != mover {
        assert !Owns(cells, mark, line);
      }
    }
  }

  /**
   * On a board where no mark owned a line, a placement judged a tie leaves
   * no empty cell and no line of either mark.
   */
  lemma TieMeansNoLine(cells: seq<Cell>, pos: nat, mover: Mark)
    requires NoLine(cells)
    requires pos < |cells| && cells[pos] == Empty
    requires Judge(cells[pos := Marked(mover)], mover).Tied?
    ensures var placed := cells[pos := Marked(mover)];
      NoLine(placed) && forall i | 0 <= i < |placed| :: placed[i] != Empty
  {
    PlaceKeepsNoLine(cells, pos, mover);
    JudgeMeaning(cells[pos := Marked(mover)], mover);
  }

  /**
   * Resolving a placement on a board without lines leaves a board without
   * lines: the placed board when play goes on, an empty one when the round
   * is over.
   */
  lemma SettleKeepsNoLine(before: Snapshot, after: Snapshot, pos: nat, mover: Mark, mode: Mode, result: RoundResult)
    requires |before.scores| == 4 && NoLine(before.cells)
    requires pos < |before.cells| && before.cells[pos] == Empty
    requires result == Judge(before.cells[pos := Marked(mover)], mover)
    requires after == Settle(before, before.cells[pos := Marked(mover)], mode, result)
    ensures NoLine(after.cells)
  {
    if result.Continued? {
      PlaceKeepsNoLine(before.cells, pos, mover);
    } else {
      EmptyNoLine(|before.cells|);
    }
  }

  /** Tie counters of the first `n` players of `mode` incremented by one. */
  function CreditTies(scores: seq<Score>, mode: Mode, n: nat): (t: seq<Score>)
    requires |scores| == 4 && n <= 2
    ensures |t| == 4
    ensures forall k | 0 <= k < 4 ::
      t[k] == if Slot(mode, 0) <= k < Slot(mode, 0) + n then Credit(scores[k], Tie) else scores[k]
  {
    if n == 0 then scores
    else
      var before := CreditTies(scores, mode, n - 1);
      before[Slot(mode, n - 1) := Credit(before[Slot(mode, n - 1)], Tie)]
  }

  /**
   * The scoreboard after a round is over: on a win only the winner's win
   * counter goes up, by one; on a tie both players of the current mode get
   * one more tie; the other mode's players and every lose counter are left
   * as they were.
   */
  function Award(scores: seq<Score>, mode: Mode, winner: Option<nat>): (t: seq<Score>)
    requires |scores| == 4
    requires winner.Some? ==> winner.value < 2
    ensures |t| == 4
    ensures forall k | 0 <= k < 4 :: t[k].lose == scores[k].lose
    ensures forall k | 0 <= k < 4 ::
      t[k].win == scores[k].win + (if winner.Some? && k == Slot(mode, winner.value) then 1 else 0)
    ensures forall k | 0 <= k < 4 ::
      t[k].tie == scores[k].tie + (if winner.None? && (k == Slot(mode, 0) || k == Slot(mode, 1)) then 1 else 0)
  {
    match winner
    case Some(i) => scores[Slot(mode, i) := Credit(scores[Slot(mode, i)], Win)]
    case None => CreditTies(scores, mode, 2)
  }

  /** The parts of a game session that resolving a placement can change. */
  datatype Snapshot = Snapshot(cells: seq<Cell>, turn: nat, scores: seq<Score>, recorded: Option<seq<nat>>)

  /**
   * The board, turn, scoreboard and recorded line once a placement has been
   * resolved with `result`, from the state `before` the placement and the
   * board `placed` that holds the new mark. On continue the mark stays, the
   * turn passes and nothing else changes. On a win or a tie the board is
   * emptied, the turn is 0 and the scoreboard is awarded to the mover (index
   * `turn % 2` of the preset) or to both players; a win records its line.
   */
  function Settle(before: Snapshot, placed: seq<Cell>, mode: Mode, result: RoundResult): (after: Snapshot)
    requires |before.scores| == 4
    requires result.Won? ==> result.line < |WinningCombinations|
    ensures |after.cells| == |placed| && |after.scores| == 4
  {
    match result
    case Continued => before.(cells := placed, turn := before.turn + 1)
    case Won(line) =>
      Snapshot(seq(|placed|, _ => Empty), 0, Award(before.scores, mode, Some(before.turn % 2)),
               Some(WinningCombinations[line]))
    case Tied => Snapshot(seq(|placed|, _ => Empty), 0, Award(before.scores, mode, None), before.recorded)
  }
}

/**
 * One game session: the board array, the turn counter, the current mode,
 * the last winning line and the two player presets, with the operations of
 * the board, the players and the game flow, and the move pipeline that runs
 * when a cell is clicked (rendering and animation left out).
 */
module Session {
  import opened Wrappers
  import opened Board
  import opened Players
  import opened GameFlow
  import opened Rounds

  class GameSession {
    const board: array<Cell>
    const soloHuman: Player
    const computer: Player
    const player1: Player
    const player2: Player
    var turn: nat
    var currentMode: Mode
    var winningCombination: Option<seq<nat>>

    /** The shape of a session: nine cells, the four fixed players, a recorded line from the table. */
    ghost predicate WellFormed()
      reads this
    {
      && board.Length == GridSize
      && soloHuman != computer && soloHuman != player1 && soloHuman != player2
      && computer != player1 && computer != player2 && player1 != player2
      && soloHuman.name == "player" && soloHuman.mark == X && !soloHuman.isAI
      && computer.name == "computer" && computer.mark == O && computer.isAI
      && player1.name == "player1" && player1.mark == X && !player1.isAI
      && player2.name == "player2" && player2.mark == O && !player2.isAI
      && (winningCombination.Some? ==> winningCombination.value in WinningCombinations)
    }

    /**
     * The invariant between rounds and between moves: "x" moves on even
     * turns and "o" on odd ones, so the board holds (turn + 1) / 2 x's and
     * turn / 2 o's.
     */
    ghost predicate Valid()
      reads this, board
    {
      && WellFormed()
      && |IndicesOf(board[..], Marked(X))| == (turn + 1) / 2
      && |IndicesOf(board[..], Marked(O))| == turn / 2
    }

    /**
     * Waiting for a click: no mark owns a line yet (a win would have ended
     * the round), and in one-player mode the computer has already answered,
     * so it is the human's turn.
     */
    ghost predicate AtRest()
      reads this, board
    {
      Valid() && NoLine(board[..]) && (currentMode == OnePlayer ==> turn % 2 == 0)
    }

    /** The scoreboard: one-player human, computer, player1, player2. */
    ghost function Scores(): seq<Score>
      reads soloHuman, computer, player1, player2
    {
      [soloHuman.ScoreOf(), computer.ScoreOf(), player1.ScoreOf(), player2.ScoreOf()]
    }

    /** The lose counters of the scoreboard, in the same order. */
    ghost function Losses(): seq<nat>
      reads soloHuman, computer, player1, player2
    {
      [soloHuman.lose, computer.lose, player1.lose, player2.lose]
    }

    /** The board, turn, scoreboard and recorded line as one value. */
    ghost function State(): Snapshot
      reads this, board, soloHuman, computer, player1, player2
    {
      Snapshot(board[..], turn, Scores(), winningCombination)
    }

    /** A fresh session: empty board, turn 0, one-player mode, no winning line, all counters at zero. */
    constructor ()
      ensures AtRest()
      ensures currentMode == OnePlayer && turn == 0 && winningCombination == None
      ensures forall i | 0 <= i < board.Length :: board[i] == Empty
      ensures Scores() == [Score(0, 0, 0), Score(0, 0, 0), Score(0, 0, 0), Score(0, 0, 0)]
      ensures fresh(board) && fresh(soloHuman) && fresh(computer) && fresh(player1) && fresh(player2)
    {
      board := new Cell[GridSize](_ => Empty);
      soloHuman := new Player("player", X, false);
      computer := new Player("computer", O, true);
      player1 := new Player("player1", X, false);
      player2 := new Player("player2", O, false);
      turn := 0;
      currentMode := OnePlayer;
      winningCombination := None;
      new;
      AllEmptyIndices(board[..]);
      assert board[..] == seq(GridSize, _ => Empty);
      EmptyNoLine(GridSize);
    }

    // ----- Gameboard -----

    /** Empties every cell. */
    method ResetBoard()
      modifies board
      ensures forall i | 0 <= i < board.Length :: board[i] == Empty
      ensures board[..] == seq(board.Length, _ => Empty)
    {
      for i := 0 to board.Length
        invariant forall j | 0 <= j < i :: board[j] == Empty
      {
        board[i] := Empty;
      }
      assert board[..] == seq(board.Length, _ => Empty);
    }

    /** Writes `mark` at `pos`, whatever the cell held; every other cell keeps its value. */
    method AddMark(mark: Mark, pos: nat)
      requires pos < board.Length
      modifies board
      ensures board[..] == old(board[..])[pos := Marked(mark)]
    {
      board[pos] := Marked(mark);
    }

    /** The indices of the empty cells (in increasing order, by `IndicesOrdered`). */
    function EmptyCells(): (r: seq<nat>)
      reads this, board
      ensures forall i: int :: i in r <==> 0 <= i < board.Length && board[i] == Empty
    {
      IndicesOf(board[..], Empty)
    }

    /** The indices of the cells holding `mark`, collected by a left-to-right scan. */
    method MarkPositions(mark: Mark) returns (pos: seq<nat>)
      ensures pos == IndicesOf(board[..], Marked(mark))
    {
      pos := [];
      for i := 0 to board.Length
        invariant pos == IndicesOf(board[..i], Marked(mark))
      {
        assert board[..i + 1][..i] == board[..i];
        if board[i] == Marked(mark) {
          pos := pos + [i];
        }
      }
      assert board[..board.Length] == board[..];
    }

    // ----- Players -----

    /** The preset of a mode: the first player has "x", the second "o"; only the one-player preset has an AI. */
    function PlayersOf(mode: Mode): (ps: seq<Player>)
      reads this
      requires WellFormed()
      ensures |ps| == 2 && ps[0] != ps[1]
      ensures ps[0].mark == X && ps[1].mark == O
      ensures !ps[0].isAI && (ps[1].isAI <==> mode == OnePlayer)
    {
      if mode == OnePlayer then [soloHuman, computer] else [player1, player2]
    }

    /** The player whose turn it is: "x" on even turns, "o" on odd ones; the computer only on odd turns of one-player mode. */
    function CurrentPlayer(mode: Mode): (p: Player)
      reads this
      requires WellFormed()
      ensures p in PlayersOf(mode)
      ensures p.mark == MarkOf(turn)
      ensures p.isAI <==> mode == OnePlayer && turn % 2 == 1
    {
      PlayersOf(mode)[turn % 2]
    }

    /** Passes the turn to the other player. */
    method SwitchTurn()
      modifies this`turn
      ensures turn == old(turn) + 1
      ensures turn % 2 != old(turn) % 2
    {
      turn := turn + 1;
    }

    /** Gives the turn back to the first player. */
    method StartOver()
      modifies this`turn
      ensures turn == 0
    {
      turn := 0;
    }

    // ----- GameFlow -----

    /**
     * Whether `positions` contain a whole line; on success the first such
     * line in table order is recorded, otherwise the record is untouched.
     */
    method CheckWin(positions: seq<nat>) returns (won: bool)
      modifies this`winningCombination
      ensures won <==> HasWin(positions)
      ensures won <==> FirstMatch(positions, 0).Some?
      ensures won ==>
        winningCombination == Some(WinningCombinations[FirstMatch(positions, 0).value])
      ensures !won ==> winningCombination == old(winningCombination)
    {
      var i := 0;
      while i < |WinningCombinations|
        invariant 0 <= i <= |WinningCombinations|
        invariant forall j | 0 <= j < i :: !Contains(positions, WinningCombinations[j])
        invariant winningCombination == old(winningCombination)
      {
        if Contains(positions, WinningCombinations[i]) {
          winningCombination := Some(WinningCombinations[i]);
          return true;
        }
        i := i + 1;
      }
      return false;
    }

    /** Ends a round: empty board, first player to move. */
    method EndGame()
      requires WellFormed()
      modifies board, this`turn
      ensures Valid()
      ensures forall i | 0 <= i < board.Length :: board[i] == Empty
      ensures board[..] == seq(board.Length, _ => Empty)
      ensures turn == 0
    {
      ResetBoard();
      StartOver();
      AllEmptyIndices(board[..]);
    }

    /** Ends the round and switches to the other mode. */
    method ChangeOpponent()
      requires WellFormed()
      modifies board, this`turn, this`currentMode
      ensures AtRest()
      ensures currentMode == Toggled(old(currentMode))
      ensures forall i | 0 <= i < board.Length :: board[i] == Empty
      ensures turn == 0
    {
      EndGame();
      EmptyNoLine(board.Length);
      currentMode := Toggled(currentMode);
    }

    // ----- Move pipeline -----

    /** Whether `mark` owns a whole line of the board; records the first such line. */
    method HasPlayerWon(mark: Mark) returns (won: bool)
      modifies this`winningCombination
      ensures won <==> exists line | 0 <= line < |WinningCombinations| :: Owns(board[..], mark, line)
      ensures won <==> FirstMatch(IndicesOf(board[..], Marked(mark)), 0).Some?
      ensures won ==>
        winningCombination == Some(WinningCombinations[FirstMatch(IndicesOf(board[..], Marked(mark)), 0).value])
      ensures !won ==> winningCombination == old(winningCombination)
    {
      var positions := MarkPositions(mark);
      won := CheckWin(positions);
      forall line | 0 <= line < |WinningCombinations|
        ensures Contains(positions, WinningCombinations[line]) <==> Owns(board[..], mark, line)
      {
        ContainsIsOwns(board[..], mark, line);
      }
    }

    /** The board is full when no cell is empty. */
    function IsBoardFull(): (full: bool)
      reads this, board
      ensures full <==> forall i | 0 <= i < board.Length :: board[i] != Empty
    {
      NoneIff(board[..], Empty);
      |EmptyCells()| < 1
    }

    /**
     * Scores a finished round, the winner being the player at index
     * `winner` of the current preset (a tie when `None`), then ends it.
     */
    method GameOver(winner: Option<nat>)
      requires WellFormed()
      requires winner.Some? ==> winner.value < 2
      modifies board, this`turn, soloHuman, computer, player1, player2
      ensures Valid()
      ensures Scores() == Award(old(Scores()), currentMode, winner)
      ensures Losses() == old(Losses())
      ensures forall i | 0 <= i < board.Length :: board[i] == Empty
      ensures board[..] == seq(board.Length, _ => Empty)
      ensures turn == 0
      ensures State() == Snapshot(seq(board.Length, _ => Empty), 0, Award(old(Scores()), currentMode, winner), old(winningCombination))
    {
      var ps := PlayersOf(currentMode);
      if winner.Some? {
        var k := Slot(currentMode, winner.value);
        ps[winner.value].SetScore(Win);
        assert Scores() == old(Scores())[k := Credit(old(Scores())[k], Win)];
      } else {
        for i := 0 to |ps|
          invariant Scores() == CreditTies(old(Scores()), currentMode, i)
          invariant Losses() == old(Losses())
        {
          ps[i].SetScore(Tie);
        }
      }
      EndGame();
    }

    /**
     * A mark has just been placed for the current player and the turn has
     * not passed yet.
     */
    ghost predicate Placed()
      reads this, board
    {
      && WellFormed()
      && |IndicesOf(board[..], Marked(X))| == (turn + 2) / 2
      && |IndicesOf(board[..], Marked(O))| == (turn + 1) / 2
    }

    /**
     * What follows a placement by the player with `mark`: a win for that
     * mark is checked before a full board; a finished round is scored and
     * the board and turn reset; otherwise the turn passes to the other player.
     */
    method Resolve(mark: Mark) returns (result: RoundResult)
      requires Placed() && mark == MarkOf(turn)
      modifies board, this`turn, this`winningCombination, soloHuman, computer, player1, player2
      ensures Valid()
      ensures result.Continued? ==> !IsBoardFull() && turn == old(turn) + 1
      ensures Losses() == old(Losses())
      ensures result == Judge(old(board[..]), mark)
      ensures State() == Settle(old(State()), old(board[..]), currentMode, result)
    {
      ghost var start := State();
      var won := HasPlayerWon(mark);
      if won {
        result := Won(FirstMatch(IndicesOf(board[..], Marked(mark)), 0).value);
        GameOver(Some(turn % 2));
      } else {
        assert State() == start;
        result := Proceed();
      }
    }

    /**
     * A placement that won nothing: a full board (no empty index left) ends
     * the round in a tie, otherwise the turn passes to the other player.
     */
    method Proceed() returns (result: RoundResult)
      requires Placed()
      modifies board, this`turn, soloHuman, computer, player1, player2
      ensures Valid()
      ensures Losses() == old(Losses())
      ensures result == if |IndicesOf(old(board[..]), Empty)| < 1 then Tied else Continued
      ensures result.Continued? ==> !IsBoardFull() && turn == old(turn) + 1
      ensures State() == Settle(old(State()), old(board[..]), currentMode, result)
    {
      ghost var start := State();
      var full := IsBoardFull();
      if full {
        result := Tied;
        GameOver(None);
      } else {
        result := Continued;
        SwitchTurn();
        assert State() == start.(turn := start.turn + 1);
      }
    }

    /**
     * One player's move on an empty cell: the current player's mark goes on
     * the board, then the placement is resolved.
     */
    method Move(pos: nat) returns (result: RoundResult)
      requires Valid()
      requires pos < board.Length && board[pos] == Empty
      modifies board, this`turn, this`winningCombination, soloHuman, computer, player1, player2
      ensures Valid()
      ensures result == Judge(old(board[..])[pos := Marked(MarkOf(old(turn)))], MarkOf(old(turn)))
      ensures State() == Settle(old(State()), old(board[..])[pos := Marked(MarkOf(old(turn)))], currentMode, result)
      ensures result.Continued? ==> !IsBoardFull() && turn == old(turn) + 1
      ensures Losses() == old(Losses())
    {
      var player := CurrentPlayer(currentMode);
      var mark := player.mark;
      ghost var before := board[..];
      AddMark(mark, pos);
      CountAfterPlace(before, pos, Marked(mark), Marked(X));
      CountAfterPlace(before, pos, Marked(mark), Marked(O));
      if turn % 2 == 0 {
        assert |IndicesOf(board[..], Marked(X))| == (turn + 2) / 2;
      } else {
        assert |IndicesOf(board[..], Marked(O))| == (turn + 1) / 2;
      }
      result := Resolve(mark);
    }

    /**
     * A click on an empty cell while waiting for input: the current player
     * moves, and in one-player mode, when the human's move did not end the
     * round, the computer answers at once on one of the cells left empty.
     */
    method DisplayMark(pos: nat) returns (result: RoundResult, ai: Option<(nat, RoundResult)>)
      requires AtRest()
      requires pos < board.Length && board[pos] == Empty
      modifies board, this`turn, this`winningCombination, soloHuman, computer, player1, player2
      ensures AtRest()
      ensures result == Judge(old(board[..])[pos := Marked(MarkOf(old(turn)))], MarkOf(old(turn)))
      ensures ai.Some? <==> currentMode == OnePlayer && result.Continued?
      ensures ai.Some? ==>
        && ai.value.0 < board.Length && ai.value.0 != pos && old(board[..])[ai.value.0] == Empty
        && ai.value.1 == Judge(old(board[..])[pos := Marked(X)][ai.value.0 := Marked(O)], O)
      ensures ai.None? ==>
        State() == Settle(old(State()), old(board[..])[pos := Marked(MarkOf(old(turn)))], currentMode, result)
      ensures ai.Some? ==>
        var placed := old(board[..])[pos := Marked(X)];
        State() == Settle(Settle(old(State()), placed, currentMode, Continued), placed[ai.value.0 := Marked(O)], currentMode, ai.value.1)
      ensures Losses() == old(Losses())
    {
      var mode := currentMode;
      var player := CurrentPlayer(mode);
      ghost var start, before := State(), board[..];
      ghost var placed := before[pos := Marked(MarkOf(turn))];
      result := Move(pos);
      SettleKeepsNoLine(start, State(), pos, MarkOf(old(turn)), mode, result);
      assert NoLine(board[..]);
      if result.Continued? && mode == OnePlayer && !player.isAI {
        assert MarkOf(old(turn)) == X && board[..] == placed;
        var cell, aiResult := PlayAiTurn();
        assert placed[cell] == Empty && cell != pos && before[cell] == Empty;
        assert aiResult == Judge(before[pos := Marked(X)][cell := Marked(O)], O);
        ai := Some((cell, aiResult));
      } else {
        ai := None;
      }
    }

    /** The computer's move: any one of the empty cells (the game draws it at random). */
    method PlayAiTurn() returns (cell: nat, result: RoundResult)
      requires Valid()
      requires currentMode == OnePlayer && turn % 2 == 1
      requires !IsBoardFull() && NoLine(board[..])
      modifies board, this`turn, this`winningCombination, soloHuman, computer, player1, player2
      ensures AtRest()
      ensures cell in old(EmptyCells())
      ensures cell < board.Length && old(board[..])[cell] == Empty
      ensures result == Judge(old(board[..])[cell := Marked(O)], O)
      ensures State() == Settle(old(State()), old(board[..])[cell := Marked(O)], currentMode, result)
      ensures Losses() == old(Losses())
    {
      var emptyCells := EmptyCells();
      var random :| 0 <= random < |emptyCells|;
      cell := emptyCells[random];
      assert cell in emptyCells;
      ghost var start := State();
      result := Move(cell);
      SettleKeepsNoLine(start, State(), cell, O, currentMode, result);
      assert NoLine(board[..]);
      assert turn % 2 == 0;
    }
  }
}

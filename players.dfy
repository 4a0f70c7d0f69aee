/**
 * Players and their score counters. The game has two fixed presets of two
 * players each, one per mode; a player's name, mark and AI flag never change,
 * while its win/lose/tie counters are bumped in place.
 */
module Players {
  import opened Board

  /** The two game modes, "one player" (against the computer) and "two players". */
  datatype Mode = OnePlayer | TwoPlayers

  /** The three counters a player keeps. */
  datatype ScoreKind = Win | Lose | Tie

  /** A snapshot of one player's counters. */
  datatype Score = Score(win: nat, lose: nat, tie: nat)

  /** The mark of the player at position `index` of either preset: "x" first, then "o". */
  function MarkOf(index: nat): Mark
  {
    if index % 2 == 0 then X else O
  }

  /**
   * Where a player's counters sit in the four-entry scoreboard
   * [one-player human, computer, player1, player2].
   */
  function Slot(mode: Mode, index: nat): (k: nat)
    requires index < 2
    ensures k < 4
    ensures mode == OnePlayer <==> k < 2
  {
    (if mode == OnePlayer then 0 else 2) + index
  }

  /** The counters after one `kind` increment. */
  function Credit(s: Score, kind: ScoreKind): Score
  {
    match kind
    case Win => s.(win := s.win + 1)
    case Lose => s.(lose := s.lose + 1)
    case Tie => s.(tie := s.tie + 1)
  }

  class Player {
    const name: string
    const mark: Mark
    const isAI: bool
    var win: nat
    var lose: nat
    var tie: nat

    /** A player starts with every counter at zero. */
    constructor (name: string, mark: Mark, isAI: bool)
      ensures this.name == name && this.mark == mark && this.isAI == isAI
      ensures ScoreOf() == Score(0, 0, 0)
    {
      this.name := name;
      this.mark := mark;
      this.isAI := isAI;
      win, lose, tie := 0, 0, 0;
    }

    /** The player's current counters. */
    ghost function ScoreOf(): Score
      reads this
    {
      Score(win, lose, tie)
    }

    /** Increments exactly the counter named by `kind`, by one. */
    method SetScore(kind: ScoreKind)
      modifies this
      ensures win == old(win) + (if kind == Win then 1 else 0)
      ensures lose == old(lose) + (if kind == Lose then 1 else 0)
      ensures tie == old(tie) + (if kind == Tie then 1 else 0)
      ensures ScoreOf() == Credit(old(ScoreOf()), kind)
    {
      match kind
      case Win => win := win + 1;
      case Lose => lose := lose + 1;
      case Tie => tie := tie + 1;
    }
  }
}

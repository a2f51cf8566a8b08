/**
  The page's game controller: the shared variables of the game (board, current player,
  whether the game is on, the scores, the mode and the difficulty) as the fields of one
  object, and the event handlers as its methods. Each event handler is proved to move the
  fields exactly as the matching step of `Session` moves a session value.
 */
module Controller {
  import opened Optional
  import opened Board
  import opened Strategy
  import Session

  class Game {
    var board: array<Cell>
    var currentPlayer: Player
    var gameActive: bool
    var scores: Session.Scores
    var vsCpu: bool
    var difficulty: Session.Difficulty

    ghost predicate Valid()
      reads this
    {
      board.Length == 9
    }

    /** The fields, read as a session value. */
    ghost function State(): Session.State
      reads this, board
      requires Valid()
    {
      Session.State(board[..], currentPlayer, gameActive, scores, vsCpu, difficulty)
    }

    /** Page load: no scores, two-player mode, easy level, then a new game. */
    constructor ()
      ensures Valid() && fresh(board)
      ensures State() == Session.Start()
    {
      scores := Session.Scores(0, 0, 0);
      vsCpu := false;
      difficulty := Session.Easy;
      board := new Cell[9](_ => Empty);
      currentPlayer := X;
      gameActive := true;
      new;
      assert board[..] == EmptyBoard;
    }

    /** A new game on a freshly allocated empty board. */
    method Init()
      requires Valid()
      modifies this
      ensures Valid() && fresh(board)
      ensures State() == Session.NewGame(old(State()))
    {
      board := new Cell[9](_ => Empty);
      currentPlayer := X;
      gameActive := true;
      assert board[..] == EmptyBoard;
    }

    /** Writes `player`'s mark into cell `idx`, whatever was there. */
    method Place(idx: nat, player: Player)
      requires Valid() && idx < 9
      modifies board
      ensures board[..] == old(board[..])[idx := Mark(player)]
    {
      board[idx] := Mark(player);
    }

    /** Stops the game and adds one to the matching counter. */
    method EndGame(draw: bool)
      requires Valid()
      modifies this
      ensures Valid() && board == old(board)
      ensures State() == Session.EndGame(old(State()), draw)
    {
      gameActive := false;
      if draw {
        scores := scores.(draws := scores.draws + 1);
      } else if currentPlayer == X {
        scores := scores.(x := scores.x + 1);
      } else {
        scores := scores.(o := scores.o + 1);
      }
    }

    /**
      The computer's move as O: choose a cell by the current difficulty, using the board
      array itself for the searches, place O there and settle the outcome.
     */
    method CpuMove(pick: nat)
      requires Valid() && currentPlayer == O && !IsFull(board[..])
      modifies this, board
      ensures Valid() && board == old(board)
      ensures State() == Session.ComputerMove(old(State()), pick)
    {
      ghost var before := State();
      var idx: Option<nat>;
      if difficulty == Session.Easy {
        idx := RandomMove(board[..], pick);
      } else if difficulty == Session.Medium {
        idx := FindBestMove(board, O, false);
        if idx.None? {
          idx := RandomMove(board[..], pick);
        }
      } else {
        idx := FindBestMove(board, O, true);
        HardMoveSpec(board[..], O);
      }
      assert idx == Some(Session.CpuChoice(before.board, difficulty, pick));
      Place(idx.value, O);
      if CheckWin(board[..], O) {
        EndGame(false);
      } else if IsFull(board[..]) {
        EndGame(true);
      } else {
        currentPlayer := X;
      }
    }

    /**
      A click on cell `idx`: ignored on a finished game or an occupied cell; otherwise the
      current player's mark, the outcome, and the computer's reply when it is O's turn.
     */
    method HandleCellClick(idx: nat, pick: nat)
      requires Valid() && idx < 9
      modifies this, board
      ensures Valid() && board == old(board)
      ensures State() == Session.Click(old(State()), idx, pick)
    {
      if !gameActive || board[idx] != Empty {
        return;
      }
      Place(idx, currentPlayer);
      if CheckWin(board[..], currentPlayer) {
        EndGame(false);
      } else if IsFull(board[..]) {
        EndGame(true);
      } else {
        currentPlayer := Other(currentPlayer);
        if vsCpu && currentPlayer == O && gameActive {
          CpuMove(pick);
        }
      }
    }

    /** The reset-scores button. */
    method ResetScores()
      requires Valid()
      modifies this
      ensures Valid() && fresh(board)
      ensures State() == Session.ResetScores(old(State()))
    {
      scores := Session.Scores(0, 0, 0);
      Init();
    }

    /** The two-player button. */
    method SelectPlayerVsPlayer()
      requires Valid()
      modifies this
      ensures Valid() && fresh(board)
      ensures State() == Session.ChooseMode(old(State()), false)
    {
      vsCpu := false;
      Init();
    }

    /** The play-the-computer button. */
    method SelectVsCpu()
      requires Valid()
      modifies this
      ensures Valid() && fresh(board)
      ensures State() == Session.ChooseMode(old(State()), true)
    {
      vsCpu := true;
      Init();
    }

    /** A difficulty radio button. */
    method SetDifficulty(d: Session.Difficulty)
      requires Valid()
      modifies this
      ensures Valid() && board == old(board)
      ensures State() == Session.ChooseDifficulty(old(State()), d)
    {
      difficulty := d;
    }
  }
}

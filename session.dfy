/**
  The game session as a value: the board, whose turn it is, whether the game is still on,
  the scoreboard and the two settings (computer opponent on or off, its difficulty), with
  one function per thing that can happen to it. The class in `Controller` runs these steps on
  its fields and is proved to agree with them.
 */
module Session {
  import opened Optional
  import opened Board
  import opened Strategy

  datatype Difficulty = Easy | Medium | Hard

  /** Wins for X, wins for O, and draws. */
  datatype Scores = Scores(x: nat, o: nat, draws: nat)

  function Total(sc: Scores): nat
  {
    sc.x + sc.o + sc.draws
  }

  datatype State = State(
    board: Board,
    current: Player,
    active: bool,
    scores: Scores,
    vsCpu: bool,
    difficulty: Difficulty)

  /** A new game: empty board, X to move, game on; scores and settings are kept. */
  function NewGame(s: State): (r: State)
    ensures r.board == EmptyBoard && r.current == X && r.active
    ensures r.scores == s.scores && r.vsCpu == s.vsCpu && r.difficulty == s.difficulty
  {
    s.(board := EmptyBoard, current := X, active := true)
  }

  /** The page as it loads: no scores, two-player mode, easy level, and a new game. */
  function Start(): (r: State)
    ensures r.board == EmptyBoard && r.current == X && r.active
    ensures r.scores == Scores(0, 0, 0) && !r.vsCpu && r.difficulty == Easy
  {
    NewGame(State(EmptyBoard, X, false, Scores(0, 0, 0), false, Easy))
  }

  /** The reset-scores button: all three counters back to zero, and a new game. */
  function ResetScores(s: State): (r: State)
    ensures r.scores == Scores(0, 0, 0)
    ensures r.board == EmptyBoard && r.current == X && r.active
    ensures r.vsCpu == s.vsCpu && r.difficulty == s.difficulty
  {
    NewGame(s.(scores := Scores(0, 0, 0)))
  }

  /** The two mode buttons: set the computer opponent on or off, and start a new game. */
  function ChooseMode(s: State, vsCpu: bool): (r: State)
    ensures r.vsCpu == vsCpu && r.board == EmptyBoard && r.current == X && r.active
    ensures r.scores == s.scores && r.difficulty == s.difficulty
  {
    NewGame(s.(vsCpu := vsCpu))
  }

  /** A difficulty radio button: only the level changes; the game in progress goes on. */
  function ChooseDifficulty(s: State, d: Difficulty): (r: State)
    ensures r.difficulty == d && r.board == s.board && r.current == s.current
    ensures r.active == s.active && r.scores == s.scores && r.vsCpu == s.vsCpu
  {
    s.(difficulty := d)
  }

  /**
    The end of a game: it stops, and exactly one counter goes up by one: draws on a draw,
    otherwise the counter of the player whose turn it is.
   */
  function EndGame(s: State, draw: bool): (r: State)
    ensures !r.active && r.board == s.board && r.current == s.current
    ensures r.vsCpu == s.vsCpu && r.difficulty == s.difficulty
    ensures Total(r.scores) == Total(s.scores) + 1
    ensures r.scores.draws == s.scores.draws + (if draw then 1 else 0)
    ensures r.scores.x == s.scores.x + (if !draw && s.current == X then 1 else 0)
    ensures r.scores.o == s.scores.o + (if !draw && s.current == O then 1 else 0)
  {
    var sc := s.scores;
    s.(active := false,
       scores :=
         if draw then sc.(draws := sc.draws + 1)
         else match s.current
           case X => sc.(x := sc.x + 1)
           case O => sc.(o := sc.o + 1))
  }

  /**
    What follows a placement by `mover`, decided in this order: a line for the mover ends the
    game as a win; otherwise a full board ends it as a draw; otherwise the turn passes.
   */
  function Settle(s: State, mover: Player): (r: State)
    ensures r.board == s.board && r.vsCpu == s.vsCpu && r.difficulty == s.difficulty
    ensures r.active <==> s.active && !CheckWin(s.board, mover) && !IsFull(s.board)
    ensures CheckWin(s.board, mover) ==> r == EndGame(s, false)
    ensures !CheckWin(s.board, mover) && IsFull(s.board) ==> r == EndGame(s, true)
    ensures !CheckWin(s.board, mover) && !IsFull(s.board) ==>
              r.current == Other(mover) && r.scores == s.scores
  {
    if CheckWin(s.board, mover) then EndGame(s, false)
    else if IsFull(s.board) then EndGame(s, true)
    else s.(current := Other(mover))
  }

  /**
    The cell the computer (O) takes at level `d`: random on easy; on medium the first cell
    that wins at once, else random; on hard the best minimax cell.
   */
  function CpuChoice(b: Board, d: Difficulty, pick: nat): (i: nat)
    requires !IsFull(b)
    ensures i < 9 && b[i] == Empty
    ensures d == Easy ==> RandomMove(b, pick) == Some(i)
    ensures d == Medium && (exists j | 0 <= j < 9 :: WinsAt(b, O, j)) ==>
              WinsAt(b, O, i) && forall j | 0 <= j < i :: !WinsAt(b, O, j)
    ensures d == Medium && (forall j | 0 <= j < 9 :: !WinsAt(b, O, j)) ==>
              RandomMove(b, pick) == Some(i)
    ensures d == Hard ==> IsBestMove(b, O, i)
  {
    match d
    case Easy => RandomMove(b, pick).value
    case Medium =>
      (match GreedyMove(b, O)
       case Some(i) => i
       case None => RandomMove(b, pick).value)
    case Hard =>
      HardMoveSpec(b, O);
      HardMove(b, O).value
  }

  /**
    The computer's move, made when O is to move on a board with an empty cell: O's mark goes
    on the cell `CpuChoice` picks, nothing else on the board changes, and the outcome is
    settled: a line for O ends the game as O's win, otherwise a full board ends it as a draw,
    otherwise it is X's turn.
   */
  function ComputerMove(s: State, pick: nat): (r: State)
    requires !IsFull(s.board) && s.current == O
    ensures r.board == s.board[CpuChoice(s.board, s.difficulty, pick) := Mark(O)]
    ensures r.vsCpu == s.vsCpu && r.difficulty == s.difficulty
    ensures CheckWin(r.board, O) ==>
              !r.active && r.current == O && r.scores == s.scores.(o := s.scores.o + 1)
    ensures !CheckWin(r.board, O) && IsFull(r.board) ==>
              !r.active && r.current == O && r.scores == s.scores.(draws := s.scores.draws + 1)
    ensures !CheckWin(r.board, O) && !IsFull(r.board) ==>
              r.active == s.active && r.current == X && r.scores == s.scores
  {
    var i := CpuChoice(s.board, s.difficulty, pick);
    Settle(s.(board := s.board[i := Mark(O)]), O)
  }

  /**
    A click on cell `idx`. On a finished game or an occupied cell nothing at all changes.
    Otherwise the current player's mark goes there, the outcome is settled, and when the
    computer plays O and it is now O's turn, the computer moves straight after.
   */
  function Click(s: State, idx: nat, pick: nat): (r: State)
    requires idx < 9
    ensures !s.active || s.board[idx] != Empty ==> r == s
    ensures s.active && s.board[idx] == Empty ==>
      var b := s.board[idx := Mark(s.current)];
      r.board == b ||
      exists j | 0 <= j < 9 && b[j] == Empty :: r.board == b[j := Mark(O)]
    ensures s.active && s.board[idx] == Empty && !s.vsCpu ==>
      r.board == s.board[idx := Mark(s.current)] &&
      r == Settle(s.(board := s.board[idx := Mark(s.current)]), s.current)
    ensures s.active && s.board[idx] == Empty ==>
      var b := s.board[idx := Mark(s.current)];
      var reply := s.vsCpu && s.current == X && !CheckWin(b, X) && !IsFull(b);
      && (!reply ==> r == Settle(s.(board := b), s.current))
      && (reply ==> r == ComputerMove(s.(board := b, current := O), pick))
      && (reply ==> r.board == b[CpuChoice(b, s.difficulty, pick) := Mark(O)])
  {
    if !s.active || s.board[idx] != Empty then s
    else
      var t := Settle(s.(board := s.board[idx := Mark(s.current)]), s.current);
      if t.vsCpu && t.current == O && t.active then ComputerMove(t, pick) else t
  }

  /**
    A click changes the scoreboard only by ending a game, and then by exactly one point;
    no counter ever goes down.
   */
  lemma ClickScoring(s: State, idx: nat, pick: nat)
    requires idx < 9
    ensures var r := Click(s, idx, pick);
      && Total(r.scores) == Total(s.scores) + (if s.active && !r.active then 1 else 0)
      && r.scores.x >= s.scores.x && r.scores.o >= s.scores.o && r.scores.draws >= s.scores.draws
  {
  }

  /**
    The invariant of every session: X and O never both have a line; and while a game is on,
    neither has one, the board has an empty cell, and X has as many marks as O, one more
    exactly when it is O's turn.
   */
  ghost predicate Consistent(s: State)
  {
    && !(CheckWin(s.board, X) && CheckWin(s.board, O))
    && (s.active ==>
          && !CheckWin(s.board, X) && !CheckWin(s.board, O) && !IsFull(s.board)
          && Occurrences(s.board, Mark(X))
               == Occurrences(s.board, Mark(O)) + (if s.current == O then 1 else 0))
  }

  /** A legal placement by the player to move, and its outcome, keep the invariant. */
  lemma SettleConsistent(s: State, i: nat)
    requires Consistent(s) && s.active && i < 9 && s.board[i] == Empty
    ensures Consistent(Settle(s.(board := s.board[i := Mark(s.current)]), s.current))
  {
    var p := s.current;
    PlaceKeepsOtherWin(s.board, i, p);
    PlaceCounts(s.board, i, p);
    assert Other(p) == (if p == X then O else X);
  }

  /** A click, with the computer's reply it may trigger, keeps the invariant. */
  lemma ClickConsistent(s: State, idx: nat, pick: nat)
    requires idx < 9 && Consistent(s)
    ensures Consistent(Click(s, idx, pick))
  {
    if s.active && s.board[idx] == Empty {
      SettleConsistent(s, idx);
      var t := Settle(s.(board := s.board[idx := Mark(s.current)]), s.current);
      if t.vsCpu && t.current == O && t.active {
        var i := CpuChoice(t.board, t.difficulty, pick);
        SettleConsistent(t, i);
      }
    }
  }

  /** Loading the page, new games, the reset and the settings buttons keep the invariant. */
  lemma ControlsConsistent(s: State, vsCpu: bool, d: Difficulty)
    requires Consistent(s)
    ensures Consistent(Start()) && Consistent(NewGame(s)) && Consistent(ResetScores(s))
    ensures Consistent(ChooseMode(s, vsCpu)) && Consistent(ChooseDifficulty(s, d))
  {
    EmptyBoardFacts();
  }

  /** Hence, in every session, a click never leaves a board on which both players have a line. */
  lemma NoDoubleWin(s: State, idx: nat, pick: nat)
    requires idx < 9 && Consistent(s)
    ensures var r := Click(s, idx, pick); !(CheckWin(r.board, X) && CheckWin(r.board, O))
  {
    ClickConsistent(s, idx, pick);
  }
}

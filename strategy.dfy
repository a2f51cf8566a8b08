/**
  The computer opponent's three ways of choosing a cell: a random empty cell (easy), the first
  immediately winning cell (medium, falling back to random), and full minimax search (hard).

  The pure functions are the specification; `Minimax` and `FindBestMove` are the game's own
  in-place searches over the board array, proved to compute them and to give the board back
  exactly as they found it.
 */
module Strategy {
  import opened Optional
  import opened Board

  // ----- Easy: a random empty cell -----

  /**
    The cell the random choice lands on. The random draw is the caller's `pick`; reduced modulo
    the number of empty cells it plays the role of `floor(random() * empty.length)`.
   */
  function RandomMove(b: Board, pick: nat): (r: Option<nat>)
    ensures r.None? <==> IsFull(b)
    ensures r.Some? ==> r.value < 9 && b[r.value] == Empty
  {
    var empty := EmptyCells(b);
    if |empty| == 0 then None
    else
      assert empty[pick % |empty|] in empty;
      Some(empty[pick % |empty|])
  }

  lemma SmallMod(k: nat, n: nat)
    requires k < n
    ensures k % n == k
  {
  }

  /** Every empty cell is the random choice for some draw. */
  lemma RandomMoveCovers(b: Board, i: nat)
    requires i < 9 && b[i] == Empty
    ensures exists pick: nat :: RandomMove(b, pick) == Some(i)
  {
    var empty := EmptyCells(b);
    assert i in empty;
    var k: nat :| k < |empty| && empty[k] == i;
    SmallMod(k, |empty|);
    assert RandomMove(b, k) == Some(i);
  }

  // ----- Medium: the first immediate win -----

  /** Placing `p`'s mark on the empty cell `i` completes a line for `p`. */
  predicate WinsAt(b: Board, p: Player, i: nat)
    requires i < 9
  {
    b[i] == Empty && CheckWin(b[i := Mark(p)], p)
  }

  /** The greedy scan from cell `i` on: the first cell where `p` wins at once, if any. */
  function FirstWinFrom(b: Board, p: Player, i: nat): (r: Option<nat>)
    requires i <= 9
    decreases 9 - i
    ensures r.Some? ==> i <= r.value < 9 && WinsAt(b, p, r.value)
    ensures forall j | i <= j < 9 && (r.None? || j < r.value) :: !WinsAt(b, p, j)
  {
    if i == 9 then None
    else if b[i] == Empty && CheckWin(b[i := Mark(p)], p) then Some(i)
    else FirstWinFrom(b, p, i + 1)
  }

  /** The medium strategy's choice: the lowest cell that wins at once, or none. */
  function GreedyMove(b: Board, p: Player): (r: Option<nat>)
    ensures r.Some? ==> r.value < 9 && WinsAt(b, p, r.value)
    ensures forall j | 0 <= j < 9 && (r.None? || j < r.value) :: !WinsAt(b, p, j)
  {
    FirstWinFrom(b, p, 0)
  }

  /**
    The medium level plays for its own win and does not block: with X threatening cell 2 and
    O able to complete the middle row, it takes cell 5.
   */
  lemma GreedyDoesNotBlock()
    ensures GreedyMove([Mark(X), Mark(X), Empty, Mark(O), Mark(O), Empty, Empty, Empty, Empty], O) == Some(5)
  {
    var b: Board := [Mark(X), Mark(X), Empty, Mark(O), Mark(O), Empty, Empty, Empty, Empty];
    CheckWinIff(b[2 := Mark(O)], O);
    CheckWinIff(b[5 := Mark(O)], O);
    assert FirstWinFrom(b, O, 5) == Some(5);
    assert FirstWinFrom(b, O, 2) == FirstWinFrom(b, O, 3);
  }

  // ----- Hard: minimax -----

  /** Integer stand-ins for the search's -Infinity and +Infinity, far outside every score. */
  const NegInf: int := -1000
  const PosInf: int := 1000

  function Max(a: int, b: int): int { if a >= b then a else b }
  function Min(a: int, b: int): int { if a <= b then a else b }

  /** The starting value of a layer's accumulator. */
  function Worst(maximizing: bool): int
  {
    if maximizing then NegInf else PosInf
  }

  /** The mark a layer tries: O on maximizing layers, X on minimizing ones. */
  function Mover(maximizing: bool): Player
  {
    if maximizing then O else X
  }

  /**
    The minimax value of `b`, `depth` plies below the move being judged: O's line scores
    `10 - depth`, X's line `depth - 10`, a full board 0, and otherwise the best child for the
    layer's player.
   */
  function Score(b: Board, depth: int, maximizing: bool): int
    decreases EmptyCount(b), 2
  {
    if CheckWin(b, O) then 10 - depth
    else if CheckWin(b, X) then depth - 10
    else if IsFull(b) then 0
    else BestChild(b, depth, maximizing, 0, Worst(maximizing))
  }

  /** The value of the child where the layer's player marks the empty cell `i`. */
  function ChildScore(b: Board, depth: int, maximizing: bool, i: nat): int
    requires i < 9 && b[i] == Empty
    decreases EmptyCount(b), 0
  {
    PlaceCounts(b, i, Mover(maximizing));
    Score(b[i := Mark(Mover(maximizing))], depth + 1, !maximizing)
  }

  /** The search loop over cells `i..8`, folding each child's value into `best`. */
  function BestChild(b: Board, depth: int, maximizing: bool, i: nat, best: int): int
    requires i <= 9
    decreases EmptyCount(b), 1, 9 - i
  {
    if i == 9 then best
    else if b[i] == Empty then
      var s := ChildScore(b, depth, maximizing, i);
      BestChild(b, depth, maximizing, i + 1, if maximizing then Max(s, best) else Min(s, best))
    else BestChild(b, depth, maximizing, i + 1, best)
  }

  /**
    The fold is the extremum of its start value and the children it visits: on a maximizing
    layer at least each of them, on a minimizing one at most each, and equal to one of them.
   */
  lemma {:induction false} BestChildExtremum(b: Board, depth: int, maximizing: bool, i: nat, best: int)
    requires i <= 9
    ensures var r := BestChild(b, depth, maximizing, i, best);
      && (if maximizing then r >= best else r <= best)
      && (forall j | i <= j < 9 && b[j] == Empty ::
            if maximizing then ChildScore(b, depth, maximizing, j) <= r
            else ChildScore(b, depth, maximizing, j) >= r)
      && (r == best || exists j | i <= j < 9 && b[j] == Empty :: r == ChildScore(b, depth, maximizing, j))
    decreases 9 - i
  {
    if i < 9 {
      if b[i] == Empty {
        var s := ChildScore(b, depth, maximizing, i);
        BestChildExtremum(b, depth, maximizing, i + 1, if maximizing then Max(s, best) else Min(s, best));
      } else {
        BestChildExtremum(b, depth, maximizing, i + 1, best);
      }
    }
  }

  /**
    Scores stay within [-10, 10] whenever the plies still possible cannot push `depth`
    beyond 20; in particular on every position reached from a real game.
   */
  lemma {:induction false} ScoreBounds(b: Board, depth: int, maximizing: bool)
    requires 0 <= depth && depth + EmptyCount(b) <= 20
    ensures -10 <= Score(b, depth, maximizing) <= 10
    decreases EmptyCount(b), 2
  {
    if !CheckWin(b, O) && !CheckWin(b, X) && !IsFull(b) {
      BestChildBounds(b, depth, maximizing, 0, Worst(maximizing));
      var j :| 0 <= j < 9 && b[j] == Empty;
    }
  }

  lemma {:induction false} BestChildBounds(b: Board, depth: int, maximizing: bool, i: nat, best: int)
    requires i <= 9 && 0 <= depth && depth + EmptyCount(b) <= 20
    requires -10 <= best <= 10 || best == Worst(maximizing)
    ensures var r := BestChild(b, depth, maximizing, i, best);
      (-10 <= r <= 10) || (r == best && forall j | i <= j < 9 :: b[j] != Empty)
    decreases EmptyCount(b), 1, 9 - i
  {
    if i < 9 {
      if b[i] == Empty {
        var m := Mover(maximizing);
        PlaceCounts(b, i, m);
        ScoreBounds(b[i := Mark(m)], depth + 1, !maximizing);
        var s := ChildScore(b, depth, maximizing, i);
        BestChildBounds(b, depth, maximizing, i + 1, if maximizing then Max(s, best) else Min(s, best));
      } else {
        BestChildBounds(b, depth, maximizing, i + 1, best);
      }
    }
  }

  /**
    On an unfinished board the score is the maximum (maximizing layer) or the minimum
    (minimizing layer) of the scores of the boards one mark further on.
   */
  lemma ScoreIsMinimax(b: Board, depth: int, maximizing: bool)
    requires 0 <= depth && depth + EmptyCount(b) <= 20
    requires !CheckWin(b, O) && !CheckWin(b, X) && !IsFull(b)
    ensures var r := Score(b, depth, maximizing);
      && (forall j | 0 <= j < 9 && b[j] == Empty ::
            if maximizing then ChildScore(b, depth, maximizing, j) <= r
            else ChildScore(b, depth, maximizing, j) >= r)
      && (exists j | 0 <= j < 9 && b[j] == Empty :: r == ChildScore(b, depth, maximizing, j))
  {
    var r := BestChild(b, depth, maximizing, 0, Worst(maximizing));
    assert Score(b, depth, maximizing) == r;
    BestChildExtremum(b, depth, maximizing, 0, Worst(maximizing));
    SomeChildInRange(b, depth, maximizing);
  }

  /** An unfinished board has a child, and its score is a real score, not the start value. */
  lemma SomeChildInRange(b: Board, depth: int, maximizing: bool)
    requires 0 <= depth && depth + EmptyCount(b) <= 20 && !IsFull(b)
    ensures exists j | 0 <= j < 9 && b[j] == Empty :: -10 <= ChildScore(b, depth, maximizing, j) <= 10
  {
    var j :| 0 <= j < 9 && b[j] == Empty;
    var m := Mover(maximizing);
    PlaceCounts(b, j, m);
    ScoreBounds(b[j := Mark(m)], depth + 1, !maximizing);
    assert -10 <= ChildScore(b, depth, maximizing, j) <= 10;
  }

  /** The score the hard strategy gives to `p` marking cell `i`: X answers first. */
  function RootScore(b: Board, p: Player, i: nat): int
    requires i < 9
  {
    Score(b[i := Mark(p)], 0, false)
  }

  /** The root loop from cell `i` on, carrying the best move so far and its score. */
  function BestMoveFrom(b: Board, p: Player, i: nat, move: Option<nat>, bestScore: int): Option<nat>
    requires i <= 9
    decreases 9 - i
  {
    if i == 9 then move
    else if b[i] == Empty then
      var s := RootScore(b, p, i);
      if s > bestScore then BestMoveFrom(b, p, i + 1, Some(i), s)
      else BestMoveFrom(b, p, i + 1, move, bestScore)
    else BestMoveFrom(b, p, i + 1, move, bestScore)
  }

  /** The hard strategy's choice for `p`. */
  function HardMove(b: Board, p: Player): Option<nat>
  {
    BestMoveFrom(b, p, 0, None, NegInf)
  }

  /** `m` is an empty cell of greatest root score, and the lowest such cell. */
  ghost predicate IsBestMove(b: Board, p: Player, m: nat)
  {
    && m < 9 && b[m] == Empty
    && (forall j | 0 <= j < 9 && b[j] == Empty :: RootScore(b, p, j) <= RootScore(b, p, m))
    && (forall j | 0 <= j < m && b[j] == Empty :: RootScore(b, p, j) < RootScore(b, p, m))
  }

  /** What the root loop knows after looking at the cells below `i`. */
  ghost predicate RootScanned(b: Board, p: Player, i: nat, move: Option<nat>, bestScore: int)
    requires i <= 9
  {
    match move
    case None =>
      bestScore == NegInf && forall j | 0 <= j < i :: b[j] != Empty
    case Some(m) =>
      && m < i && b[m] == Empty && bestScore == RootScore(b, p, m)
      && (forall j | 0 <= j < i && b[j] == Empty :: RootScore(b, p, j) <= bestScore)
      && (forall j | 0 <= j < m && b[j] == Empty :: RootScore(b, p, j) < bestScore)
  }

  /** One step of the root loop at an empty cell keeps what it knows. */
  lemma RootScannedStep(b: Board, p: Player, i: nat, move: Option<nat>, bestScore: int, better: bool)
    requires i < 9 && b[i] == Empty
    requires RootScanned(b, p, i, move, bestScore)
    requires RootScore(b, p, i) > NegInf
    requires better <==> RootScore(b, p, i) > bestScore
    ensures better ==> RootScanned(b, p, i + 1, Some(i), RootScore(b, p, i))
    ensures !better ==> RootScanned(b, p, i + 1, move, bestScore)
  {
  }

  lemma {:induction false} BestMoveFromSpec(b: Board, p: Player, i: nat, move: Option<nat>, bestScore: int)
    requires i <= 9
    requires RootScanned(b, p, i, move, bestScore)
    requires forall j | 0 <= j < 9 && b[j] == Empty :: RootScore(b, p, j) > NegInf
    ensures var r := BestMoveFrom(b, p, i, move, bestScore);
      (r.None? ==> IsFull(b)) && (r.Some? ==> IsBestMove(b, p, r.value))
    decreases 9 - i
  {
    if i < 9 {
      if b[i] == Empty {
        var s := RootScore(b, p, i);
        if s > bestScore {
          RootScannedStep(b, p, i, move, bestScore, true);
          BestMoveFromSpec(b, p, i + 1, Some(i), s);
        } else {
          RootScannedStep(b, p, i, move, bestScore, false);
          BestMoveFromSpec(b, p, i + 1, move, bestScore);
        }
      } else {
        assert RootScanned(b, p, i + 1, move, bestScore);
        BestMoveFromSpec(b, p, i + 1, move, bestScore);
      }
    }
  }

  /**
    The hard strategy finds a move exactly when the board has an empty cell, and the move is
    the lowest empty cell whose minimax score is greatest.
   */
  lemma HardMoveSpec(b: Board, p: Player)
    ensures HardMove(b, p).None? <==> IsFull(b)
    ensures HardMove(b, p).Some? ==> IsBestMove(b, p, HardMove(b, p).value)
  {
    forall j | 0 <= j < 9 && b[j] == Empty ensures RootScore(b, p, j) > NegInf {
      PlaceCounts(b, j, p);
      ScoreBounds(b[j := Mark(p)], 0, false);
    }
    BestMoveFromSpec(b, p, 0, None, NegInf);
  }

  // ----- The searches as the game runs them, in place on the board array -----

  /**
    The game's recursive minimax: it marks each empty cell in turn, scores the result, and
    clears the cell again.
   */
  method Minimax(b: array<Cell>, depth: int, maximizing: bool) returns (score: int)
    requires b.Length == 9
    modifies b
    ensures b[..] == old(b[..])
    ensures score == Score(old(b[..]), depth, maximizing)
    decreases EmptyCount(b[..])
  {
    if CheckWin(b[..], O) { return 10 - depth; }
    if CheckWin(b[..], X) { return depth - 10; }
    if IsFull(b[..]) { return 0; }

    ghost var start: Board := b[..];
    var mark := Mark(Mover(maximizing));
    var best := Worst(maximizing);
    for i := 0 to 9
      invariant b[..] == start
      invariant BestChild(start, depth, maximizing, i, best) == Score(start, depth, maximizing)
    {
      if b[i] == Empty {
        b[i] := mark;
        PlaceCounts(start, i, Mover(maximizing));
        assert b[..] == start[i := mark];
        var s := Minimax(b, depth + 1, !maximizing);
        b[i] := Empty;
        assert b[..] == start;
        best := if maximizing then Max(s, best) else Min(s, best);
      }
    }
    score := best;
  }

  /**
    The game's move search for `player`: in hard mode the best minimax move, otherwise the
    first cell that wins at once. Either way the board is restored before returning.
   */
  method FindBestMove(b: array<Cell>, player: Player, hardMode: bool) returns (move: Option<nat>)
    requires b.Length == 9
    modifies b
    ensures b[..] == old(b[..])
    ensures move == if hardMode then HardMove(old(b[..]), player) else GreedyMove(old(b[..]), player)
  {
    ghost var start: Board := b[..];
    if hardMode {
      var bestScore := NegInf;
      move := None;
      for i := 0 to 9
        invariant b[..] == start
        invariant BestMoveFrom(start, player, i, move, bestScore) == HardMove(start, player)
      {
        if b[i] == Empty {
          b[i] := Mark(player);
          assert b[..] == start[i := Mark(player)];
          var score := Minimax(b, 0, false);
          b[i] := Empty;
          assert b[..] == start;
          if score > bestScore {
            bestScore := score;
            move := Some(i);
          }
        }
      }
    } else {
      for i := 0 to 9
        invariant b[..] == start
        invariant FirstWinFrom(start, player, i) == GreedyMove(start, player)
      {
        if b[i] == Empty {
          b[i] := Mark(player);
          assert b[..] == start[i := Mark(player)];
          if CheckWin(b[..], player) {
            b[i] := Empty;
            assert b[..] == start;
            return Some(i);
          }
          b[i] := Empty;
          assert b[..] == start;
        }
      }
      move := None;
    }
  }
}

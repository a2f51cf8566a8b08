/**
  The 3x3 board: nine cells in row-major order (0 1 2 / 3 4 5 / 6 7 8), each empty or holding
  a player's mark, the eight fixed winning lines, and the win and fullness tests over them.
 */
module Board {

  datatype Player = X | O

  /** A cell: `null` in the game, or the mark "X" / "O". */
  datatype Cell = Empty | Mark(player: Player)

  /** The player who moves after `p`. */
  function Other(p: Player): (q: Player)
    ensures q != p
  {
    if p == X then O else X
  }

  type Board = b: seq<Cell> | |b| == 9
    witness [Empty, Empty, Empty, Empty, Empty, Empty, Empty, Empty, Empty]

  /** The board a new game starts from. */
  const EmptyBoard: Board := [Empty, Empty, Empty, Empty, Empty, Empty, Empty, Empty, Empty]

  /** The winning lines, in the game's own order: three rows, three columns, two diagonals. */
  const Lines: seq<seq<nat>> :=
    [[0, 1, 2], [3, 4, 5], [6, 7, 8],
     [0, 3, 6], [1, 4, 7], [2, 5, 8],
     [0, 4, 8], [2, 4, 6]]

  /** Every cell of `line` holds `p`'s mark (an index off the board never does). */
  predicate Owns(b: Board, line: seq<nat>, p: Player)
  {
    forall k | 0 <= k < |line| :: line[k] < 9 && b[line[k]] == Mark(p)
  }

  /** Some line among `Lines[k..]` is owned by `p`. */
  predicate AnyLineFrom(b: Board, p: Player, k: nat)
    decreases |Lines| - k
  {
    k < |Lines| && (Owns(b, Lines[k], p) || AnyLineFrom(b, p, k + 1))
  }

  /** `p` has three in a row somewhere on `b`. */
  predicate CheckWin(b: Board, p: Player)
  {
    AnyLineFrom(b, p, 0)
  }

  /** Cells `i`, `j` and `k` all hold `p`'s mark. */
  ghost predicate Three(b: Board, p: Player, i: nat, j: nat, k: nat)
    requires i < 9 && j < 9 && k < 9
  {
    b[i] == Mark(p) && b[j] == Mark(p) && b[k] == Mark(p)
  }

  lemma OwnsTriple(b: Board, line: seq<nat>, p: Player)
    requires |line| == 3 && line[0] < 9 && line[1] < 9 && line[2] < 9
    ensures Owns(b, line, p) <==> Three(b, p, line[0], line[1], line[2])
  {
    if Three(b, p, line[0], line[1], line[2]) {
      forall k | 0 <= k < |line| ensures line[k] < 9 && b[line[k]] == Mark(p) {
        assert k == 0 || k == 1 || k == 2;
      }
    }
  }

  /** The win test agrees with the eight lines written out one by one. */
  lemma {:induction false} CheckWinIff(b: Board, p: Player)
    ensures CheckWin(b, p) <==>
      Three(b, p, 0, 1, 2) || Three(b, p, 3, 4, 5) || Three(b, p, 6, 7, 8) ||
      Three(b, p, 0, 3, 6) || Three(b, p, 1, 4, 7) || Three(b, p, 2, 5, 8) ||
      Three(b, p, 0, 4, 8) || Three(b, p, 2, 4, 6)
  {
    OwnsTriple(b, Lines[0], p);
    OwnsTriple(b, Lines[1], p);
    OwnsTriple(b, Lines[2], p);
    OwnsTriple(b, Lines[3], p);
    OwnsTriple(b, Lines[4], p);
    OwnsTriple(b, Lines[5], p);
    OwnsTriple(b, Lines[6], p);
    OwnsTriple(b, Lines[7], p);
    assert AnyLineFrom(b, p, 8) == false;
    assert AnyLineFrom(b, p, 7) == Owns(b, Lines[7], p);
    assert AnyLineFrom(b, p, 6) == (Owns(b, Lines[6], p) || AnyLineFrom(b, p, 7));
    assert AnyLineFrom(b, p, 5) == (Owns(b, Lines[5], p) || AnyLineFrom(b, p, 6));
    assert AnyLineFrom(b, p, 4) == (Owns(b, Lines[4], p) || AnyLineFrom(b, p, 5));
    assert AnyLineFrom(b, p, 3) == (Owns(b, Lines[3], p) || AnyLineFrom(b, p, 4));
    assert AnyLineFrom(b, p, 2) == (Owns(b, Lines[2], p) || AnyLineFrom(b, p, 3));
    assert AnyLineFrom(b, p, 1) == (Owns(b, Lines[1], p) || AnyLineFrom(b, p, 2));
  }

  /** The numbers (positions in `Lines`) of the lines at or after `k` that `p` owns, ascending. */
  function WinningLinesFrom(b: Board, p: Player, k: nat): (r: seq<nat>)
    decreases |Lines| - k
    ensures forall n :: n in r <==> k <= n < |Lines| && Owns(b, Lines[n], p)
    ensures forall i, j | 0 <= i < j < |r| :: r[i] < r[j]
    ensures |r| > 0 <==> AnyLineFrom(b, p, k)
  {
    if k >= |Lines| then []
    else
      var rest := WinningLinesFrom(b, p, k + 1);
      if Owns(b, Lines[k], p) then
        assert forall j | 0 <= j < |rest| :: rest[j] in rest;
        [k] + rest
      else rest
  }

  /** Every line `p` owns, as the win highlighting picks them out; non-empty exactly on a win. */
  function WinningLines(b: Board, p: Player): (r: seq<nat>)
    ensures forall n :: n in r <==> 0 <= n < |Lines| && Owns(b, Lines[n], p)
    ensures forall i, j | 0 <= i < j < |r| :: r[i] < r[j]
    ensures r != [] <==> CheckWin(b, p)
  {
    WinningLinesFrom(b, p, 0)
  }

  /** No cell is empty. */
  predicate IsFull(b: Board)
  {
    forall i | 0 <= i < 9 :: b[i] != Empty
  }

  /** How many marks of a kind a board holds. */
  function Occurrences(b: Board, c: Cell): nat
  {
    multiset(b)[c]
  }

  lemma {:induction false} OccurrencesAtMost(s: seq<Cell>, c: Cell)
    ensures multiset(s)[c] <= |s|
  {
    if s != [] {
      assert s == s[..|s| - 1] + [s[|s| - 1]];
      OccurrencesAtMost(s[..|s| - 1], c);
    }
  }

  /** The number of empty cells: the quantity every search step decreases. */
  function EmptyCount(b: Board): (n: nat)
    ensures n <= 9
    ensures n == 0 <==> IsFull(b)
  {
    OccurrencesAtMost(b, Empty);
    assert Empty in multiset(b) <==> Empty in b;
    Occurrences(b, Empty)
  }

  /** Placing a mark on an empty cell uses up exactly one empty cell and adds one mark. */
  lemma PlaceCounts(b: Board, i: nat, p: Player)
    requires i < 9 && b[i] == Empty
    ensures EmptyCount(b[i := Mark(p)]) == EmptyCount(b) - 1
    ensures Occurrences(b[i := Mark(p)], Mark(p)) == Occurrences(b, Mark(p)) + 1
    ensures Occurrences(b[i := Mark(p)], Mark(Other(p))) == Occurrences(b, Mark(Other(p)))
  {
  }

  /** The indices at or after `i` of the empty cells, ascending. */
  function EmptyFrom(b: Board, i: nat): (r: seq<nat>)
    requires i <= 9
    decreases 9 - i
    ensures forall k :: k in r <==> i <= k < 9 && b[k] == Empty
    ensures forall x, y | 0 <= x < y < |r| :: r[x] < r[y]
  {
    if i == 9 then []
    else
      var rest := EmptyFrom(b, i + 1);
      if b[i] == Empty then
        assert forall j | 0 <= j < |rest| :: rest[j] in rest;
        [i] + rest
      else rest
  }

  /** The indices of the empty cells, ascending: empty exactly when the board is full. */
  function EmptyCells(b: Board): (r: seq<nat>)
    ensures forall k :: k in r <==> 0 <= k < 9 && b[k] == Empty
    ensures forall x, y | 0 <= x < y < |r| :: r[x] < r[y]
    ensures r == [] <==> IsFull(b)
  {
    var r := EmptyFrom(b, 0);
    assert r != [] ==> r[0] in r;
    r
  }

  /**
    Putting `p`'s mark anywhere never gives the other player a line: a line of `q` after the
    placement was already there before it.
   */
  lemma {:induction false} PlaceKeepsOtherLines(b: Board, i: nat, p: Player, q: Player, k: nat)
    requires i < 9 && p != q
    requires AnyLineFrom(b[i := Mark(p)], q, k)
    ensures AnyLineFrom(b, q, k)
    decreases |Lines| - k
  {
    var b' := b[i := Mark(p)];
    if Owns(b', Lines[k], q) {
      var line := Lines[k];
      forall n | 0 <= n < |line| ensures line[n] < 9 && b[line[n]] == Mark(q) {
        assert b'[line[n]] == Mark(q);
      }
    } else {
      PlaceKeepsOtherLines(b, i, p, q, k + 1);
    }
  }

  lemma PlaceKeepsOtherWin(b: Board, i: nat, p: Player)
    requires i < 9
    ensures CheckWin(b[i := Mark(p)], Other(p)) ==> CheckWin(b, Other(p))
  {
    if CheckWin(b[i := Mark(p)], Other(p)) {
      PlaceKeepsOtherLines(b, i, p, Other(p), 0);
    }
  }

  lemma EmptyBoardFacts()
    ensures !CheckWin(EmptyBoard, X) && !CheckWin(EmptyBoard, O)
    ensures !IsFull(EmptyBoard) && EmptyCount(EmptyBoard) == 9
    ensures Occurrences(EmptyBoard, Mark(X)) == 0 && Occurrences(EmptyBoard, Mark(O)) == 0
  {
    CheckWinIff(EmptyBoard, X);
    CheckWinIff(EmptyBoard, O);
    assert EmptyBoard[0] == Empty;
    assert multiset(EmptyBoard) == multiset{Empty, Empty, Empty, Empty, Empty, Empty, Empty, Empty, Empty};
  }
}

/** The rules of the game: the cells of the 3x3 board, the eight winning
    lines, winner detection and the status line shown above the board. */
module Rules {

  /** A square of the board. `Empty` stands for the `null` of an unplayed
      square (and for the `null` "no winner" answer of winner detection). */
  datatype Cell = Empty | X | O

  /** A square index, 0..8 in row-major order. */
  type Index = i: nat | i < 9

  const EmptyBoard: seq<Cell> := [Empty, Empty, Empty, Empty, Empty, Empty, Empty, Empty, Empty]

  /** A board is always exactly nine squares. */
  type Board = b: seq<Cell> | |b| == 9 witness [Empty, Empty, Empty, Empty, Empty, Empty, Empty, Empty, Empty]

  /** The winning lines, in the order in which they are scanned:
      three rows, three columns, two diagonals. */
  const Lines: seq<(Index, Index, Index)> :=
    [(0, 1, 2), (3, 4, 5), (6, 7, 8),
     (0, 3, 6), (1, 4, 7), (2, 5, 8),
     (0, 4, 8), (2, 4, 6)]

  /** Line `k` is held: its first square is marked and the other two hold the same mark. */
  predicate Wins(b: Board, k: nat)
    requires k < |Lines|
  {
    b[Lines[k].0] != Empty && b[Lines[k].0] == b[Lines[k].1] && b[Lines[k].0] == b[Lines[k].2]
  }

  /** The mark in the first square of line `k`. */
  function LineMark(b: Board, k: nat): Cell
    requires k < |Lines|
  {
    b[Lines[k].0]
  }

  /** Line `k` is the first held line in scan order. */
  predicate FirstWin(b: Board, k: nat)
  {
    k < |Lines| && Wins(b, k) && forall j :: 0 <= j < k ==> !Wins(b, j)
  }

  /** The scan of the lines from position `k0` on: the mark of the first held
      line at or after `k0`, or `Empty` when none is held. */
  function WinnerFrom(b: Board, k0: nat): (r: Cell)
    requires k0 <= |Lines|
    ensures r == Empty <==> forall k :: k0 <= k < |Lines| ==> !Wins(b, k)
    ensures forall k :: k0 <= k < |Lines| && Wins(b, k) && (forall j :: k0 <= j < k ==> !Wins(b, j))
              ==> r == LineMark(b, k)
    decreases |Lines| - k0
  {
    if k0 == |Lines| then Empty
    else if Wins(b, k0) then LineMark(b, k0)
    else WinnerFrom(b, k0 + 1)
  }

  /** The winner of a board: the mark of the first held line in scan order,
      or `Empty` when no line is held. A full board without a held line has
      no winner; there is no notion of a draw. */
  function Winner(b: Board): (r: Cell)
    ensures r == Empty <==> forall k :: 0 <= k < |Lines| ==> !Wins(b, k)
    ensures forall k :: FirstWin(b, k) ==> r == LineMark(b, k)
  {
    WinnerFrom(b, 0)
  }

  /** Winner detection spelled out line by line. */
  lemma WinnerByLines(b: Board)
    ensures Winner(b) == Empty <==>
      !Wins(b, 0) && !Wins(b, 1) && !Wins(b, 2) && !Wins(b, 3) &&
      !Wins(b, 4) && !Wins(b, 5) && !Wins(b, 6) && !Wins(b, 7)
  {
  }

  /** If any line is held, there is a first held one. */
  lemma FirstWinExists(b: Board, w: nat)
    requires w < |Lines| && Wins(b, w)
    ensures exists k: nat :: FirstWin(b, k)
  {
    var k := 0;
    while !Wins(b, k)
      invariant k <= w
      invariant forall j :: 0 <= j < k ==> !Wins(b, j)
      decreases w - k
    {
      k := k + 1;
    }
    assert FirstWin(b, k);
  }

  /** A reported winner is justified: some line, the first held one in scan
      order, has all three squares equal to the reported mark. */
  lemma WinnerSound(b: Board)
    ensures Winner(b) != Empty ==>
      exists k: nat :: FirstWin(b, k) && Winner(b) == b[Lines[k].0] == b[Lines[k].1] == b[Lines[k].2]
  {
    if Winner(b) != Empty {
      var w :| 0 <= w < |Lines| && Wins(b, w);
      FirstWinExists(b, w);
    }
  }

  /** Winner detection as the loop that scans the lines and returns at the
      first held one. */
  method CalculateWinner(squares: Board) returns (r: Cell)
    ensures r == Winner(squares)
    ensures r != Empty ==> exists k: nat :: FirstWin(squares, k) && r == LineMark(squares, k)
  {
    var i := 0;
    while i < |Lines|
      invariant 0 <= i <= |Lines|
      invariant forall j :: 0 <= j < i ==> !Wins(squares, j)
      invariant Winner(squares) == WinnerFrom(squares, i)
    {
      var (a, b, c) := Lines[i];
      if squares[a] != Empty && squares[a] == squares[b] && squares[a] == squares[c] {
        assert FirstWin(squares, i);
        return squares[a];
      }
      i := i + 1;
    }
    return Empty;
  }

  /** A full board on which no line is held: the game stops without any
      draw being reported. */
  lemma FullBoardWithoutWinner()
    ensures var b: Board := [X, O, X, X, O, O, O, X, X];
      (forall i :: 0 <= i < 9 ==> b[i] != Empty) && Winner(b) == Empty
  {
    var b: Board := [X, O, X, X, O, O, O, X, X];
    assert forall k :: 0 <= k < |Lines| ==> !Wins(b, k) by {
      forall k | 0 <= k < |Lines| ensures !Wins(b, k) {
        assert k in {0, 1, 2, 3, 4, 5, 6, 7};
      }
    }
  }

  /** The mark of the player whose turn it is. */
  function PlayerMark(xIsNext: bool): Cell
  {
    if xIsNext then X else O
  }

  /** The one-letter name of a mark. */
  function Symbol(m: Cell): char
    requires m != Empty
  {
    if m == X then 'X' else 'O'
  }

  /** The board after a move: `before` with the empty square `i` set to `m`,
      every other square unchanged. */
  ghost predicate IsMoveAt(before: Board, after: Board, i: Index, m: Cell)
  {
    before[i] == Empty && after == before[i := m]
  }

  /** `after` arises from `before` by one move of `m` into a previously empty square. */
  ghost predicate IsMove(before: Board, after: Board, m: Cell)
  {
    exists i: Index :: IsMoveAt(before, after, i, m)
  }

  /** The number of squares of `s` that hold `m`. */
  function Count(s: seq<Cell>, m: Cell): (n: nat)
    ensures n <= |s|
  {
    if s == [] then 0 else Count(s[..|s| - 1], m) + (if s[|s| - 1] == m then 1 else 0)
  }

  /** On a sequence whose squares all hold `c`, `c` is counted on every
      square and any other mark on none. */
  lemma {:induction false} CountUniform(s: seq<Cell>, c: Cell, m: Cell)
    requires forall k :: 0 <= k < |s| ==> s[k] == c
    ensures Count(s, m) == if m == c then |s| else 0
    decreases |s|
  {
    if s != [] {
      CountUniform(s[..|s| - 1], c, m);
    }
  }

  /** Marking an empty square adds one to the count of the mark and takes
      one from the count of empty squares; other counts are unchanged. */
  lemma {:induction false} CountMark(s: seq<Cell>, i: nat, m: Cell, c: Cell)
    requires i < |s| && s[i] == Empty && m != Empty
    ensures Count(s[i := m], c) ==
      Count(s, c) + (if c == m then 1 else 0) - (if c == Empty then 1 else 0)
    decreases |s|
  {
    var t := s[i := m];
    var n := |s| - 1;
    if i == n {
      assert t[..n] == s[..n];
    } else {
      assert t[..n] == s[..n][i := m];
      CountMark(s[..n], i, m, c);
    }
  }

  /** The status line: the winner when there is one, otherwise the player to move. */
  function Status(squares: Board, xIsNext: bool): (r: string)
    ensures |r| > 8
    ensures r[..8] == "Winner: " <==> Winner(squares) != Empty
    ensures Winner(squares) != Empty ==> |r| == 9
    ensures Winner(squares) == Empty ==> |r| == 14 && r[..13] == "Next player: "
    ensures r[|r| - 1] ==
      Symbol(if Winner(squares) != Empty then Winner(squares) else PlayerMark(xIsNext))
  {
    var winner := Winner(squares);
    if winner != Empty then "Winner: " + [Symbol(winner)]
    else
      var r := "Next player: " + [if xIsNext then 'X' else 'O'];
      assert r[0] != "Winner: "[0];
      r
  }

  /** The status line tells the outcome: equal status lines mean the same
      winner and, while there is none, the same player to move. */
  lemma StatusDetermines(b1: Board, x1: bool, b2: Board, x2: bool)
    requires Status(b1, x1) == Status(b2, x2)
    ensures Winner(b1) == Winner(b2)
    ensures Winner(b1) == Empty ==> x1 == x2
  {
    var s := Status(b1, x1);
    assert s[..8] == Status(b2, x2)[..8];
    assert s[|s| - 1] == Status(b2, x2)[|s| - 1];
  }
}

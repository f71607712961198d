/** The game: the recorded boards, the move being viewed, playing a square
    and travelling back through the recorded boards. */
module History {
  import opened Rules
  import opened Labels

  /** The mark placed by the move made from history entry `move`:
      X on even entries, O on odd ones. */
  function MarkFor(move: nat): Cell
  {
    PlayerMark(move % 2 == 0)
  }

  /** A history that play can produce: it starts at the empty board, and
      each entry arises from the one before by a single move of the mark
      whose turn it was, made while that board had no winner. */
  ghost predicate IsPlayed(h: seq<Board>)
  {
    |h| >= 1 && h[0] == EmptyBoard && forall k :: 0 < k < |h| ==> PlayedStep(h, k)
  }

  /** Entry `k` arises from entry `k - 1` by a move of the player to move there,
      made while entry `k - 1` had no winner. */
  ghost predicate PlayedStep(h: seq<Board>, k: nat)
    requires 0 < k < |h|
  {
    Winner(h[k - 1]) == Empty && IsMove(h[k - 1], h[k], MarkFor(k - 1))
  }

  /** Playing from any entry of a played history gives a played history:
      the entries up to that one are kept and the new board is a legal move
      from it. */
  lemma PlayedExtend(h: seq<Board>, at: nat, next: Board)
    requires IsPlayed(h) && at < |h|
    requires Winner(h[at]) == Empty && IsMove(h[at], next, MarkFor(at))
    ensures IsPlayed(h[..at + 1] + [next])
  {
    var h' := h[..at + 1] + [next];
    assert h'[0] == h[0];
    forall k | 0 < k < |h'|
      ensures PlayedStep(h', k)
    {
      if k <= at {
        assert h'[k - 1] == h[k - 1] && h'[k] == h[k];
        assert PlayedStep(h, k);
      } else {
        assert h'[k - 1] == h[at] && h'[k] == next;
      }
    }
  }

  /** The board at entry `k` of a played history holds `k` marks, of which
      X has made (k + 1) / 2 and O has made k / 2. */
  lemma {:induction false} PlayedCounts(h: seq<Board>, k: nat)
    requires IsPlayed(h) && k < |h|
    ensures Count(h[k], X) == (k + 1) / 2
    ensures Count(h[k], O) == k / 2
    ensures Count(h[k], Empty) == 9 - k
    decreases k
  {
    if k == 0 {
      CountUniform(EmptyBoard, Empty, X);
      CountUniform(EmptyBoard, Empty, O);
      CountUniform(EmptyBoard, Empty, Empty);
    } else {
      PlayedCounts(h, k - 1);
      assert PlayedStep(h, k);
      var i: Index :| IsMoveAt(h[k - 1], h[k], i, MarkFor(k - 1));
      CountMark(h[k - 1], i, MarkFor(k - 1), X);
      CountMark(h[k - 1], i, MarkFor(k - 1), O);
      CountMark(h[k - 1], i, MarkFor(k - 1), Empty);
    }
  }

  /** `PlayedCounts` for any entry of any history, as an implication. */
  lemma PlayedCountsAt(h: seq<Board>, k: nat)
    requires k < |h|
    ensures IsPlayed(h) ==>
      Count(h[k], X) == (k + 1) / 2 && Count(h[k], O) == k / 2 && Count(h[k], Empty) == 9 - k
  {
    if IsPlayed(h) {
      PlayedCounts(h, k);
    }
  }

  /** Since every move fills an empty square, a played history holds at
      most ten boards: the empty one and one per square. */
  lemma PlayedLength(h: seq<Board>)
    requires IsPlayed(h)
    ensures |h| <= 10
  {
    PlayedCounts(h, |h| - 1);
  }

  class Game {
    /** The recorded boards; entry 0 is the empty board. */
    var history: seq<Board>
    /** The entry of `history` being viewed and played from. */
    var currentMove: nat

    predicate Valid()
      reads this
    {
      |history| >= 1 && currentMove < |history|
    }

    /** A new game: one empty board, viewed. */
    constructor ()
      ensures Valid() && IsPlayed(history)
      ensures history == [EmptyBoard] && currentMove == 0
    {
      history := [EmptyBoard];
      currentMove := 0;
    }

    /** Whether X is to move; derived from the viewed entry, never stored.
        On a played history it is exactly when X and O have made equally
        many moves on the viewed board. */
    function XIsNext(): (r: bool)
      reads this
      requires Valid()
      ensures PlayerMark(r) == MarkFor(currentMove)
      ensures IsPlayed(history) ==>
        (r <==> Count(history[currentMove], X) == Count(history[currentMove], O))
    {
      PlayedCountsAt(history, currentMove);
      currentMove % 2 == 0
    }

    /** The board being viewed. On a played history it has one filled
        square per move made to reach it. */
    function CurrentSquares(): (r: Board)
      reads this
      requires Valid()
      ensures r == history[currentMove]
      ensures IsPlayed(history) ==> Count(r, Empty) == 9 - currentMove
    {
      PlayedCountsAt(history, currentMove);
      history[currentMove]
    }

    /** Records a new board: the entries after the viewed one are dropped,
        the new board is appended and becomes the viewed one. */
    method HandlePlay(nextSquares: Board)
      requires Valid()
      modifies this
      ensures Valid()
      ensures history == old(history[..currentMove + 1]) + [nextSquares]
      ensures currentMove == |history| - 1 == old(currentMove) + 1
    {
      var nextHistory := history[..currentMove + 1] + [nextSquares];
      history := nextHistory;
      currentMove := |nextHistory| - 1;
    }

    /** Views entry `nextMove`; the recorded boards are kept. */
    method JumpTo(nextMove: nat)
      requires Valid() && nextMove < |history|
      modifies this
      ensures Valid()
      ensures history == old(history) && currentMove == nextMove
    {
      currentMove := nextMove;
    }

    /** A click on square `i` of the viewed board. It is ignored when the
        square is taken or the board already has a winner; otherwise the
        square receives the mark of the player to move and the resulting
        board is recorded after the viewed entry. */
    method HandleClick(i: Index)
      requires Valid()
      modifies this
      ensures Valid()
      ensures old(history[currentMove][i]) != Empty || Winner(old(history[currentMove])) != Empty ==>
        history == old(history) && currentMove == old(currentMove)
      ensures old(history[currentMove][i]) == Empty && Winner(old(history[currentMove])) == Empty ==>
        history == old(history[..currentMove + 1]) + [old(history[currentMove])[i := MarkFor(old(currentMove))]] &&
        currentMove == old(currentMove) + 1
      ensures old(IsPlayed(history)) ==> IsPlayed(history)
    {
      var squares := history[currentMove];
      var winner := CalculateWinner(squares);
      if squares[i] != Empty || winner != Empty {
        return;
      }
      var nextSquares := squares[i := PlayerMark(XIsNext())];
      if IsPlayed(history) {
        assert IsMoveAt(squares, nextSquares, i, MarkFor(currentMove));
        PlayedExtend(history, currentMove, nextSquares);
      }
      HandlePlay(nextSquares);
    }
  }

  /** X takes the top row while O plays the middle row; a further click
      on square 5 of the won board is refused. `won` is the history when X
      has won, before that click; the final history is still `won`. */
  method TopRowGame() returns (g: Game, won: seq<Board>)
    ensures fresh(g) && g.Valid() && IsPlayed(g.history)
    ensures |won| == 6 && won[5] == [X, X, X, O, O, Empty, Empty, Empty, Empty]
    ensures Winner(won[5]) == X
    ensures g.history == won && g.currentMove == 5
  {
    g := new Game();
    WinnerByLines(g.CurrentSquares());
    g.HandleClick(0);
    assert g.CurrentSquares() == [X, Empty, Empty, Empty, Empty, Empty, Empty, Empty, Empty];
    WinnerByLines(g.CurrentSquares());
    g.HandleClick(3);
    assert g.CurrentSquares() == [X, Empty, Empty, O, Empty, Empty, Empty, Empty, Empty];
    WinnerByLines(g.CurrentSquares());
    g.HandleClick(1);
    assert g.CurrentSquares() == [X, X, Empty, O, Empty, Empty, Empty, Empty, Empty];
    WinnerByLines(g.CurrentSquares());
    g.HandleClick(4);
    assert g.CurrentSquares() == [X, X, Empty, O, O, Empty, Empty, Empty, Empty];
    WinnerByLines(g.CurrentSquares());
    g.HandleClick(2);
    assert g.CurrentSquares() == [X, X, X, O, O, Empty, Empty, Empty, Empty];
    assert FirstWin(g.CurrentSquares(), 0);
    won := g.history;
    g.HandleClick(5);
  }

  /** The top-row game, then a jump back to the start. Yields the status
      line after the win and after the jump, and the history labels. */
  method PlayTopRowWin() returns (won: string, restarted: string, labels: seq<string>)
    ensures won == "Winner: X"
    ensures restarted == "Next player: X"
    ensures |labels| == 6 && labels[0] == "Go to game start" && labels[5] == "Go to move #5"
  {
    var g, _ := TopRowGame();
    won := Status(g.CurrentSquares(), g.XIsNext());
    labels := MoveLabels(|g.history|);
    assert Decimal(5) == "5";
    g.JumpTo(0);
    WinnerByLines(g.CurrentSquares());
    restarted := Status(g.CurrentSquares(), g.XIsNext());
  }
}

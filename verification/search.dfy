/**
  The exhaustive search of `minimax` in src/services/aiService.ts.
  O maximises, X minimises; a won board scores +10 for O and -10 for X
  whatever its depth; moves are tried in increasing cell order and the
  strict comparison in `reduce` keeps the earliest of equal scores.
 */
module Search {

  import opened Basics
  import opened Board

  datatype Scored = Scored(score: int, position: int)

  /** Someone has won, or no cell is empty. */
  predicate Terminal(b: Board) {
    CheckWinner(b).Some? || Available(b) == []
  }

  predicate ValidScore(s: int) {
    s == -10 || s == 0 || s == 10
  }

  /** The score of the leaf; X's win is examined first, as in the source. */
  function LeafScore(winner: Option<Mark>): int {
    match winner
    case Some(X) => -10
    case Some(O) => 10
    case None => 0
  }

  // ---------------------------------------------------------------------
  // reduce
  // ---------------------------------------------------------------------

  /** One step of `reduce`: the new move replaces the best only when strictly better. */
  function Better(maximize: bool, best: Scored, move: Scored): Scored {
    if maximize then (if move.score > best.score then move else best)
    else (if move.score < best.score then move else best)
  }

  function Reduce(maximize: bool, best: Scored, rest: seq<Scored>): (r: Scored)
    ensures r == best || r in rest
    decreases |rest|
  {
    if rest == [] then best else Reduce(maximize, Better(maximize, best, rest[0]), rest[1..])
  }

  /** `moves.reduce(...)` with no initial value: the first move is the starting best. */
  function Pick(maximize: bool, moves: seq<Scored>): (r: Scored)
    requires |moves| > 0
    ensures r in moves
  {
    Reduce(maximize, moves[0], moves[1..])
  }

  /** `s` is at least as good as every score in `moves` for the side that maximizes or minimizes. */
  predicate AtLeastAsGood(maximize: bool, s: int, other: int) {
    if maximize then other <= s else s <= other
  }

  /** `moves[i]` is optimal and strictly better than every earlier move. */
  predicate FirstOptimal(maximize: bool, moves: seq<Scored>, i: int) {
    && 0 <= i < |moves|
    && (forall j :: 0 <= j < |moves| ==> AtLeastAsGood(maximize, moves[i].score, moves[j].score))
    && (forall j :: 0 <= j < i ==> moves[j].score != moves[i].score)
  }

  /** One more move keeps the running best first-optimal, or becomes the new first-optimal move. */
  lemma ExtendFirstOptimal(maximize: bool, moves: seq<Scored>, n: nat, bi: nat)
    requires 0 < n < |moves| && bi < n
    requires FirstOptimal(maximize, moves[..n], bi)
    ensures AtLeastAsGood(maximize, moves[bi].score, moves[n].score) ==> FirstOptimal(maximize, moves[..n + 1], bi)
    ensures !AtLeastAsGood(maximize, moves[bi].score, moves[n].score) ==> FirstOptimal(maximize, moves[..n + 1], n)
  {
    var m0, m1 := moves[..n], moves[..n + 1];
    assert forall j :: 0 <= j < n ==> m1[j] == m0[j];
  }

  lemma {:induction false} ReduceFirstOptimal(maximize: bool, moves: seq<Scored>, n: nat, bi: nat)
    requires 0 < n <= |moves| && bi < n
    requires FirstOptimal(maximize, moves[..n], bi)
    ensures FirstOptimal(maximize, moves, IndexOfReduce(maximize, moves, n, bi))
    ensures Reduce(maximize, moves[bi], moves[n..]) == moves[IndexOfReduce(maximize, moves, n, bi)]
    decreases |moves| - n
  {
    if n < |moves| {
      assert moves[n..][1..] == moves[n + 1..];
      ExtendFirstOptimal(maximize, moves, n, bi);
      if AtLeastAsGood(maximize, moves[bi].score, moves[n].score) {
        assert Better(maximize, moves[bi], moves[n]) == moves[bi];
        ReduceFirstOptimal(maximize, moves, n + 1, bi);
      } else {
        assert Better(maximize, moves[bi], moves[n]) == moves[n];
        ReduceFirstOptimal(maximize, moves, n + 1, n);
      }
    } else {
      assert moves[..n] == moves;
    }
  }

  /** The index `Reduce` ends on, started at `bi` after the first `n` moves. */
  function IndexOfReduce(maximize: bool, moves: seq<Scored>, n: nat, bi: nat): nat
    requires bi < n <= |moves|
    decreases |moves| - n
  {
    if n == |moves| then bi
    else if AtLeastAsGood(maximize, moves[bi].score, moves[n].score)
    then IndexOfReduce(maximize, moves, n + 1, bi)
    else IndexOfReduce(maximize, moves, n + 1, n)
  }

  /**
    The pick is the first move with the best score: no move scores better,
    and every earlier move scores strictly worse.
   */
  lemma PickIsFirstOptimal(maximize: bool, moves: seq<Scored>)
    requires |moves| > 0
    ensures exists i :: FirstOptimal(maximize, moves, i) && Pick(maximize, moves) == moves[i]
  {
    assert FirstOptimal(maximize, moves[..1], 0);
    ReduceFirstOptimal(maximize, moves, 1, 0);
  }

  // ---------------------------------------------------------------------
  // minimax
  // ---------------------------------------------------------------------

  /**
    One entry per empty cell, in increasing order: the move, and the score of
    the opponent's search on the board with that cell filled.
   */
  function Children(b: Board, player: Mark): (r: seq<Scored>)
    ensures |r| == |Available(b)|
    ensures forall i :: 0 <= i < |r| ==> r[i].position == Available(b)[i] && ValidScore(r[i].score)
    ensures forall c :: c in r ==> 0 <= c.position < 9 && b[c.position] == Empty && ValidScore(c.score)
    decreases |Available(b)|, 0
  {
    var avail := Available(b);
    seq(|avail|, i requires 0 <= i < |avail| =>
      AvailableShrinks(b, avail[i], player);
      Scored(Minimax(b[avail[i] := Taken(player)], Opponent(player)).score, avail[i]))
  }

  /**
    `minimax(board, player)`: the leaf score at position -1 on a finished
    board; otherwise the best child for `player` (highest for O, lowest
    for X), the earliest cell among equals.
   */
  function Minimax(b: Board, player: Mark): (r: Scored)
    ensures ValidScore(r.score)
    ensures Terminal(b) ==> r == Scored(LeafScore(CheckWinner(b)), -1)
    ensures !Terminal(b) ==> 0 <= r.position < 9 && b[r.position] == Empty
    decreases |Available(b)|, 1
  {
    var w := CheckWinner(b);
    if w.Some? then Scored(LeafScore(w), -1)
    else if Available(b) == [] then Scored(0, -1)
    else
      Pick(player == O, Children(b, player))
  }

  /** The score `player` gets by playing `p` and letting the opponent search on. */
  function ChildScore(b: Board, player: Mark, p: Pos): int {
    Minimax(b[p := Taken(player)], Opponent(player)).score
  }

  lemma ChildAt(b: Board, player: Mark, j: nat)
    requires j < |Available(b)|
    ensures Children(b, player)[j] == Scored(ChildScore(b, player, Available(b)[j]), Available(b)[j])
  {
  }

  /** Where `p` sits in a sequence that holds it. */
  function IndexOfPos(s: seq<Pos>, p: Pos): (j: nat)
    requires p in s
    ensures j < |s| && s[j] == p
  {
    if s[0] == p then 0 else 1 + IndexOfPos(s[1..], p)
  }

  /**
    The first-optimal move compared with move `j`, when the moves' positions
    are an increasing sequence: at least as good, and strictly better than
    every move at a lower position.
   */
  lemma FirstOptimalOverPositions(maximize: bool, moves: seq<Scored>, avail: seq<Pos>, i: nat, j: nat)
    requires |moves| == |avail| && j < |moves| && FirstOptimal(maximize, moves, i)
    requires forall k :: 0 <= k < |moves| ==> moves[k].position == avail[k]
    requires forall k, l :: 0 <= k < l < |avail| ==> avail[k] < avail[l]
    ensures AtLeastAsGood(maximize, moves[i].score, moves[j].score)
    ensures avail[j] < avail[i] ==> moves[j].score != moves[i].score
  {
  }

  /**
    On an unfinished board the chosen cell's score is the best over all empty
    cells, and every empty cell below it scores differently (so strictly worse).
   */
  lemma MinimaxPicksFirstBest(b: Board, player: Mark)
    requires !Terminal(b)
    ensures var r := Minimax(b, player);
      && 0 <= r.position < 9 && b[r.position] == Empty
      && r.score == ChildScore(b, player, r.position)
      && (forall p: Pos :: b[p] == Empty ==> AtLeastAsGood(player == O, r.score, ChildScore(b, player, p)))
      && (forall p: Pos :: p < r.position && b[p] == Empty ==> ChildScore(b, player, p) != r.score)
  {
    var r := Minimax(b, player);
    var avail := Available(b);
    var children := Children(b, player);
    assert r == Pick(player == O, children);
    PickIsFirstOptimal(player == O, children);
    var i :| FirstOptimal(player == O, children, i) && r == children[i];
    ChildAt(b, player, i);
    forall p: Pos | b[p] == Empty
      ensures AtLeastAsGood(player == O, r.score, ChildScore(b, player, p))
      ensures p < r.position ==> ChildScore(b, player, p) != r.score
    {
      var j := IndexOfPos(avail, p);
      FirstOptimalOverPositions(player == O, children, avail, i, j);
      ChildAt(b, player, j);
    }
  }
}

/**
  The Tic-Tac-Toe board of src/services/aiService.ts: nine cells in
  row-major order, the eight winning lines in their fixed order, winner
  detection and the "two in a line plus a gap" search.
 */
module Board {

  import opened Basics

  datatype Mark = X | O

  /** A cell is `null` (Empty) or holds a mark. */
  datatype Cell = Empty | Taken(mark: Mark)

  type Pos = i: int | 0 <= i < 9

  type Board = b: seq<Cell> | |b| == 9 witness EmptyBoard()

  function EmptyBoard(): (b: seq<Cell>)
    ensures |b| == 9 && forall i :: 0 <= i < 9 ==> b[i] == Empty
  {
    seq(9, _ => Empty)
  }

  function Opponent(m: Mark): (r: Mark)
    ensures r != m
  {
    if m == X then O else X
  }

  datatype Line = Line(a: Pos, b: Pos, c: Pos)

  /** Rows, then columns, then the two diagonals. */
  const Lines: seq<Line> := [
    Line(0, 1, 2), Line(3, 4, 5), Line(6, 7, 8),
    Line(0, 3, 6), Line(1, 4, 7), Line(2, 5, 8),
    Line(0, 4, 8), Line(2, 4, 6)
  ]

  predicate OnLine(l: Line, p: int) {
    p == l.a || p == l.b || p == l.c
  }

  // ---------------------------------------------------------------------
  // checkWinner
  // ---------------------------------------------------------------------

  /** All three cells of `l` hold the same mark. */
  predicate LineWon(b: Board, l: Line) {
    b[l.a] != Empty && b[l.a] == b[l.b] && b[l.a] == b[l.c]
  }

  /** Line `k` is won and no earlier line is. */
  predicate FirstWon(b: Board, k: int) {
    0 <= k < 8 && LineWon(b, Lines[k]) && forall j :: 0 <= j < k ==> !LineWon(b, Lines[j])
  }

  function WinnerFrom(b: Board, k: nat): (r: Option<Mark>)
    requires k <= 8
    ensures r.None? <==> forall j :: k <= j < 8 ==> !LineWon(b, Lines[j])
    ensures r.Some? ==> exists j :: k <= j < 8 && LineWon(b, Lines[j]) && b[Lines[j].a] == Taken(r.value)
                                    && forall i :: k <= i < j ==> !LineWon(b, Lines[i])
    decreases 8 - k
  {
    if k == 8 then None
    else if LineWon(b, Lines[k]) then Some(b[Lines[k].a].mark)
    else WinnerFrom(b, k + 1)
  }

  /**
    `checkWinner`: the mark of the first won line in the fixed order,
    or none when no line is won.
   */
  function CheckWinner(b: Board): (r: Option<Mark>)
    ensures r.None? <==> forall k :: 0 <= k < 8 ==> !LineWon(b, Lines[k])
    ensures r.Some? <==> exists k :: FirstWon(b, k) && b[Lines[k].a] == Taken(r.value)
  {
    WinnerFrom(b, 0)
  }

  /** Every line is won by at most one mark, so a board won by one mark only has that winner. */
  lemma OnlyWinner(b: Board, m: Mark)
    requires forall k :: 0 <= k < 8 && LineWon(b, Lines[k]) ==> b[Lines[k].a] == Taken(m)
    requires exists k :: 0 <= k < 8 && LineWon(b, Lines[k])
    ensures CheckWinner(b) == Some(m)
  {
  }

  // ---------------------------------------------------------------------
  // Empty cells
  // ---------------------------------------------------------------------

  predicate Full(b: Board) {
    forall i :: 0 <= i < 9 ==> b[i] != Empty
  }

  function AvailableFrom(b: Board, i: nat): (r: seq<Pos>)
    requires i <= 9
    ensures forall k :: 0 <= k < |r| ==> i <= r[k] && b[r[k]] == Empty
    ensures forall p :: i <= p < 9 && b[p] == Empty ==> p in r
    ensures forall k, l :: 0 <= k < l < |r| ==> r[k] < r[l]
    decreases 9 - i
  {
    if i == 9 then []
    else if b[i] == Empty then [i as Pos] + AvailableFrom(b, i + 1)
    else AvailableFrom(b, i + 1)
  }

  /** The empty cells in increasing order: `availableMoves` in the source. */
  function Available(b: Board): (r: seq<Pos>)
    ensures forall k :: 0 <= k < |r| ==> b[r[k]] == Empty
    ensures forall p :: 0 <= p < 9 && b[p] == Empty ==> p in r
    ensures forall k, l :: 0 <= k < l < |r| ==> r[k] < r[l]
    ensures r == [] <==> Full(b)
  {
    AvailableFrom(b, 0)
  }

  /** `b'` is `b` with the empty cell `p` filled. */
  predicate FilledAt(b: Board, b': Board, p: Pos) {
    b[p] == Empty && b'[p] != Empty && forall q :: 0 <= q < 9 && q != p ==> b'[q] == b[q]
  }

  lemma {:induction false} AvailableFromShrinks(b: Board, b': Board, p: Pos, i: nat)
    requires i <= 9 && FilledAt(b, b', p)
    ensures |AvailableFrom(b', i)| + (if i <= p then 1 else 0) == |AvailableFrom(b, i)|
    decreases 9 - i
  {
    if i < 9 {
      AvailableFromShrinks(b, b', p, i + 1);
      if i != p {
        assert b'[i] == b[i];
      }
    }
  }

  /** Filling an empty cell removes exactly one available move; this bounds the minimax recursion. */
  lemma AvailableShrinks(b: Board, p: Pos, m: Mark)
    requires b[p] == Empty
    ensures |Available(b[p := Taken(m)])| == |Available(b)| - 1
  {
    AvailableFromShrinks(b, b[p := Taken(m)], p, 0);
  }

  // ---------------------------------------------------------------------
  // findWinningMove
  // ---------------------------------------------------------------------

  function CountMark(b: Board, l: Line, m: Mark): nat {
    (if b[l.a] == Taken(m) then 1 else 0) + (if b[l.b] == Taken(m) then 1 else 0)
      + (if b[l.c] == Taken(m) then 1 else 0)
  }

  predicate HasGap(b: Board, l: Line) {
    b[l.a] == Empty || b[l.b] == Empty || b[l.c] == Empty
  }

  /** Two of the line's cells hold `m` and the third is empty. */
  predicate Threat(b: Board, l: Line, m: Mark) {
    CountMark(b, l, m) == 2 && HasGap(b, l)
  }

  /** `pattern[line.indexOf(null)]`: the first empty cell of the line. */
  function GapOf(b: Board, l: Line): (p: Pos)
    requires HasGap(b, l)
    ensures b[p] == Empty && OnLine(l, p)
  {
    if b[l.a] == Empty then l.a else if b[l.b] == Empty then l.b else l.c
  }

  predicate FirstThreat(b: Board, m: Mark, k: int) {
    0 <= k < 8 && Threat(b, Lines[k], m) && forall j :: 0 <= j < k ==> !Threat(b, Lines[j], m)
  }

  function WinningMoveFrom(b: Board, m: Mark, k: nat): (r: int)
    requires k <= 8
    ensures r == -1 <==> forall j :: k <= j < 8 ==> !Threat(b, Lines[j], m)
    ensures r != -1 ==> exists j :: k <= j < 8 && Threat(b, Lines[j], m) && r == GapOf(b, Lines[j])
                                    && forall i :: k <= i < j ==> !Threat(b, Lines[i], m)
    decreases 8 - k
  {
    if k == 8 then -1
    else if Threat(b, Lines[k], m) then GapOf(b, Lines[k])
    else WinningMoveFrom(b, m, k + 1)
  }

  /**
    `findWinningMove`: the gap of the first line where `m` has two cells
    and the third is empty, or -1 when there is none.
   */
  function FindWinningMove(b: Board, m: Mark): (r: int)
    ensures r == -1 <==> forall k :: 0 <= k < 8 ==> !Threat(b, Lines[k], m)
    ensures r != -1 ==> exists k :: FirstThreat(b, m, k) && r == GapOf(b, Lines[k])
    ensures r != -1 ==> 0 <= r < 9 && b[r] == Empty
  {
    WinningMoveFrom(b, m, 0)
  }

  /** Filling the gap of a threat of `m` wins that line for `m`. */
  lemma FillingThreatWins(b: Board, l: Line, m: Mark)
    requires Threat(b, l, m)
    ensures var b' := b[GapOf(b, l) := Taken(m)]; LineWon(b', l) && b'[l.a] == Taken(m)
  {
  }

  /** A line won only after `m` fills `p` runs through `p`, so it is won by `m`. */
  lemma NewlyWonLineIsMine(b: Board, p: Pos, m: Mark, l: Line)
    requires LineWon(b[p := Taken(m)], l) && !LineWon(b, l)
    ensures OnLine(l, p) && b[p := Taken(m)][l.a] == Taken(m)
  {
  }

  /** Filling the gap of any threat of `m` on a board nobody has won makes `m` the winner. */
  lemma FillingAThreatWins(b: Board, m: Mark, k: nat)
    requires forall j :: 0 <= j < 8 ==> !LineWon(b, Lines[j])
    requires k < 8 && Threat(b, Lines[k], m)
    ensures CheckWinner(b[GapOf(b, Lines[k]) := Taken(m)]) == Some(m)
  {
    var p := GapOf(b, Lines[k]);
    var b' := b[p := Taken(m)];
    FillingThreatWins(b, Lines[k], m);
    forall j | 0 <= j < 8 && LineWon(b', Lines[j])
      ensures b'[Lines[j].a] == Taken(m)
    {
      NewlyWonLineIsMine(b, p, m, Lines[j]);
    }
    OnlyWinner(b', m);
  }

  /** Playing the returned cell on a board nobody has won makes `m` the winner. */
  lemma WinningMoveWins(b: Board, m: Mark)
    requires CheckWinner(b).None?
    requires FindWinningMove(b, m) != -1
    ensures b[FindWinningMove(b, m)] == Empty
    ensures CheckWinner(b[FindWinningMove(b, m) := Taken(m)]) == Some(m)
  {
    var k :| FirstThreat(b, m, k) && FindWinningMove(b, m) == GapOf(b, Lines[k]);
    FillingAThreatWins(b, m, k);
  }

  /** The scenario `[X,X,_,O,O,_,_,_,_]`: X's winning cell is 2, O's is 5. */
  lemma WinningMoveExample()
    ensures FindWinningMove([Taken(X), Taken(X), Empty, Taken(O), Taken(O), Empty, Empty, Empty, Empty], X) == 2
    ensures FindWinningMove([Taken(X), Taken(X), Empty, Taken(O), Taken(O), Empty, Empty, Empty, Empty], O) == 5
  {
    var b: Board := [Taken(X), Taken(X), Empty, Taken(O), Taken(O), Empty, Empty, Empty, Empty];
    assert Threat(b, Lines[0], X);
    assert Threat(b, Lines[1], O);
    assert !Threat(b, Lines[0], O);
  }
}

/**
  The AI's move choice in src/services/aiService.ts: `getRandomMove`,
  `getMediumMove`, `getHardMove` and the `generateGameMove` dispatch.
  A `Math.random` draw is a free natural `pick`: `floor(random() * n)` is
  some index below `n`, and `pick % n` ranges over exactly those indices.
  An index past the end of an empty list is `undefined` in JavaScript;
  here it is `None`.
 */
module Strategy {

  import opened Basics
  import opened Board
  import opened Search

  /** `getRandomMove`: some empty cell, or `undefined` on a full board. */
  function GetRandomMove(b: Board, pick: nat): (r: Option<int>)
    ensures r.None? <==> Full(b)
    ensures r.Some? ==> 0 <= r.value < 9 && b[r.value] == Empty
  {
    var avail := Available(b);
    if avail == [] then None else Some(avail[pick % |avail|] as int)
  }

  /** Every empty cell is the random move for some draw. */
  lemma RandomMoveReachesEveryEmptyCell(b: Board, p: Pos)
    requires b[p] == Empty
    ensures exists pick: nat :: GetRandomMove(b, pick) == Some(p as int)
  {
    var avail := Available(b);
    assert p in avail;
    var k :| 0 <= k < |avail| && avail[k] == p;
    ModBelow(k, |avail|);
    var r := GetRandomMove(b, k);
    assert r == Some(avail[k] as int);
  }

  const Corners: seq<Pos> := [0, 2, 6, 8]

  /** The corners that are still empty, in the order 0, 2, 6, 8. */
  function AvailableCorners(b: Board): (r: seq<Pos>)
    ensures forall c :: c in r <==> c in Corners && b[c] == Empty
  {
    FilterEmpty(b, Corners)
  }

  function FilterEmpty(b: Board, cells: seq<Pos>): (r: seq<Pos>)
    ensures forall c :: c in r <==> c in cells && b[c] == Empty
  {
    if cells == [] then []
    else (if b[cells[0]] == Empty then [cells[0]] else []) + FilterEmpty(b, cells[1..])
  }

  /**
    `getMediumMove`: O's winning cell, else X's winning cell (a block),
    else the centre, else a random free corner, else a random free cell.
   */
  function GetMediumMove(b: Board, pick: nat): (r: Option<int>)
    ensures FindWinningMove(b, O) != -1 ==> r == Some(FindWinningMove(b, O))
    ensures FindWinningMove(b, O) == -1 && FindWinningMove(b, X) != -1 ==> r == Some(FindWinningMove(b, X))
    ensures FindWinningMove(b, O) == -1 && FindWinningMove(b, X) == -1 && b[4] == Empty ==> r == Some(4)
    ensures (&& FindWinningMove(b, O) == -1 && FindWinningMove(b, X) == -1 && b[4] != Empty
             && exists c :: c in Corners && b[c] == Empty)
            ==> r.Some? && r.value in Corners
    ensures r.None? <==> Full(b)
    ensures r.Some? ==> 0 <= r.value < 9 && b[r.value] == Empty
  {
    var win := FindWinningMove(b, O);
    if win != -1 then Some(win)
    else
      var block := FindWinningMove(b, X);
      if block != -1 then Some(block)
      else if b[4] == Empty then Some(4)
      else
        var corners := AvailableCorners(b);
        if |corners| > 0 then Some(corners[pick % |corners|] as int)
        else GetRandomMove(b, pick)
  }

  /** When O can complete a line and nobody has won yet, the medium move wins the game for O. */
  lemma MediumTakesTheWin(b: Board, pick: nat)
    requires CheckWinner(b).None?
    requires exists k :: 0 <= k < 8 && Threat(b, Lines[k], O)
    ensures GetMediumMove(b, pick).Some?
    ensures CheckWinner(b[GetMediumMove(b, pick).value := Taken(O)]) == Some(O)
  {
    WinningMoveWins(b, O);
  }

  /**
    When O cannot complete a line but X could, the medium move fills the
    cell where X would have won.
   */
  lemma MediumBlocks(b: Board, pick: nat)
    requires CheckWinner(b).None?
    requires forall k :: 0 <= k < 8 ==> !Threat(b, Lines[k], O)
    requires exists k :: 0 <= k < 8 && Threat(b, Lines[k], X)
    ensures GetMediumMove(b, pick).Some?
    ensures CheckWinner(b[GetMediumMove(b, pick).value := Taken(X)]) == Some(X)
  {
    WinningMoveWins(b, X);
  }

  /** `getHardMove`: the position of O's search. */
  function GetHardMove(b: Board): (r: int)
    ensures !Terminal(b) ==> 0 <= r < 9 && b[r] == Empty
    ensures Terminal(b) ==> r == -1
  {
    Minimax(b, O).position
  }

  /**
    `generateGameMove(board, difficulty)`: "easy" is random, "medium" is the
    heuristic ladder, and every other value is the exhaustive search. The
    source defaults an omitted difficulty to "medium"; callers here pass it.
   */
  function GenerateGameMove(b: Board, difficulty: string, pick: nat): (r: Option<int>)
    ensures difficulty == "easy" ==> r == GetRandomMove(b, pick)
    ensures difficulty == "medium" ==> r == GetMediumMove(b, pick)
    ensures difficulty != "easy" && difficulty != "medium" ==> r == Some(GetHardMove(b))
  {
    if difficulty == "easy" then GetRandomMove(b, pick)
    else if difficulty == "medium" then GetMediumMove(b, pick)
    else Some(GetHardMove(b))
  }

  /**
    On a board that is not finished, every difficulty returns an empty cell;
    easy and medium need only that the board is not full.
   */
  lemma GeneratedMoveIsEmptyCell(b: Board, difficulty: string, pick: nat)
    requires !Full(b)
    requires difficulty != "easy" && difficulty != "medium" ==> CheckWinner(b).None?
    ensures GenerateGameMove(b, difficulty, pick).Some?
    ensures var m := GenerateGameMove(b, difficulty, pick).value; 0 <= m < 9 && b[m] == Empty
  {
  }

  /** The exhaustive search gives up (-1) on a won board even when cells are free; the other tiers do not. */
  lemma HardMoveOnWonBoard()
    ensures var b: Board := [Taken(X), Taken(X), Taken(X), Taken(O), Taken(O), Empty, Empty, Empty, Empty];
      && GenerateGameMove(b, "hard", 0) == Some(-1)
      && GenerateGameMove(b, "medium", 0) == Some(5)
  {
    var b: Board := [Taken(X), Taken(X), Taken(X), Taken(O), Taken(O), Empty, Empty, Empty, Empty];
    assert LineWon(b, Lines[0]);
    assert Threat(b, Lines[1], O);
  }
}

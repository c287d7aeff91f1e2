/**
  The game session of src/hooks/useGame.ts, each React state update
  written as a pure function from the previous state. `None` is "no
  current game".

  The move guard reads `board[position]` with no bounds check, so a
  position outside 0..8 passes it and is written onto the JavaScript
  array. `outside` keeps what such writes leave behind: entries from 9 up
  to the last array index are array elements that survive the
  `[...board]` copy; negative ones and ones past the last array index are
  plain properties that the next copy drops. Only the guard ever reads
  them.
 */
module Game {

  import opened Basics
  import opened Board
  import opened Strategy

  datatype Status = Waiting | Playing | Completed

  /** Who plays each mark. */
  datatype Players = Players(x: string, o: string)

  function PlayerOf(players: Players, m: Mark): string {
    if m == X then players.x else players.o
  }

  datatype GameState = GameState(
    id: string,
    board: Board,
    outside: map<int, Mark>,
    currentPlayer: Mark,
    winner: Option<Mark>,
    isDraw: bool,
    players: Players,
    status: Status)

  datatype GameStats = GameStats(wins: nat, losses: nat, draws: nat, totalGames: nat)

  const InitialStats: GameStats := GameStats(0, 0, 0, 0)

  /** A game as `createGame` and `resetGame` leave it. */
  predicate Fresh(g: GameState) {
    && g.board == EmptyBoard()
    && g.outside == map[]
    && g.currentPlayer == X
    && g.winner.None?
    && !g.isDraw
    && g.status == Playing
  }

  /** `createGame(player1Id, player2Id)`; the id comes from the clock, so it is a parameter. */
  function CreateGame(id: string, player1: string, player2: string): (g: GameState)
    ensures Fresh(g)
    ensures g.id == id && g.players == Players(player1, player2)
  {
    GameState(id, EmptyBoard(), map[], X, None, false, Players(player1, player2), Playing)
  }

  // ---------------------------------------------------------------------
  // Moves
  // ---------------------------------------------------------------------

  /** `board[position]` is truthy: a mark inside the board, or a leftover outside write. */
  predicate Occupied(g: GameState, position: int) {
    if 0 <= position < 9 then g.board[position] != Empty else position in g.outside
  }

  /** The guard of `makeMove` and `makeAIMove`: a game, a free slot, no winner. Status is not consulted. */
  predicate Accepts(game: Option<GameState>, position: int) {
    game.Some? && !Occupied(game.value, position) && game.value.winner.None?
  }

  /** One past the largest array index of JavaScript: larger keys are plain properties. */
  const ArrayIndexLimit: int := 0xFFFF_FFFF

  /**
    What `[...board]` keeps of earlier outside writes: the array elements
    past the ninth. Negative keys and keys from `ArrayIndexLimit` on are
    properties, not elements, and the spread drops them.
   */
  function Copied(outside: map<int, Mark>): (r: map<int, Mark>)
    ensures forall k :: k in r <==> k in outside && 9 <= k < ArrayIndexLimit
    ensures forall k :: k in r ==> r[k] == outside[k]
  {
    map k | k in outside && 9 <= k < ArrayIndexLimit :: outside[k]
  }

  /**
    The state after the current player writes `position`: new winner, draw
    flag and status, and the turn passes to the other mark.
   */
  function Play(g: GameState, position: int): (r: GameState)
    ensures 0 <= position < 9 ==> r.board[position] == Taken(g.currentPlayer)
    ensures forall i :: 0 <= i < 9 && i != position ==> r.board[i] == g.board[i]
    ensures position in r.outside <==> !(0 <= position < 9)
    ensures position in r.outside ==> r.outside[position] == g.currentPlayer
    ensures forall k :: k != position ==> (k in r.outside <==> k in g.outside && 9 <= k < ArrayIndexLimit)
    ensures forall k :: k in r.outside && k != position ==> r.outside[k] == g.outside[k]
    ensures r.currentPlayer == Opponent(g.currentPlayer)
    ensures r.winner == CheckWinner(r.board)
    ensures r.isDraw <==> r.winner.None? && Full(r.board)
    ensures r.status == (if r.winner.Some? || r.isDraw then Completed else Playing)
    ensures r.id == g.id && r.players == g.players
  {
    var board := if 0 <= position < 9 then g.board[position := Taken(g.currentPlayer)] else g.board;
    var outside := if 0 <= position < 9 then Copied(g.outside)
                   else Copied(g.outside)[position := g.currentPlayer];
    var winner := CheckWinner(board);
    var isDraw := winner.None? && Full(board);
    g.(board := board, outside := outside, currentPlayer := Opponent(g.currentPlayer),
       winner := winner, isDraw := isDraw,
       status := if winner.Some? || isDraw then Completed else Playing)
  }

  /** The mark the stats credit to the user: X exactly when X's player id is the literal "current". */
  function CreditedMark(players: Players): Mark {
    if players.x == "current" then X else O
  }

  /** One more game, and exactly one of wins, losses and draws one higher. */
  predicate OneMoreGame(before: GameStats, after: GameStats) {
    && after.totalGames == before.totalGames + 1
    && before.wins <= after.wins && before.losses <= after.losses && before.draws <= after.draws
    && (after.wins - before.wins) + (after.losses - before.losses) + (after.draws - before.draws) == 1
  }

  /** The stats update run when a move ends the game. */
  function RecordResult(stats: GameStats, players: Players, winner: Option<Mark>, isDraw: bool): (r: GameStats)
    requires winner.Some? || isDraw
    requires !(winner.Some? && isDraw)
    ensures OneMoreGame(stats, r)
    ensures r.draws > stats.draws <==> isDraw
    ensures r.wins > stats.wins <==> winner == Some(CreditedMark(players))
  {
    var isPlayerX := players.x == "current";
    var playerWon := (winner == Some(X) && isPlayerX) || (winner == Some(O) && !isPlayerX);
    stats.(wins := if playerWon then stats.wins + 1 else stats.wins,
           losses := if winner.Some? && !playerWon then stats.losses + 1 else stats.losses,
           draws := if isDraw then stats.draws + 1 else stats.draws,
           totalGames := stats.totalGames + 1)
  }

  /** The game and the stats after `position` is played, whether or not the game ended. */
  function Advance(g: GameState, stats: GameStats, position: int): (r: (GameState, GameStats))
    ensures r.0 == Play(g, position)
    ensures r.0.status == Completed ==> OneMoreGame(stats, r.1)
    ensures r.0.status != Completed ==> r.1 == stats
  {
    var next := Play(g, position);
    if next.winner.Some? || next.isDraw then (next, RecordResult(stats, g.players, next.winner, next.isDraw))
    else (next, stats)
  }

  datatype MoveOutcome = MoveOutcome(accepted: bool, game: Option<GameState>, stats: GameStats, aiScheduled: bool)

  /**
    `makeMove(position)`: rejected with no change when there is no game, the
    slot is taken or someone has won; otherwise the move is played, the
    stats count a finished game, and an AI reply is scheduled when the game
    goes on and the mover was X.
   */
  function MakeMove(game: Option<GameState>, stats: GameStats, position: int): (r: MoveOutcome)
    ensures r.accepted <==> Accepts(game, position)
    ensures !r.accepted ==> r.game == game && r.stats == stats && !r.aiScheduled
    ensures r.accepted ==> r.game == Some(Play(game.value, position))
    ensures r.accepted && r.game.value.status == Completed ==> OneMoreGame(stats, r.stats)
    ensures r.accepted && r.game.value.status != Completed ==> r.stats == stats
    ensures r.aiScheduled <==> r.accepted && r.game.value.status == Playing && game.value.currentPlayer == X
  {
    if !Accepts(game, position) then MoveOutcome(false, game, stats, false)
    else
      var g := game.value;
      var (next, stats') := Advance(g, stats, position);
      MoveOutcome(true, Some(next), stats', next.winner.None? && !next.isDraw && g.currentPlayer == X)
  }

  datatype AIOutcome = AIOutcome(game: Option<GameState>, stats: GameStats)

  /**
    `makeAIMove(position)`, applied to whatever game is current when it runs:
    the same guard and the same transition as `makeMove`, with no check that
    it is still the game the move was computed for.
   */
  function MakeAIMove(game: Option<GameState>, stats: GameStats, position: int): (r: AIOutcome)
    ensures !Accepts(game, position) ==> r == AIOutcome(game, stats)
    ensures r.game == MakeMove(game, stats, position).game
    ensures r.stats == MakeMove(game, stats, position).stats
  {
    if !Accepts(game, position) then AIOutcome(game, stats)
    else
      var (next, stats') := Advance(game.value, stats, position);
      AIOutcome(Some(next), stats')
  }

  /**
    The delayed AI turn scheduled by `makeMove`: the medium move for the board
    the human's move produced, applied to the game current when it fires.
   */
  function ScheduledAIMove(captured: Board, pick: nat, game: Option<GameState>, stats: GameStats): (r: AIOutcome)
    requires !Full(captured)
    ensures var m := GetMediumMove(captured, pick);
      m.Some? && 0 <= m.value < 9 && captured[m.value] == Empty && r == MakeAIMove(game, stats, m.value)
  {
    var move := GenerateGameMove(captured, "medium", pick);
    MakeAIMove(game, stats, move.value)
  }

  /** `resetGame`: a cleared board with X to move, keeping id and players; nothing without a game. */
  function ResetGame(game: Option<GameState>): (r: Option<GameState>)
    ensures game.None? <==> r.None?
    ensures r.Some? ==> Fresh(r.value) && r.value.id == game.value.id && r.value.players == game.value.players
  {
    match game
    case None => None
    case Some(g) =>
      Some(g.(board := EmptyBoard(), outside := map[], currentPlayer := X, winner := None,
              isDraw := false, status := Playing))
  }

  /** `endGame`: there is no current game afterwards. */
  function EndGame(game: Option<GameState>): (r: Option<GameState>)
    ensures r.None?
  {
    None
  }

  // ---------------------------------------------------------------------
  // Invariants and consequences
  // ---------------------------------------------------------------------

  function Count(cells: seq<Cell>, c: Cell): nat {
    if cells == [] then 0 else (if cells[0] == c then 1 else 0) + Count(cells[1..], c)
  }

  lemma {:induction false} CountAfterFill(cells: seq<Cell>, p: nat, v: Cell, c: Cell)
    requires p < |cells| && cells[p] == Empty && v != Empty
    ensures Count(cells[p := v], c) ==
              Count(cells, c) + (if c == v then 1 else 0) - (if c == Empty then 1 else 0)
  {
    if p > 0 {
      CountAfterFill(cells[1..], p - 1, v, c);
      assert cells[p := v][1..] == cells[1..][p - 1 := v];
    }
  }

  /** X has moved as often as O, or once more when it is O's turn. */
  predicate Balanced(g: GameState) {
    Count(g.board, Taken(X)) == Count(g.board, Taken(O)) + (if g.currentPlayer == O then 1 else 0)
  }

  /** The derived fields agree with the board and the turn agrees with the marks played. */
  predicate Consistent(g: GameState) {
    && g.winner == CheckWinner(g.board)
    && (g.isDraw <==> g.winner.None? && Full(g.board))
    && g.status == (if g.winner.Some? || g.isDraw then Completed else Playing)
    && Balanced(g)
  }

  lemma {:induction false} CountAbsent(cells: seq<Cell>, c: Cell)
    requires c !in cells
    ensures Count(cells, c) == 0
  {
    if cells != [] {
      CountAbsent(cells[1..], c);
    }
  }

  /** New and reset games satisfy the invariant. */
  lemma FreshIsConsistent(g: GameState)
    requires Fresh(g)
    ensures Consistent(g)
  {
    CountAbsent(g.board, Taken(X));
    CountAbsent(g.board, Taken(O));
    assert !LineWon(g.board, Lines[0]);
    assert !Full(g.board) by { assert g.board[0] == Empty; }
  }

  /** A move inside the board keeps the game consistent. */
  lemma InBoardMoveKeepsConsistency(g: GameState, stats: GameStats, position: int)
    requires Consistent(g) && 0 <= position < 9
    ensures var r := MakeMove(Some(g), stats, position); r.game.Some? && Consistent(r.game.value)
  {
    if Accepts(Some(g), position) {
      var next := Play(g, position);
      assert next.board == g.board[position := Taken(g.currentPlayer)];
      CountAfterFill(g.board, position, Taken(g.currentPlayer), Taken(X));
      CountAfterFill(g.board, position, Taken(g.currentPlayer), Taken(O));
    }
  }

  /**
    A position outside the board is accepted on an unfinished game: nothing
    is placed, yet the turn passes, so the turn no longer matches the marks.
   */
  lemma OutsideMoveSkipsTurn(g: GameState, stats: GameStats, position: int)
    requires Consistent(g) && g.winner.None?
    requires position >= 9 && position !in g.outside
    ensures var r := MakeMove(Some(g), stats, position);
      && r.accepted && r.game.value.board == g.board
      && r.game.value.currentPlayer != g.currentPlayer
      && !Balanced(r.game.value)
  {
  }

  /**
    A write past the last array index is kept on the board it was made on,
    but the copy for the next move drops it, as it drops negative positions.
   */
  lemma PropertyWriteDroppedByNextCopy(g: GameState, p: int, q: int)
    requires p >= ArrayIndexLimit || p < 0
    ensures p in Play(g, p).outside
    ensures q != p ==> p !in Play(Play(g, p), q).outside
  {
  }

  /**
    A drawn game still accepts a position outside the board, and the stats
    count it a second time.
   */
  lemma DrawnGameCountedAgain(g: GameState, stats: GameStats)
    requires Consistent(g) && g.isDraw && 9 !in g.outside
    ensures var r := MakeMove(Some(g), stats, 9);
      && r.accepted && r.stats.totalGames == stats.totalGames + 1 && r.stats.draws == stats.draws + 1
  {
  }

  /** The stats credit X to the user only when X's id is the literal "current", so a real id's win counts as a loss. */
  lemma WinByNamedXCountsAsLoss(stats: GameStats, x: string, o: string)
    requires x != "current"
    ensures RecordResult(stats, Players(x, o), Some(X), false).losses == stats.losses + 1
    ensures RecordResult(stats, Players(x, o), Some(X), false).wins == stats.wins
  {
  }

  /** The AI move behaves the same on any game with the same board, whatever its id. */
  lemma AIMoveIgnoresGameId(g: GameState, stats: GameStats, position: int, otherId: string)
    ensures var r1 := MakeAIMove(Some(g), stats, position);
            var r2 := MakeAIMove(Some(g.(id := otherId)), stats, position);
      && r2.stats == r1.stats && r2.game.Some? && r2.game == Some(r1.game.value.(id := otherId))
  {
  }

  /** When nothing happened in between, the scheduled AI move fills one empty cell with the mark to move. */
  lemma ScheduledAIMoveFillsOneCell(g: GameState, stats: GameStats, pick: nat)
    requires g.winner.None? && !Full(g.board)
    ensures var r := ScheduledAIMove(g.board, pick, Some(g), stats);
      && r.game.Some?
      && exists p :: 0 <= p < 9 && g.board[p] == Empty && r.game.value.board == g.board[p := Taken(g.currentPlayer)]
  {
    var m := GetMediumMove(g.board, pick).value;
    var next := Play(g, m);
    assert next.board == g.board[m := Taken(g.currentPlayer)];
  }

  /** Resetting twice is resetting once, and a new game is already reset. */
  lemma ResetIdempotent(game: Option<GameState>, id: string, player1: string, player2: string)
    ensures ResetGame(ResetGame(game)) == ResetGame(game)
    ensures ResetGame(Some(CreateGame(id, player1, player2))) == Some(CreateGame(id, player1, player2))
  {
  }
}

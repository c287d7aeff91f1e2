/**
  The turn and result logic of src/components/game/TicTacToe.tsx: whose
  turn it is for the viewing user, which cells can be clicked, and which
  result or status line is shown.
 */
module GameView {

  import opened Basics
  import opened Board
  import opened Game

  /** `players[currentPlayer] === currentUserId`. */
  predicate IsViewersTurn(g: GameState, viewer: string) {
    PlayerOf(g.players, g.currentPlayer) == viewer
  }

  /** The first mark, X before O, whose player is the viewer. */
  function ViewerSymbol(g: GameState, viewer: string): (r: Option<Mark>)
    ensures r == Some(X) <==> g.players.x == viewer
    ensures r == Some(O) <==> g.players.x != viewer && g.players.o == viewer
    ensures r.None? <==> viewer != g.players.x && viewer != g.players.o
  {
    if g.players.x == viewer then Some(X)
    else if g.players.o == viewer then Some(O)
    else None
  }

  /** The `disabled` attribute of a cell button: enabled exactly for a move the session accepts, on the viewer's turn. */
  function CellDisabled(g: GameState, viewer: string, position: Pos): (r: bool)
    ensures !r <==> Accepts(Some(g), position) && IsViewersTurn(g, viewer)
  {
    g.board[position] != Empty || g.winner.Some? || !IsViewersTurn(g, viewer)
  }

  datatype ResultText = Draw | YouWon | AIWins

  /** `getWinnerText`: draw first; then a win whose mark is the viewer's; anything else reads as the AI's win. */
  function WinnerText(g: GameState, viewer: string): (r: ResultText)
    ensures r == Draw <==> g.isDraw
    ensures r == YouWon <==> !g.isDraw && g.winner.Some? && ViewerSymbol(g, viewer) == g.winner
  {
    if g.isDraw then Draw
    else if g.winner.Some? && g.winner == ViewerSymbol(g, viewer) then YouWon
    else AIWins
  }

  datatype StatusText = Result(result: ResultText) | YourTurn | Thinking

  /** `getStatusText`: the result once completed, else whose turn it is. */
  function GetStatusText(g: GameState, viewer: string): (r: StatusText)
    ensures r.Result? <==> g.status == Completed
    ensures r.Result? ==> r.result == WinnerText(g, viewer)
    ensures r == YourTurn <==> g.status != Completed && IsViewersTurn(g, viewer)
  {
    if g.status == Completed then Result(WinnerText(g, viewer))
    else if IsViewersTurn(g, viewer) then YourTurn
    else Thinking
  }

  /** The line the board shows for a status. */
  function Caption(t: StatusText): (r: string)
    ensures |r| > 0
  {
    match t
    case Result(Draw) => "It's a draw! 🤝"
    case Result(YouWon) => "You won! 🎉"
    case Result(AIWins) => "AI wins this round! 🤖"
    case YourTurn => "Your turn! 🎯"
    case Thinking => "AI is thinking... 🤔"
  }

  /** A clickable cell is a move the session accepts. */
  lemma EnabledCellIsAcceptedMove(g: GameState, viewer: string, position: Pos, stats: GameStats)
    requires !CellDisabled(g, viewer, position)
    ensures MakeMove(Some(g), stats, position).accepted
    ensures MakeMove(Some(g), stats, position).game.value.board[position] == Taken(g.currentPlayer)
  {
  }

  /** With two different players, it is the viewer's turn exactly when the mark to move is the viewer's. */
  lemma TurnMatchesSymbol(g: GameState, viewer: string)
    requires g.players.x != g.players.o
    ensures IsViewersTurn(g, viewer) <==> ViewerSymbol(g, viewer) == Some(g.currentPlayer)
  {
  }

  /** Playing against oneself: it is always the viewer's turn, and the viewer is X. */
  lemma SelfPlayAlwaysViewersTurn(g: GameState, viewer: string)
    requires g.players == Players(viewer, viewer)
    ensures IsViewersTurn(g, viewer) && ViewerSymbol(g, viewer) == Some(X)
  {
  }

  /** Someone who plays neither mark sees every decided game as the AI's win. */
  lemma OutsiderNeverWins(g: GameState, viewer: string)
    requires viewer != g.players.x && viewer != g.players.o
    requires g.status == Completed && !g.isDraw
    ensures GetStatusText(g, viewer) == Result(AIWins)
  {
  }

  /** In a consistent finished game won by the viewer's own mark, the viewer is told they won. */
  lemma WinnerIsCongratulated(g: GameState, viewer: string)
    requires Consistent(g) && g.winner.Some?
    requires ViewerSymbol(g, viewer) == g.winner
    ensures GetStatusText(g, viewer) == Result(YouWon)
  {
  }

  /** Different statuses are shown with different lines, so the line tells the status. */
  lemma CaptionDeterminesStatus(a: StatusText, b: StatusText)
    ensures Caption(a) == Caption(b) <==> a == b
  {
  }
}

# Wavely core, modelled in Dafny

Wavely is a chat application with an AI companion. Users sign in, exchange
messages (some of them self-destructing "secret" messages), make voice or
video calls and play tic-tac-toe against the AI. This project models the
logic under that interface as pure Dafny functions and proves properties
about them:

- the game engine: win detection, the three AI strategies (random, a
  rule ladder, and exhaustive minimax), the game-state hook with its move
  guard, statistics and reset, and what the board view derives from a game;
- the AI's reply classification (game invitation, greeting, question,
  emotional message, persona default);
- the credential checks of login and sign-up, and the auth state they leave;
- the chat list: sending a message, the delayed status updates, marking a
  chat read, and the sweep that expires secret messages;
- the small formatters and guards of the composer, the message bubble and
  the call screen.

Randomness, the clock and generated ids are parameters. `pick: nat` stands
for a `Math.random()` choice: the model takes element `pick % n` of the
candidates, so every candidate is reachable. Times are integers in
milliseconds. Strings are sequences of code points. Where JavaScript
behaviour matters, it is written out:

- `includes` is a substring search (`Text.Contains`);
- `trim` uses the ECMAScript whitespace set (`Text.Trim`);
- `length` counts UTF-16 code units (`Text.Utf16Length`);
- `toLowerCase` is modelled for the characters whose lower case contains an ASCII letter: the ASCII capitals, the Kelvin sign (to `k`) and the dotted capital I (to `i` and a combining dot). Other characters are left as they are (`Text.ToLower`);
- `padStart` and `toString` are modelled as `Text.PadStart` and `Text.NatToString`.

The modules follow the source files:

| module | file | models |
|---|---|---|
| `Basics` | basics.dfy | `Option` for `null`/`undefined`, small arithmetic facts |
| `Text` | text.dfy | the JavaScript string operations the source relies on |
| `Board` | board.dfy | the board, `checkWinner`, empty cells, `findWinningMove` |
| `Search` | search.dfy | `minimax` and the `reduce` that picks its move |
| `Strategy` | strategy.dfy | `getRandomMove`, `getMediumMove`, `getHardMove`, `generateGameMove` |
| `ChatReply` | chat_reply.dfy | the classification order of `generateResponse` |
| `Game` | game.dfy | `useGame`: create, move, AI move, stats, reset, end |
| `GameView` | game_view.dfy | the turn, symbol, disabled-cell and status logic of the board view |
| `Auth` | auth.dfy | `useAuth`: login, sign-up, session restore, logout |
| `Messages` | messages.dfy | `useMessages`: send, status updates, mark-as-read, expiry sweep |
| `MessageInput` | message_input.dfy | the composer: submit guards, emoji, saved-reply categories |
| `MessageBubble` | message_bubble.dfy | the secret-message countdown, click guard and body choice |
| `Call` | call.dfy | the call timer, `MM:SS` formatting and status line |

### Behaviour modelled as the code has it

- The move guard of `makeMove` checks only that a game exists, that the
  target cell is unset and that nobody has won (src/hooks/useGame.ts:30).
  It does not check bounds or status. A position outside 0..8 is therefore
  accepted: JavaScript stores it as an extra array entry or property, and
  the turn passes without any cell being filled. `GameState.outside` records
  those entries. Entries from index 9 up to the last array index (2^32 - 2)
  survive the next `[...board]` copy. Negative ones and larger ones are
  plain properties, and the copy drops them. A move at index 9 on a drawn game
  completes it again and counts it again in the statistics.
- The statistics credit X's player only when `players.X` is the literal
  string `"current"` (src/hooks/useGame.ts:55).
- `makeAIMove` does not compare game ids, so a delayed AI move lands on
  whatever game is current (src/hooks/useGame.ts:88).
- Hard mode on a board that is already won returns position -1.
- `isGreeting` is a substring test, so "this" counts as a greeting (it
  contains "hi").
- The bubble's own timer marks a secret expired as soon as the whole
  seconds left reach 0, up to a second before `expiresAt`. The chat-wide
  sweep waits until `now >= expiresAt`. The timer writes the flag into the
  message object it was given, which is the one in the chat list, so the
  list carries the early flag too (`MessageBubble.TickInChats`).
- The persona lookup falls back to "AI Assistant" only on a falsy lookup.
  A name inherited from `Object.prototype` (such as "toString") finds a
  member with no reply tables, and the greeting and default replies then
  throw. The chat hook never passes a persona, so it always uses the
  default.

## Model

| member | source | states |
|---|---|---|
| Text.Contains | src/services/aiService.ts:200 | `includes` holds exactly when the substring occurs at some index |
| Text.ContainedCharsOccur | src/services/aiService.ts:225 | every character of a contained substring occurs in the string |
| Text.ContainsAny | src/services/aiService.ts:373-385 | true exactly when some word of the list occurs in the text |
| Text.Trim | src/components/chat/MessageInput.tsx:30 | the result is the slice between a whitespace prefix and a whitespace suffix, and does not start or end with whitespace |
| Text.TrimIdempotent | src/components/chat/MessageInput.tsx:30-31 | trimming a trimmed string changes nothing |
| Text.TrimEmptyIff | src/components/chat/MessageInput.tsx:30 | a string trims to empty exactly when it is all whitespace |
| Text.Utf16Length | src/hooks/useAuth.ts:82 | UTF-16 length lies between the code-point count and twice that, equals the count inside the Basic Multilingual Plane, and a single character counts 2 exactly when it lies above it |
| Text.Utf16LengthAppend | src/hooks/useAuth.ts:82 | the length of a concatenation is the sum of the lengths, so with the single-character case it gives the exact count of any string |
| Text.ToLower | src/services/aiService.ts:196 | never shorter than the input; without a dotted capital I it keeps the length and lower-cases each character (ASCII capitals and the Kelvin sign) |
| Text.ToLowerAppend | src/services/aiService.ts:196 | lower-casing distributes over concatenation |
| Text.NatToString | src/components/chat/MessageBubble.tsx:77 | decimal digits, no leading zero, one digit below 10, at most two below 100 |
| Text.ParseNatToString | src/components/chat/MessageBubble.tsx:77 | reading back the decimal rendering gives the number |
| Text.PadStart | src/components/chat/CallInterface.tsx:38 | the result has the larger of the two lengths, ends with the input, and has only fill characters before it |
| Text.ParsePadded | src/components/chat/CallInterface.tsx:38 | a zero-padded rendering still reads back as the number |
| Board.CheckWinner | src/services/aiService.ts:357-371 | no winner exactly when no line is won; otherwise the mark of the first won line in row, column, diagonal order |
| Board.OnlyWinner | src/services/aiService.ts:364-367 | when every won line is won by one mark, that mark is the winner |
| Board.Available | src/services/aiService.ts:329-331 | exactly the empty cells, in increasing order; empty exactly when the board is full |
| Board.AvailableShrinks | src/services/aiService.ts:339-345 | filling an empty cell removes exactly one available move |
| Board.FindWinningMove | src/services/aiService.ts:309-326 | -1 exactly when no line has two of the mark and a gap; otherwise the gap of the first such line, an empty cell |
| Board.FillingThreatWins | src/services/aiService.ts:320-321 | filling the gap of a threat completes that line for the mark |
| Board.NewlyWonLineIsMine | src/services/aiService.ts:364-367 | a line won only after a move runs through the moved cell and belongs to the mover |
| Board.FillingAThreatWins | src/services/aiService.ts:316-322 | filling any threat's gap on an unwon board makes the mark the winner |
| Board.WinningMoveWins | src/services/aiService.ts:309-326 | the returned cell is empty and playing it on an unwon board wins for the mark |
| Board.WinningMoveExample | src/services/aiService.ts:309-326 | on X X _ / O O _ / _ _ _ the winning cell is 2 for X and 5 for O |
| Search.Reduce | src/services/aiService.ts:350-354 | the reduction returns the starting value or one of the moves |
| Search.Pick | src/services/aiService.ts:350-354 | the pick is one of the moves |
| Search.ReduceFirstOptimal | src/services/aiService.ts:351-353 | a strict-comparison reduction ends on a move that is optimal and strictly better than every earlier move |
| Search.PickIsFirstOptimal | src/services/aiService.ts:350-354 | the pick is the first move with the best score |
| Search.Children | src/services/aiService.ts:337-348 | one scored move per empty cell, in cell order, each with a score in {-10, 0, 10} |
| Search.Minimax | src/services/aiService.ts:328-355 | on a finished board position -1 and score -10 / 10 / 0 for an X win / O win / draw; otherwise an empty cell; the score is always -10, 0 or 10 |
| Search.FirstOptimalOverPositions | src/services/aiService.ts:350-354 | the first-optimal move beats or ties every move and strictly beats every move at a lower cell |
| Search.MinimaxPicksFirstBest | src/services/aiService.ts:339-354 | on an unfinished board the chosen cell scores its child search, no empty cell scores better for the player, and every lower empty cell scores differently |
| Strategy.GetRandomMove | src/services/aiService.ts:274-280 | nothing on a full board, otherwise an empty cell |
| Strategy.RandomMoveReachesEveryEmptyCell | src/services/aiService.ts:279 | every empty cell is the random move for some choice |
| Strategy.AvailableCorners | src/services/aiService.ts:295-296 | exactly the empty corners |
| Strategy.GetMediumMove | src/services/aiService.ts:282-303 | O's winning cell, else X's winning cell, else the centre, else an empty corner, else any empty cell; nothing only on a full board |
| Strategy.MediumTakesTheWin | src/services/aiService.ts:284-285 | when O can win, the medium move wins for O |
| Strategy.MediumBlocks | src/services/aiService.ts:288-289 | when O cannot win but X can, the medium move is the cell that would win for X |
| Strategy.GetHardMove | src/services/aiService.ts:305-307 | an empty cell on an unfinished board, -1 on a finished one |
| Strategy.GenerateGameMove | src/services/aiService.ts:261-272 | "easy" is random, "medium" is the ladder, any other value is hard |
| Strategy.GeneratedMoveIsEmptyCell | src/services/aiService.ts:261-307 | on a board that is not full (and not won, for hard) every difficulty yields an empty cell |
| Strategy.HardMoveOnWonBoard | src/services/aiService.ts:305-307 | on a board X has won, hard returns -1 while medium still returns a cell |
| ChatReply.ResolvePersona | src/services/aiService.ts:197 | a known persona keeps its tables; an inherited `Object.prototype` name yields a member without tables; any other name falls back to "AI Assistant" |
| ChatReply.Respond | src/services/aiService.ts:192-259 | the classified reply, or none exactly when an inherited persona is asked for a greeting or a default reply, where the source throws |
| ChatReply.DefaultPersonaAnswers | src/services/aiService.ts:192 | with the default persona every message gets its classified reply |
| ChatReply.InheritedPersonaFails | src/services/aiService.ts:197-222 | a greeting to the persona "toString" fails instead of falling back |
| ChatReply.Classify | src/services/aiService.ts:192-259 | each kind is returned exactly when its own test holds and no earlier one does, in the order game invitation, early greeting, question mark, feeling words, persona default |
| ChatReply.ReplyType | src/services/aiService.ts:208-258 | the reply is typed "game-invite" exactly for an accepted invitation and "text" otherwise |
| ChatReply.NoGreetingLateInConversation | src/services/aiService.ts:217 | after more than two history messages no reply is a greeting |
| ChatReply.DeclinedGameFallsThrough | src/services/aiService.ts:200-214 | a declined invitation falls through to the remaining branches |
| ChatReply.QuestionBeforeFeelings | src/services/aiService.ts:225-240 | a question mark wins over emotional words unless an early greeting comes first |
| ChatReply.SubstringGreeting | src/services/aiService.ts:373-376 | "this" is classified as a greeting |
| ChatReply.DottedCapitalIGreets | src/services/aiService.ts:196-222 | "H" and a dotted capital I lower-case to "hi" and a dot, and so are greeted |
| Game.CreateGame | src/hooks/useGame.ts:14-27 | nine empty cells, X to move, no winner, not drawn, playing, with the two given players |
| Game.Play | src/hooks/useGame.ts:34-49 | only the target cell changes and takes the mover's mark; an out-of-range position is recorded with the mover's mark; earlier outside writes from 9 up to the last array index survive with their marks and all others are dropped; the turn flips; winner, draw and status are recomputed from the new board |
| Game.RecordResult | src/hooks/useGame.ts:53-66 | one more game, and exactly one of wins, losses, draws rises; a draw counts as a draw, and a win only for the credited mark |
| Game.Advance | src/hooks/useGame.ts:34-66 | stats change exactly when the move completes the game |
| Game.MakeMove | src/hooks/useGame.ts:29-84 | rejected moves change nothing; accepted ones play the move; the AI is scheduled exactly after X's move leaves the game running |
| Game.MakeAIMove | src/hooks/useGame.ts:86-125 | the same guard and transition as a player move |
| Game.ScheduledAIMove | src/hooks/useGame.ts:72-81 | the delayed AI move plays the medium move of the board captured when it was scheduled |
| Game.ResetGame | src/hooks/useGame.ts:127-138 | no game stays none; otherwise a fresh board with the same id and players |
| Game.EndGame | src/hooks/useGame.ts:140-142 | no current game afterwards |
| Game.CountAfterFill | src/hooks/useGame.ts:34-35 | filling an empty cell adds one to that mark's count and removes one empty cell |
| Game.FreshIsConsistent | src/hooks/useGame.ts:14-27 | a new game is balanced: X to move with equal counts |
| Game.InBoardMoveKeepsConsistency | src/hooks/useGame.ts:29-49 | an in-range move keeps the mark counts matched to whose turn it is |
| Game.OutsideMoveSkipsTurn | src/hooks/useGame.ts:30-37 | a position of 9 or more is accepted, leaves the board unchanged, flips the turn and unbalances the game |
| Game.DrawnGameCountedAgain | src/hooks/useGame.ts:30-66 | a move at index 9 on a drawn game is accepted and counts the draw again |
| Game.PropertyWriteDroppedByNextCopy | src/hooks/useGame.ts:34-36 | a write at a negative position or past the last array index is on the board it was made on, and gone after the next move's copy |
| Game.WinByNamedXCountsAsLoss | src/hooks/useGame.ts:55-56 | when X's player is not the literal "current", an X win counts as a loss |
| Game.AIMoveIgnoresGameId | src/hooks/useGame.ts:86-91 | the AI move gives the same result whatever the current game's id |
| Game.ScheduledAIMoveFillsOneCell | src/hooks/useGame.ts:72-81 | on an unwon, unfinished game the scheduled AI move fills one empty cell with the mover's mark |
| Game.ResetIdempotent | src/hooks/useGame.ts:127-138 | resetting twice is resetting once, and a new game is already reset |
| GameView.ViewerSymbol | src/components/game/TicTacToe.tsx:23-25 | X when the viewer plays X; O when the viewer plays only O; nothing for an outsider |
| GameView.WinnerText | src/components/game/TicTacToe.tsx:27-31 | draw first, then a win when the winner is the viewer's mark, otherwise the AI won |
| GameView.GetStatusText | src/components/game/TicTacToe.tsx:33-37 | the result exactly when completed, else "your turn" exactly when it is the viewer's turn, else "thinking" |
| GameView.CellDisabled | src/components/game/TicTacToe.tsx:57 | a cell is enabled exactly when the game's move guard accepts it and it is the viewer's turn |
| GameView.Caption | src/components/game/TicTacToe.tsx:27-37 | each status has a non-empty line |
| GameView.CaptionDeterminesStatus | src/components/game/TicTacToe.tsx:27-37 | two statuses show the same line exactly when they are the same status |
| GameView.EnabledCellIsAcceptedMove | src/components/game/TicTacToe.tsx:57 | a cell that is not disabled is a move the game accepts |
| GameView.TurnMatchesSymbol | src/components/game/TicTacToe.tsx:22-25 | with two different players, it is the viewer's turn exactly when the viewer's mark is to move |
| GameView.SelfPlayAlwaysViewersTurn | src/components/game/TicTacToe.tsx:22-25 | when both sides are the viewer, it is always the viewer's turn and the viewer's symbol is X |
| GameView.OutsiderNeverWins | src/components/game/TicTacToe.tsx:27-37 | a viewer who plays neither side sees "AI wins" for any completed, undrawn game |
| GameView.WinnerIsCongratulated | src/components/game/TicTacToe.tsx:27-37 | the player whose mark won sees "you won" |
| Auth.LoginError | src/hooks/useAuth.ts:72-85 | missing fields exactly when a field is empty; a missing '@' exactly when both are given without one; a short password exactly when both are given, the email has '@' and the password has under 6 code units; no error exactly when the credentials are valid |
| Auth.SignupError | src/hooks/useAuth.ts:116-134 | missing fields exactly when a field is empty, a short name exactly when all are given and the name has under 2 code units, then the login checks; no error exactly when all hold |
| Auth.ErrorMessage | src/hooks/useAuth.ts:72-134 | each failed check has a non-empty message |
| Auth.ErrorMessageDeterminesError | src/hooks/useAuth.ts:72-134 | two failed checks report the same message exactly when they are the same check |
| Auth.Login | src/hooks/useAuth.ts:65-107 | a failure only clears the loading flag; success signs in a user with the given email and a mock profile |
| Auth.Signup | src/hooks/useAuth.ts:109-156 | a failure only clears the loading flag; success signs in a user with the given name and email and a mock avatar |
| Auth.RestoreSession | src/hooks/useAuth.ts:38-63 | loading ends; a stored user is signed in; with nothing stored the previous state is kept |
| Auth.Logout | src/hooks/useAuth.ts:158-165 | no user, not signed in, not loading |
| Auth.TransitionsKeepWellFormed | src/hooks/useAuth.ts:65-165 | holds before the session is restored, and every transition keeps "signed in exactly when there is a user" |
| Auth.EmojiPasswordAccepted | src/hooks/useAuth.ts:82 | three emoji pass the six-character password check |
| Messages.FindChat | src/hooks/useMessages.ts:86 | nothing exactly when no chat has the id; otherwise the first chat with it |
| Messages.OtherParticipant | src/hooks/useMessages.ts:92 | the id of the first participant who is not the sender whenever there is one, and the empty string when there is none |
| Messages.NewMessage | src/hooks/useMessages.ts:89-106 | status "sending", the sender and receiver given, and secret data with a 30-second lifetime exactly for secrets |
| Messages.SendMessage | src/hooks/useMessages.ts:85-150 | an unknown chat changes nothing; otherwise the new message is appended and an AI reply is requested exactly for types other than invitation and secret |
| Messages.AppendMessage | src/hooks/useMessages.ts:108-116 | every chat with the id gains the message at its end; every other chat is unchanged |
| Messages.SendOnlyAppends | src/hooks/useMessages.ts:108-116 | every chat keeps its id, participants, unread count and existing messages; only the target grows, by one |
| Messages.SetStatus | src/hooks/useMessages.ts:119-145 | in the target chat only the message with the id changes, and only its status |
| Messages.SetStatusLastWins | src/hooks/useMessages.ts:119-145 | of two status updates to one message the later one remains, so "delivered" after "sent" leaves "delivered" |
| Messages.SetStatusUnknownIdChangesNothing | src/hooks/useMessages.ts:119-145 | an update for an id the chat does not hold changes nothing |
| Messages.MarkAsRead | src/hooks/useMessages.ts:256-269 | the chat's unread count becomes 0 and exactly its messages addressed to the user become read |
| Messages.MarkAsReadIdempotent | src/hooks/useMessages.ts:256-269 | marking a chat read twice is marking it once |
| Messages.SweepExpiresExactlyTheDue | src/hooks/useMessages.ts:274-289 | after the sweep a message is expired exactly when it was already or was due; nothing else changes |
| Messages.ExpireSweep | src/hooks/useMessages.ts:272-292 | the chat list keeps its shape, and each message becomes what expiring it at that time gives |
| Messages.SweepsCompose | src/hooks/useMessages.ts:272-292 | a sweep at a later time subsumes an earlier one |
| Messages.SweepIdempotent | src/hooks/useMessages.ts:272-292 | sweeping twice at the same time is sweeping once |
| MessageInput.HandleSubmit | src/components/chat/MessageInput.tsx:28-36 | sends the trimmed text exactly when it is not blank and the input is enabled, as a secret exactly when asked, then clears the draft |
| MessageInput.SendSecretMessage | src/components/chat/MessageInput.tsx:44-51 | sends the trimmed text as a secret exactly when it is not blank |
| MessageInput.SentTextIsTrimmed | src/components/chat/MessageInput.tsx:30-31 | the sent text is non-empty, has no outer whitespace, and submits unchanged again |
| MessageInput.SecretButtonIgnoresDisabled | src/components/chat/MessageInput.tsx:28-51 | with the input disabled the form sends nothing while the secret button still sends |
| MessageInput.AddEmoji | src/components/chat/MessageInput.tsx:38-42 | the draft is kept as a prefix and the emoji follows it |
| MessageInput.EmojiMakesDraftSendable | src/components/chat/MessageInput.tsx:28-42 | after adding a visible emoji the draft can be sent |
| MessageInput.Distinct | src/components/chat/MessageInput.tsx:59 | the same values without duplicates, in order of first occurrence |
| MessageInput.Categories | src/components/chat/MessageInput.tsx:59 | "all" first, then each reply category exactly once, in the order of its first occurrence |
| MessageInput.AllChipRepeated | src/components/chat/MessageInput.tsx:59 | a reply filed under "all" makes "all" appear twice |
| MessageInput.FilterCategory | src/components/chat/MessageInput.tsx:62 | exactly the replies of the category |
| MessageInput.FilterCategoryAppend | src/components/chat/MessageInput.tsx:62 | filtering distributes over concatenation, so order is kept |
| MessageInput.FilteredReplies | src/components/chat/MessageInput.tsx:60-62 | everything for "all"; otherwise exactly the replies of the selected category, in their order, as the category filter whose concatenation law is FilterCategoryAppend |
| MessageInput.EveryChipShowsSomething | src/components/chat/MessageInput.tsx:59-62 | every category chip selects at least one reply |
| MessageBubble.Remaining | src/components/chat/MessageBubble.tsx:30 | whole seconds left, never negative, 0 from `expiresAt` on and also in the last second before it |
| MessageBubble.FormatTimeRoundTrip | src/components/chat/MessageBubble.tsx:74-78 | the two fields read back as minutes and seconds below 60 that recombine to the input |
| MessageBubble.FormatTime | src/components/chat/MessageBubble.tsx:74-78 | the minutes as rendered, a colon, then the seconds left over padded to two digits |
| MessageBubble.TimerTick | src/components/chat/MessageBubble.tsx:25-43 | a countdown exactly for secrets with data; the message becomes expired exactly when it was or less than a second is left |
| MessageBubble.TickInChats | src/components/chat/MessageBubble.tsx:33-36 | the tick's flag lands on the same entry of the chat list, and nothing else in the list changes |
| MessageBubble.EarlyFlagAgreesWithSweep | src/hooks/useMessages.ts:272-292 | once a secret is past its expiry, the sweep gives the same chat list whether or not the bubble's flag was written first |
| MessageBubble.ChatListSeesEarlyFlag | src/components/chat/MessageBubble.tsx:33-36 | in the last second the chat list already holds the flag that the sweep would not yet set |
| MessageBubble.BubbleExpiresNoLaterThanSweep | src/components/chat/MessageBubble.tsx:33-36 | whatever the chat sweep would expire, the bubble's tick expires the same way |
| MessageBubble.BubbleExpiresInLastSecond | src/components/chat/MessageBubble.tsx:30-36 | in the last second before expiry the bubble expires a message the sweep keeps |
| MessageBubble.HandleClick | src/components/chat/MessageBubble.tsx:45-57 | reveals exactly a secret that is not expired, and reports it as viewed only when newly revealed and a callback exists |
| MessageBubble.Render | src/components/chat/MessageBubble.tsx:80-137 | plain text for non-secrets; for secrets the expired notice first, then the concealed face, then the content; both the concealed and the revealed face show the formatted countdown exactly when there is one |
| MessageBubble.ClickShowsSecret | src/components/chat/MessageBubble.tsx:45-137 | after a click the bubble shows the content with its countdown unless the secret has expired |
| MessageBubble.ExpiredStaysHidden | src/components/chat/MessageBubble.tsx:33-90 | once past `expiresAt`, the tick hides the content whatever the reveal state |
| Call.TicksCount | src/components/chat/CallInterface.tsx:21-33 | n ticks add n seconds to a connected call and nothing otherwise |
| Call.Tick | src/components/chat/CallInterface.tsx:21-33 | one interval step adds a second exactly while connected and keeps the status |
| Call.FormatDuration | src/components/chat/CallInterface.tsx:35-39 | both fields padded to two digits around a colon; five characters exactly below 100 minutes |
| Call.FormatDurationRoundTrip | src/components/chat/CallInterface.tsx:35-39 | the two fields read back as minutes and seconds below 60 that recombine to the input |
| Call.StatusText | src/components/chat/CallInterface.tsx:41-52 | "Connecting...", the formatted duration, or "Call ended" by status |
| Call.StatusTextDeterminesStatus | src/components/chat/CallInterface.tsx:41-52 | equal status lines mean equal statuses |

## Left out

- Timers and delays (`setTimeout`, `setInterval`, the AI's thinking delay): each delayed step is a transition the caller invokes at a time of its choosing, with the clock as a parameter.
- `Math.random`: each random choice is an index `pick % n`. The 70% chance of accepting a game invitation is the boolean `acceptsGame`.
- `localStorage`, JSON parsing, `Date.now()` ids and timestamps, and downloads: these are I/O. A stored user, ids and the time are parameters.
- The reply texts of the personas and the canned responses: `ChatReply.Classify` returns which category answers, not the text. The random choice among texts is left out.
- `generateAIResponse` in src/hooks/useMessages.ts (typing indicator, message construction for AI replies, the delays): only the decision to request a reply is modelled.
- `savedReplies`: the composer imports it from a module that does not define it, so the list is a parameter.
- React state batching, effects and rendering (framer-motion, icons, date-fns formatting, JSX): only the values the components compute are modelled.
- Game.MakeMove: positions that are not integers, and the effect of out-of-range entries on boards handed to the AI or the view, are not modelled; the board itself stays nine cells and extra entries live in `outside`.
- Game.ScheduledAIMove: requires a board that is not full, where the source would read `undefined` from an empty candidate list. That case cannot occur, because the AI is only scheduled while the game is still playing.
- Text.ToLower: lower-cases the ASCII capitals, the Kelvin sign and the dotted capital I, and leaves every other character unchanged. JavaScript's full case mapping changes many more letters, but each of them lower-cases to non-ASCII characters, and every keyword the classifier looks for is ASCII, a question mark or an emoji. So the keyword tests, and `ChatReply.Classify`, do not depend on those letters.
- The win rate in the statistics view uses floating-point division and is not modelled.
- Search.Minimax: the model proves what the search computes (a first-optimal child by the recursive scores), not that hard mode never loses.
- Call: the call's type, participant and controls (mute, video, speaker) only drive rendering and are not modelled.
- MessageBubble.TickInChats: the bubble's message object is identified with its position in the chat list. The write does not trigger a re-render in the source, so the list shows the flag from its next render on; rendering is not modelled.
- MessageBubble.HandleClick: the reveal hides itself again after 10 seconds in the source; that delayed step is the caller passing `revealed` as false again.

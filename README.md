# Arabic letters game — a verified model of its game logic

The letters game is played on a board of 25 hexagonal cells, each holding an
Arabic letter. A host creates a session: a room with a six-digit join code
and the room's first game, whose board holds 25 letters drawn from a
28-letter alphabet. Spectators join with the code. On each turn the host
clicks a cell. A question for that cell's letter is drawn from the question
bank and shown hidden in a dialog. The host reveals it, which starts a
60-second countdown on the spectators' screens. The host then colours the
cell green, purple or "none". The scores are recounted and the turn passes
to the other team. Every change goes through one shared game row, which the
host writes and the spectators follow through realtime notifications.

The model is split into these modules:

- `Board` (board.dfy): cells, owners and teams, with four board functions.
  `Count` gives the scores, `SetOwner` records an answer, `FindCell` looks up
  the clicked cell and `Toggle` passes the turn. The small `Wrappers` module
  in the same file holds `Option`.
- `Sync` (sync.dfy): the shared row as clients read it (`Snapshot`), a write
  (`Patch`), and `ApplyPatch`, the effect of one write.
- `Game` (game.dfy): the host screen. `HostGame` is a class whose fields are
  the screen's state. Its methods are the screen's handlers, and each returns
  the write it sends to the shared row.
- `PlayerView` (player_view.dfy): the spectator screen. `Spectator` is a
  class, and the countdown is integer arithmetic on millisecond timestamps.
- `Entry` (entry_modal.dfy): session creation, the join code, the
  code-input filter and joining. `EntryScreen` is a class.
- `GameBoard` (game_board.dfy): the layout of the board as five rows of
  five hexagons, and the position each one reports when clicked.
- `QuestionModal` (question_modal.dfy): what the host's dialog shows, and
  the call its colour buttons make.
- `Session` (session.dfy): follows each of the host's writes through the
  shared row to what a spectator then shows.

Randomness, the clock and the backend are parameters:

- `order` is the order the shuffle leaves the alphabet in: each position
  0..27 once.
- `pick` is the index of the drawn question, below the number of rows.
- `r` is the random number behind the join code, in `[0, 900000)`.
- `now` is the current time in milliseconds.
- Fresh room and game ids are passed in.
- Each backend call's outcome is a parameter: a fetched row or an error, the
  rows a query returns, or whether an insert succeeded.

Some behaviours of the code that the model keeps as they are:

- The spectator's update handler overwrites all five fields, putting a
  default in place of a missing one; it does not merge.
- The spectator's countdown is fixed at 60 seconds. It ignores the stored
  timer duration, which is 15 for new games.
- There is no INSERT subscription.
- A DELETE of the game sends the spectator home; it does not switch to
  another game.
- Closing the dialog never writes the shared row.
- The click handler itself has no guard against a question that is already
  open. What blocks the board is the open dialog: it is modal and is shown
  before the question query runs, so its backdrop covers the board and no
  cell click reaches the handler. The model's `CellClick` has no such guard
  either.

## Model

| member | source | states |
|---|---|---|
| Board.Toggle | src/components/Game.js:241 | the next team is always the other team |
| Board.Count | src/components/Game.js:230-231 | a score is at most the board size, and is zero exactly when no cell has that owner |
| Board.CountsPartition | src/components/Game.js:230-233 | green, purple and unowned cells add up to the whole board, so the two scores never exceed the number of cells |
| Board.SetOwner | src/components/Game.js:223-225 | answering keeps the board's length and every cell's id and letter; cells with the given id get the colour; every other cell is unchanged |
| Board.SetOwnerAbsent | src/components/Game.js:223-225 | answering for an id no cell has leaves the board unchanged |
| Board.SetOwnerCount | src/components/Game.js:223-233 | with distinct ids, answering cell k moves exactly that cell between owners: each score loses its old owner and gains the new one |
| Board.IndicesAreDistinct | src/components/EntryModal.js:67-71 | a board whose ids are its positions has no repeated id |
| Board.FindCell | src/components/Game.js:143-144 | the lookup finds nothing exactly when no cell has the id; what it finds is the first cell, in board order, with that id |
| Board.FindCellAt | src/components/Game.js:143 | with distinct ids, looking up a cell's id finds that very cell |
| QuestionModal.Render | src/components/QuestionModal.js:25-125 | no dialog without a selected cell; the title shows the cell's letter; the reveal button shows exactly while the question is hidden, and the question text exactly once it is revealed; the answer shows exactly when revealed and non-empty; the colour buttons do not depend on the reveal flag |
| QuestionModal.ColourChoicesComplete | src/components/QuestionModal.js:177-219 | the three offered colours are distinct and cover every owner a cell can have |
| QuestionModal.Dispatch | src/components/QuestionModal.js:27-30 | a colour button exists exactly when the dialog does, and it forwards the chosen colour with the selected cell's id |
| Game.QuestionPatch | src/components/Game.js:169-176 | the write after a drawn question, applied to any row, sets the question text, hides it and clears the timer, and keeps board, team and join code |
| Game.RevealPatch | src/components/Game.js:208-216 | the reveal's write, applied to any row, sets the flag and starts the timer at now, and keeps everything else |
| Game.AnswerPatch | src/components/Game.js:236-243 | the answer's write, applied to any row, stores the new board and the team other than the given one, and keeps question, flag, timer and join code |
| Game.HostGame.constructor | src/components/Game.js:24-37 | the host screen starts loading with an empty board, green to play, both scores 0 and no selection |
| Game.HostGame.ApplyRow | src/components/Game.js:56-79 | board and team are always overwritten, with a default for a missing value; question and reveal flag change only when the row has them; scores are recounted only when the row has a board |
| Game.HostGame.ApplyUpdate | src/components/Game.js:54-80 | an UPDATE without a new row changes nothing; otherwise it acts as ApplyRow |
| Game.HostGame.Load | src/components/Game.js:91-138 | a missing game or a failed fetch sends the browser home and leaves the screen loading and unchanged; otherwise the row is taken as by an update, plus the join code, and loading ends |
| Game.HostGame.CellClick | src/components/Game.js:140-186 | while locked out, or for an id no cell has, nothing changes; otherwise the cell is selected, the dialog opens hidden, and the question comes from the drawn row, or is the error text or the no-question text with an empty answer; only a drawn question is written, as its text, hidden, with the timer cleared, and never with the answer |
| Game.HostGame.RevealQuestion | src/components/Game.js:203-217 | the local flag is set; the write, when there is a game id, sets the flag and starts the timer at now; nothing else changes |
| Game.HostGame.QuestionAnswer | src/components/Game.js:219-263 | while locked out nothing changes; otherwise the cell gets the colour, the scores are the counts of the new board and sum to at most its size, the team toggles once whatever the colour, the write carries the new board and the other team, the dialog closes and the screen locks out |
| Game.HostGame.UnlockTimeout | src/components/Game.js:262 | the timeout after an answer ends the lockout |
| Game.HostGame.CloseModal | src/components/Game.js:407-410 | closing hides the dialog and drops the selection and touches nothing else, including the shared row |
| Game.HostGame.ModalAnswer | src/components/QuestionModal.js:27-30 | a colour button answers for the selected cell and then closes the dialog, sending the answer's write when there is a game id; while locked out, or with no selected cell, board, team and scores stay and nothing is written |
| Game.HostGame.PlayAgain | src/components/Game.js:270-278 | the game row is deleted exactly when there is a game id, and the browser goes home |
| PlayerView.TimeLeft | src/components/PlayerView.js:91-98 | the countdown reads 0 exactly from 60 seconds after the start; a positive reading t means the elapsed time lies in whole second 60 - t |
| PlayerView.TimeLeftInSecond | src/components/PlayerView.js:91-98 | during the k-th whole second after the start the countdown reads 60 - k, down to 0 |
| PlayerView.TimeLeftRange | src/components/PlayerView.js:91-98 | the countdown reads 60 at its start; it reads at most 60 exactly when the start is not in the future; it reads 0 exactly from 60 seconds after the start |
| PlayerView.TimeLeftMonotone | src/components/PlayerView.js:91-98 | the countdown never goes up as time passes |
| PlayerView.UrgentWindow | src/components/PlayerView.js:338-340 | the urgent styling applies exactly from 50 seconds after the start |
| PlayerView.TimerRuns | src/components/PlayerView.js:89 | the countdown runs exactly when the question panel shows the question text and a start time is stored |
| PlayerView.QuestionPanel | src/components/PlayerView.js:391-424 | the panel shows the text exactly when the question is non-empty and revealed, the placeholder exactly when non-empty and hidden, and "no question" exactly when empty |
| PlayerView.TimerShown | src/components/PlayerView.js:322 | the timer block shows exactly when the panel shows the question text, and always while the countdown runs |
| PlayerView.Spectator.constructor | src/components/PlayerView.js:26-32 | the spectator starts loading with an empty board, green, no question and a full 60-second display |
| PlayerView.Spectator.TimerEffect | src/components/PlayerView.js:86-121 | a running countdown shows the time left at now and ticks only if time is left; otherwise it shows 60 and does not tick |
| PlayerView.Spectator.Tick | src/components/PlayerView.js:105-110 | each tick recomputes the time left from the start and stops at 0; without an interval nothing changes |
| PlayerView.Spectator.Reconcile | src/components/PlayerView.js:53-121 | all five fields are overwritten, with defaults for missing values, and the timer effect reruns exactly when the question, reveal flag or start changed |
| PlayerView.Spectator.ApplyUpdate | src/components/PlayerView.js:49-61 | an UPDATE without a new row changes nothing; otherwise it overwrites, never merges, and when the question, flag or start changed the countdown is recomputed at now as by the timer effect, otherwise it is kept |
| PlayerView.Spectator.Load | src/components/PlayerView.js:123-154 | a missing game or a failed fetch sends the browser home and leaves the screen loading; otherwise the row is taken with defaults, the countdown is recomputed at now as by the timer effect when the question, flag or start changed, and loading ends |
| PlayerView.Spectator.ApplyDelete | src/components/PlayerView.js:63-75 | a DELETE of the game always sends the browser home |
| Entry.AlphabetDistinct | src/components/EntryModal.js:24-53 | the alphabet has 28 letters, no two alike |
| Entry.RandomLetters | src/components/EntryModal.js:54-55 | a new board's letters are 25 distinct letters of the alphabet |
| Entry.InitialBoard | src/components/EntryModal.js:67-71 | cell i of a new board has id i, letter i and no owner, so both scores start at 0 |
| Entry.FirstGame | src/components/EntryModal.js:95-102 | the first game of a room belongs to the room, has green to play, timer duration 15 and 25 unowned cells with distinct letters whose ids are their positions |
| Entry.DecimalString | src/components/EntryModal.js:60 | a decimal notation is non-empty, all digits, and has no leading zero |
| Entry.ParseDecimalString | src/components/EntryModal.js:60 | reading back the decimal notation of n gives n |
| Entry.DecimalLength | src/components/EntryModal.js:60 | a number with k digits is written with exactly k characters |
| Entry.SharedId | src/components/EntryModal.js:59-61 | the join code always has exactly six digits, the first not zero, and denotes 100000 + r, so it lies in [100000, 999999] |
| Entry.DigitsOnly | src/components/EntryModal.js:275 | the filtered input is all digits and no longer than what was typed |
| Entry.DigitsOnlyAppend | src/components/EntryModal.js:275 | the filter works piece by piece, so it keeps the digits in their order |
| Entry.DigitsOnlyOccurrences | src/components/EntryModal.js:275 | the filter keeps every digit as often as it occurs and drops every other character |
| Entry.DigitsOnlyOfDigits | src/components/EntryModal.js:275 | the filter changes nothing in a string of digits |
| Entry.TrimStart | src/components/EntryModal.js:123 | the result is a suffix of the input that does not start with white space, and everything removed is white space |
| Entry.TrimEnd | src/components/EntryModal.js:123 | the result is a prefix of the input that does not end with white space, and everything removed is white space |
| Entry.Trim | src/components/EntryModal.js:123 | trimming gives a piece of the input with only white space before and after it, which neither starts nor ends with white space |
| Entry.TrimDigits | src/components/EntryModal.js:123 | trimming a digit string changes nothing |
| Entry.RoomsWithCode | src/components/EntryModal.js:128-132 | the rooms matched are exactly those with the code, each as often as the table holds it |
| Entry.SingleMatch | src/components/EntryModal.js:128-132 | the query returns a single row exactly when exactly one row of the table has the code, and then it returns that row |
| Entry.FindRoom | src/components/EntryModal.js:128-138 | a room is found exactly when exactly one row has the code, and then it is that row; a code no room has finds none |
| Entry.LatestGame | src/components/EntryModal.js:141-153 | a game is found exactly when the room has one, and it is a game of the room created no earlier than any other |
| Entry.EntryScreen.constructor | src/components/EntryModal.js:19-21 | the entry screen starts with the code input hidden and empty, not loading |
| Entry.EntryScreen.OpenJoin | src/components/EntryModal.js:237 | the join button shows the code input and keeps the code at most six digits |
| Entry.EntryScreen.Back | src/components/EntryModal.js:327-330 | the back button hides the code input and clears the code |
| Entry.EntryScreen.OnRoomCodeChange | src/components/EntryModal.js:274-279 | the code becomes the typed digits when there are at most six, and is otherwise unchanged, so it is always at most six digits |
| Entry.EntryScreen.CreateNewGame | src/components/EntryModal.js:63-120 | the room is inserted first; a failed room insert stops before the game insert; then the first game is inserted; the browser goes to the host screen only when both succeed, and loading ends otherwise; the code stays at most six digits |
| Entry.JoinEnabled | src/components/EntryModal.js:303 | the join button is enabled exactly when the code has six characters and nothing is loading |
| Entry.JoinButtonPassesGuard | src/components/EntryModal.js:303 | for a code of digits, as the input holds, an enabled button's code passes the handler's trimmed-length check unchanged |
| Entry.EntryScreen.JoinRoom | src/components/EntryModal.js:122-162 | nothing happens unless the trimmed code has six characters; no single room, or a room without a game, ends loading without navigating; a code exactly one room has, where that room has a game, goes to the room's newest game; the browser goes to no other screen; the code stays at most six digits |
| Entry.JoinSucceeds | src/components/EntryModal.js:128-156 | when exactly one room has the code and that room has a game, the lookup finds that room and a game of it |
| Entry.JoinLandsInRoom | src/components/EntryModal.js:128-156 | a successful join lands on a game of the room the code names, and on its newest game |
| GameBoard.Slice | src/components/GameBoard.js:85 | a slice past the end is short or empty, never an error, and holds the elements from its start in order |
| GameBoard.RowCells | src/components/GameBoard.js:85-96 | row i holds cells 5i up to 5i+4 as far as the board reaches; column j reports position 5i + j and is selected exactly when that is the selected id |
| GameBoard.CreateHexGrid | src/components/GameBoard.js:82-106 | the loop builds exactly five rows, row i being RowCells of i |
| GameBoard.BoardView | src/components/GameBoard.js:88-96 | the reference definition the grid is compared against: the hexagons of the first n positions, in order |
| GameBoard.GridPrefix | src/components/GameBoard.js:84-85 | the first n rows, read in order, are the hexagons of the first 5n positions |
| GameBoard.GridCoversBoard | src/components/GameBoard.js:82-106 | read row by row, the grid is exactly the board's first 25 cells in order, each reporting its own position |
| GameBoard.EachPositionOnce | src/components/GameBoard.js:84-95 | on a 25-cell board position k is shown in row k/5 at column k%5, and no two hexagons report the same position |
| GameBoard.ClickFindsCell | src/components/GameBoard.js:89-95 | when ids are positions, the id a hexagon reports finds the very cell it shows |
| Session.AnswerReachesSpectators | src/components/Game.js:236-243 | after an answer spectators see the new board and the other team, the green and purple cells of that board are at most its size, and the question, flag and timer are kept |
| Session.QuestionReachesSpectatorsHidden | src/components/Game.js:169-176 | a drawn question reaches spectators hidden with the countdown stopped, and board and team are kept |
| Session.RevealStartsSpectatorCountdown | src/components/Game.js:208-216 | a reveal shows spectators the drawn question and starts a countdown that reads 60 at the reveal, never goes up, and reaches 0 exactly 60 seconds later |
| Session.AnswerKeepsPositions | src/components/Game.js:223-225 | answering keeps ids equal to positions, so every position still finds its cell |

## Left out

- Backend calls are not modelled: the Supabase queries, inserts, updates, deletes and channel subscriptions. Their outcomes are parameters. The row itself is modelled only by `Sync.ApplyPatch`.
- The model assumes backend calls report failures as results and never throw. The three handlers below treat a throw differently from an error result, and the model does not capture that.
- Game.HostGame.QuestionAnswer: a rejected board update would skip the team toggle, the dialog close and the lockout; the model always does them.
- Game.HostGame.PlayAgain: a rejected delete would skip the navigation home; the model always navigates.
- Game.HostGame.CellClick: a throw from the question write would land in the handler's catch and replace the drawn question with the error text; the model keeps the drawn question.
- Effects, intervals and timeouts are not modelled as timers. The countdown's interval is the `ticking` flag plus `Tick(now)`, and the answer lockout's timeout is `UnlockTimeout`.
- Entry.RandomLetters: the comparator-based sort shuffle is modelled as an arbitrary order of the 28 positions, because its biased distribution is not a property of the game.
- The question draw and the join code's random number are modelled the same way, as parameters in their ranges.
- Timestamps are integer milliseconds. Writing the ISO date string and parsing it back is not modelled.
- A reveal flag stored as null is read as false by the spectator. The host keeps it as present, which the model has as `false`.
- A team stored as a string other than green or purple is not modelled.
- Entry.LatestGame: games created at the same instant are resolved in table order. The database's order for equal timestamps is unspecified.
- The host never passes a selected cell id to the board view, so the model's `selectedCellId` is `None` there. The layout lemmas hold for any value.
- QuestionModal.Render: the dialog's `open` flag is passed straight to the dialog component and is not part of the view.
- Alerts, console output, sounds, styling, the odd-row offset, breakpoints and the other presentational components are left out.
- Routing is modelled only as the `Nav` value a handler returns.
- The commented-out win check is left out.
- Interleavings of concurrent asynchronous handlers and writers are not modelled. Each handler runs to completion with its backend results given.
- PlayerView.Spectator.Reconcile: the countdown length is 60 seconds, as on the spectator screen. The stored timer duration is not read.

/**
 * The host (controller) screen of one game: it picks cells, draws questions,
 * reveals them, records answers and keeps its local copy of the game row in
 * step with realtime updates.
 *
 * Each handler of the screen is a method of `HostGame` that changes the
 * screen's state fields and returns the write it sends to the shared game
 * row, if any. The outcomes of backend calls are parameters.
 */
module Game {
  import opened Wrappers
  import opened Board
  import opened Sync
  import QuestionModal

  /** One row of the question bank. */
  datatype Question = Question(questionText: string, answer: string)

  /** Outcome of the query for the questions of one letter. */
  datatype QuestionQuery = QueryFailed | QueryRows(rows: seq<Question>)

  /** Shown when the question query fails. */
  const QuestionErrorText: string := "حدث خطأ في تحميل السؤال"
  /** Shown when the letter has no question. */
  const NoQuestionText: string := "لا توجد أسئلة متاحة لهذا الحرف"

  /**
   * The write after a question is drawn: on any row it sets the question's
   * text, hides it and clears the timer, and keeps board, team and join code.
   */
  function QuestionPatch(text: string): (p: Patch)
    ensures forall row :: ApplyPatch(row, p) ==
              row.(currentQuestion := Present(Some(text)), isQuestionRevealed := Present(false),
                   timerStartTime := None)
  {
    Patch(Absent, Absent, Present(Some(text)), Present(false), Present(None))
  }

  /**
   * The write on reveal: on any row it sets the flag and starts the timer at
   * `now`, and keeps board, team, question and join code.
   */
  function RevealPatch(now: int): (p: Patch)
    ensures forall row :: ApplyPatch(row, p) ==
              row.(isQuestionRevealed := Present(true), timerStartTime := Some(now))
  {
    Patch(Absent, Absent, Absent, Present(true), Present(Some(now)))
  }

  /**
   * The write after an answer: on any row it stores the whole new board and
   * the team other than `team`, and keeps question, flag, timer and join code.
   */
  function AnswerPatch(newBoard: seq<Cell>, team: Team): (p: Patch)
    ensures forall row :: ApplyPatch(row, p) ==
              row.(boardState := Some(newBoard), currentTeam := Some(Toggle(team)))
    ensures Toggle(team) != team
  {
    Patch(Present(newBoard), Present(Toggle(team)), Absent, Absent, Absent)
  }

  class HostGame {
    const gameId: string

    var board: seq<Cell>
    var currentTeam: Team
    var greenScore: nat
    var purpleScore: nat
    var disabled: bool
    var currentQuestion: Option<string>   // None: undefined or null
    var currentAnswer: string
    var isLoading: bool
    var sharedId: Option<string>
    var selectedCell: Option<Cell>
    var showQuestionModal: bool
    var isQuestionRevealed: bool

    constructor (gameId: string)
      ensures this.gameId == gameId
      ensures board == [] && currentTeam == Green && greenScore == 0 && purpleScore == 0
      ensures !disabled && currentQuestion == None && currentAnswer == ""
      ensures isLoading && sharedId == None
      ensures selectedCell == None && !showQuestionModal && !isQuestionRevealed
    {
      this.gameId := gameId;
      board, currentTeam, greenScore, purpleScore := [], Green, 0, 0;
      disabled, currentQuestion, currentAnswer := false, None, "";
      isLoading, sharedId := true, None;
      selectedCell, showQuestionModal, isQuestionRevealed := None, false, false;
    }

    /**
     * Takes the board, team, question and reveal flag of a row. Board and team
     * are always overwritten (with defaults when missing); question and reveal
     * flag only when the row has the key; the scores only when it has a board.
     */
    method ApplyRow(s: Snapshot)
      modifies this`board, this`currentTeam, this`currentQuestion, this`isQuestionRevealed,
               this`greenScore, this`purpleScore
      ensures board == BoardOrEmpty(s) && currentTeam == TeamOrGreen(s)
      ensures currentQuestion ==
                if s.currentQuestion.Present? then s.currentQuestion.value else old(currentQuestion)
      ensures isQuestionRevealed ==
                if s.isQuestionRevealed.Present? then s.isQuestionRevealed.value else old(isQuestionRevealed)
      ensures s.boardState.Some? ==>
                greenScore == Count(board, Green) && purpleScore == Count(board, Purple)
      ensures s.boardState.None? ==>
                greenScore == old(greenScore) && purpleScore == old(purpleScore)
    {
      board := BoardOrEmpty(s);
      currentTeam := TeamOrGreen(s);
      if s.currentQuestion.Present? {
        currentQuestion := s.currentQuestion.value;
      }
      if s.isQuestionRevealed.Present? {
        isQuestionRevealed := s.isQuestionRevealed.value;
      }
      if s.boardState.Some? {
        greenScore := Count(s.boardState.value, Green);
        purpleScore := Count(s.boardState.value, Purple);
      }
    }

    /** The realtime UPDATE handler: a payload without a new row is ignored. */
    method ApplyUpdate(payload: Option<Snapshot>)
      modifies this`board, this`currentTeam, this`currentQuestion, this`isQuestionRevealed,
               this`greenScore, this`purpleScore
      ensures payload.None? ==>
                board == old(board) && currentTeam == old(currentTeam) &&
                currentQuestion == old(currentQuestion) && isQuestionRevealed == old(isQuestionRevealed) &&
                greenScore == old(greenScore) && purpleScore == old(purpleScore)
      ensures payload.Some? ==> board == BoardOrEmpty(payload.value) && currentTeam == TeamOrGreen(payload.value)
      ensures payload.Some? ==>
                currentQuestion == if payload.value.currentQuestion.Present?
                                   then payload.value.currentQuestion.value else old(currentQuestion)
      ensures payload.Some? ==>
                isQuestionRevealed == if payload.value.isQuestionRevealed.Present?
                                      then payload.value.isQuestionRevealed.value else old(isQuestionRevealed)
      ensures payload.Some? && payload.value.boardState.Some? ==>
                greenScore == Count(board, Green) && purpleScore == Count(board, Purple)
      ensures payload.Some? && payload.value.boardState.None? ==>
                greenScore == old(greenScore) && purpleScore == old(purpleScore)
    {
      if payload.Some? {
        ApplyRow(payload.value);
      }
    }

    /**
     * Loading the game on mount. A missing game or a failed fetch sends the
     * browser home and leaves the screen loading; otherwise the row is taken
     * as by an update, plus the join code, and loading ends.
     */
    method Load(f: Fetch) returns (nav: Nav)
      modifies this`board, this`currentTeam, this`currentQuestion, this`isQuestionRevealed,
               this`greenScore, this`purpleScore, this`sharedId, this`isLoading
      ensures !f.Fetched? ==>
                nav == NavigateHome && isLoading &&
                board == old(board) && currentTeam == old(currentTeam) &&
                currentQuestion == old(currentQuestion) && isQuestionRevealed == old(isQuestionRevealed) &&
                greenScore == old(greenScore) && purpleScore == old(purpleScore) &&
                sharedId == old(sharedId)
      ensures f.Fetched? ==> nav == Stay && !isLoading && sharedId == f.row.sharedId
      ensures f.Fetched? ==> board == BoardOrEmpty(f.row) && currentTeam == TeamOrGreen(f.row)
      ensures f.Fetched? ==>
                currentQuestion == if f.row.currentQuestion.Present?
                                   then f.row.currentQuestion.value else old(currentQuestion)
      ensures f.Fetched? ==>
                isQuestionRevealed == if f.row.isQuestionRevealed.Present?
                                      then f.row.isQuestionRevealed.value else old(isQuestionRevealed)
      ensures f.Fetched? && f.row.boardState.Some? ==>
                greenScore == Count(board, Green) && purpleScore == Count(board, Purple)
      ensures f.Fetched? && f.row.boardState.None? ==>
                greenScore == old(greenScore) && purpleScore == old(purpleScore)
    {
      isLoading := true;
      if !f.Fetched? {
        nav := NavigateHome;
        return;
      }
      ApplyRow(f.row);
      sharedId := f.row.sharedId;
      isLoading := false;
      nav := Stay;
    }

    /**
     * A click on the cell with id `cellId`. Ignored while locked out or when
     * no cell has that id. Otherwise the cell is selected, the dialog opens
     * with the question hidden, and a question for the cell's letter is drawn:
     * row `pick` of the query result, which stands for the random index.
     * Only the question text reaches the shared row, never the answer.
     */
    method CellClick(cellId: int, query: QuestionQuery, pick: nat) returns (write: Option<Patch>)
      requires query.QueryRows? && |query.rows| > 0 ==> pick < |query.rows|
      modifies this`selectedCell, this`showQuestionModal, this`isQuestionRevealed,
               this`currentQuestion, this`currentAnswer
      ensures disabled || FindCell(board, cellId).None? ==>
                write == None && selectedCell == old(selectedCell) &&
                showQuestionModal == old(showQuestionModal) &&
                isQuestionRevealed == old(isQuestionRevealed) &&
                currentQuestion == old(currentQuestion) && currentAnswer == old(currentAnswer)
      ensures !disabled && FindCell(board, cellId).Some? ==>
                selectedCell == FindCell(board, cellId) && selectedCell.value.id == cellId &&
                showQuestionModal && !isQuestionRevealed
      ensures !disabled && FindCell(board, cellId).Some? && query.QueryFailed? ==>
                currentQuestion == Some(QuestionErrorText) && currentAnswer == "" && write == None
      ensures !disabled && FindCell(board, cellId).Some? && query.QueryRows? && query.rows == [] ==>
                currentQuestion == Some(NoQuestionText) && currentAnswer == "" && write == None
      ensures !disabled && FindCell(board, cellId).Some? && query.QueryRows? && query.rows != [] ==>
                currentQuestion == Some(query.rows[pick].questionText) &&
                currentAnswer == query.rows[pick].answer &&
                write == Some(QuestionPatch(query.rows[pick].questionText))
    {
      write := None;
      if disabled {
        return;
      }
      var cell := FindCell(board, cellId);
      if cell.None? {
        return;
      }
      selectedCell := cell;
      showQuestionModal := true;
      isQuestionRevealed := false;
      match query
      case QueryFailed =>
        currentQuestion := Some(QuestionErrorText);
        currentAnswer := "";
      case QueryRows(rows) =>
        if |rows| > 0 {
          var q := rows[pick];
          currentQuestion := Some(q.questionText);
          currentAnswer := q.answer;
          write := Some(QuestionPatch(q.questionText));
        } else {
          currentQuestion := Some(NoQuestionText);
          currentAnswer := "";
        }
    }

    /**
     * Reveal: the local flag is set and the shared row gets the flag and the
     * timer start `now`. Nothing else changes.
     */
    method RevealQuestion(now: int) returns (write: Option<Patch>)
      modifies this`isQuestionRevealed
      ensures isQuestionRevealed
      ensures write == if gameId != "" then Some(RevealPatch(now)) else None
    {
      isQuestionRevealed := true;
      write := None;
      if gameId != "" {
        write := Some(RevealPatch(now));
      }
    }

    /**
     * Answer: ignored while locked out. Otherwise the cell with id `cellId`
     * gets `colour`, the scores are recounted from the new board, the new
     * board and the other team are written, the team toggles once whatever
     * the colour, the dialog closes and the screen locks out.
     */
    method QuestionAnswer(colour: Owner, cellId: int) returns (write: Option<Patch>)
      modifies this`board, this`greenScore, this`purpleScore, this`currentTeam,
               this`selectedCell, this`showQuestionModal, this`disabled
      ensures old(disabled) ==>
                write == None && board == old(board) && currentTeam == old(currentTeam) &&
                greenScore == old(greenScore) && purpleScore == old(purpleScore) &&
                selectedCell == old(selectedCell) && showQuestionModal == old(showQuestionModal) &&
                disabled
      ensures !old(disabled) ==>
                board == SetOwner(old(board), cellId, colour) &&
                greenScore == Count(board, Green) && purpleScore == Count(board, Purple) &&
                greenScore + purpleScore <= |board| &&
                currentTeam == Toggle(old(currentTeam)) &&
                selectedCell == None && !showQuestionModal && disabled
      ensures !old(disabled) ==>
                write == if gameId != "" then Some(AnswerPatch(board, old(currentTeam))) else None
    {
      write := None;
      if disabled {
        return;
      }
      var updatedBoard := SetOwner(board, cellId, colour);
      board := updatedBoard;
      greenScore := Count(updatedBoard, Green);
      purpleScore := Count(updatedBoard, Purple);
      CountsPartition(updatedBoard);
      if gameId != "" {
        write := Some(AnswerPatch(updatedBoard, currentTeam));
      }
      currentTeam := Toggle(currentTeam);
      selectedCell := None;
      showQuestionModal := false;
      disabled := true;
    }

    /** The one-second timeout after an answer: the lockout ends. */
    method UnlockTimeout()
      modifies this`disabled
      ensures !disabled
    {
      disabled := false;
    }

    /**
     * The dialog's close (also its cancel button): hides the dialog and drops
     * the selection. Board, team, reveal flag and the shared row are untouched.
     */
    method CloseModal()
      modifies this`showQuestionModal, this`selectedCell
      ensures !showQuestionModal && selectedCell == None
    {
      showQuestionModal := false;
      selectedCell := None;
    }

    /**
     * A colour button of the dialog: the answer goes to `QuestionAnswer` with
     * the selected cell's id, then the dialog closes. Without a selected cell
     * the dialog shows no buttons, so nothing happens.
     */
    method ModalAnswer(colour: Owner) returns (write: Option<Patch>)
      modifies this`board, this`greenScore, this`purpleScore, this`currentTeam,
               this`selectedCell, this`showQuestionModal, this`disabled
      ensures old(selectedCell).None? ==>
                write == None && board == old(board) && currentTeam == old(currentTeam) &&
                greenScore == old(greenScore) && purpleScore == old(purpleScore) &&
                selectedCell == None && showQuestionModal == old(showQuestionModal) &&
                disabled == old(disabled)
      ensures old(selectedCell).Some? ==> selectedCell == None && !showQuestionModal && disabled
      ensures old(selectedCell).Some? && old(disabled) ==>
                write == None && board == old(board) && currentTeam == old(currentTeam) &&
                greenScore == old(greenScore) && purpleScore == old(purpleScore)
      ensures old(selectedCell).Some? && !old(disabled) ==>
                board == SetOwner(old(board), old(selectedCell).value.id, colour) &&
                currentTeam == Toggle(old(currentTeam)) &&
                greenScore == Count(board, Green) && purpleScore == Count(board, Purple) &&
                write == (if gameId != "" then Some(AnswerPatch(board, old(currentTeam))) else None)
    {
      write := None;
      var call := QuestionModal.Dispatch(selectedCell, colour);
      if call.Some? {
        write := QuestionAnswer(call.value.colour, call.value.cellId);
        CloseModal();
      }
    }

    /**
     * "Play again": the game row is deleted (when there is a game id) and the
     * browser goes home. The screen's state is not touched.
     */
    method PlayAgain() returns (deleteIssued: bool, nav: Nav)
      ensures deleteIssued <==> gameId != ""
      ensures nav == NavigateHome
    {
      deleteIssued := gameId != "";
      nav := NavigateHome;
    }
  }
}

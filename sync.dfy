/**
 * The shared game record as the clients see it.
 *
 * A `Snapshot` is what a client receives for one game: the row a fetch
 * returns, or the new row a realtime UPDATE notification carries. A `Patch`
 * is what a client writes with one update call: only the fields it names
 * change. The backend
 * itself (storage, delivery of notifications) is outside the model; it is
 * represented only by `ApplyPatch`, the effect of one update on the row.
 */
module Sync {
  import opened Wrappers
  import opened Board

  /** A key of a JavaScript object that may be missing altogether. */
  datatype Field<T> = Absent | Present(value: T)

  /**
   * One game row. `None` stands for a value that is null or missing (for the
   * team, also the empty string): the clients treat those alike. The question
   * keeps "missing" and "null" apart because the host takes a question that is
   * null but present.
   */
  datatype Snapshot = Snapshot(
    boardState: Option<seq<Cell>>,
    currentTeam: Option<Team>,
    currentQuestion: Field<Option<string>>,
    isQuestionRevealed: Field<bool>,
    timerStartTime: Option<int>,
    sharedId: Option<string>)

  /** The fields one update call writes. */
  datatype Patch = Patch(
    boardState: Field<seq<Cell>>,
    currentTeam: Field<Team>,
    currentQuestion: Field<Option<string>>,
    isQuestionRevealed: Field<bool>,
    timerStartTime: Field<Option<int>>)

  /** Outcome of fetching the one row of a game by its id: the row, no such row, or a failed request. */
  datatype Fetch = Fetched(row: Snapshot) | NotFound | FetchFailed

  /** Where a handler sends the browser, if anywhere. */
  datatype Nav = Stay | NavigateHome | NavigateHost(gameId: string) | NavigatePlay(gameId: string)

  /** The row after an update: the named fields take the written values, the others keep theirs. */
  function ApplyPatch(row: Snapshot, p: Patch): Snapshot
  {
    Snapshot(
      if p.boardState.Present? then Some(p.boardState.value) else row.boardState,
      if p.currentTeam.Present? then Some(p.currentTeam.value) else row.currentTeam,
      if p.currentQuestion.Present? then p.currentQuestion else row.currentQuestion,
      if p.isQuestionRevealed.Present? then p.isQuestionRevealed else row.isQuestionRevealed,
      if p.timerStartTime.Present? then p.timerStartTime.value else row.timerStartTime,
      row.sharedId)
  }

  /** The board of a row, a missing board read as the empty board. */
  function BoardOrEmpty(s: Snapshot): seq<Cell>
  {
    if s.boardState.Some? then s.boardState.value else []
  }

  /** The team of a row, a missing team read as green. */
  function TeamOrGreen(s: Snapshot): Team
  {
    if s.currentTeam.Some? then s.currentTeam.value else Green
  }
}

/**
 * How the host's writes reach the spectators. The host sends a `Patch` to
 * the game row; every spectator receives the resulting row and rebuilds its
 * screen from it. These lemmas follow each of the host's three writes
 * through the row to what a spectator then shows.
 */
module Session {
  import opened Wrappers
  import opened Board
  import opened Sync
  import opened Game
  import opened PlayerView

  /**
   * After an answer the spectators see the host's new board and the other
   * team, the green and purple cells of that board together are at most its
   * size, and the question, reveal flag and timer of the row are left as they
   * were.
   */
  lemma AnswerReachesSpectators(row: Snapshot, board: seq<Cell>, cellId: int, colour: Owner, team: Team)
    ensures var newBoard := SetOwner(board, cellId, colour);
            var s := ApplyPatch(row, AnswerPatch(newBoard, team));
            && BoardOrEmpty(s) == newBoard
            && TeamOrGreen(s) == Toggle(team)
            && Count(BoardOrEmpty(s), Green) + Count(BoardOrEmpty(s), Purple) <= |board|
            && QuestionOrEmpty(s) == QuestionOrEmpty(row)
            && RevealedOrFalse(s) == RevealedOrFalse(row)
            && s.timerStartTime == row.timerStartTime
  {
    CountsPartition(SetOwner(board, cellId, colour));
  }

  /**
   * A newly drawn question reaches the spectators hidden: they see the
   * placeholder (or "no question" for an empty text), their countdown does
   * not run, and board and team are left as they were.
   */
  lemma QuestionReachesSpectatorsHidden(row: Snapshot, text: string)
    ensures var s := ApplyPatch(row, QuestionPatch(text));
            && QuestionOrEmpty(s) == text
            && !RevealedOrFalse(s)
            && s.timerStartTime == None
            && !TimerRuns(RevealedOrFalse(s), QuestionOrEmpty(s), s.timerStartTime)
            && QuestionPanel(QuestionOrEmpty(s), RevealedOrFalse(s)) ==
                 (if text == "" then NoQuestion else HiddenPlaceholder)
            && BoardOrEmpty(s) == BoardOrEmpty(row) && TeamOrGreen(s) == TeamOrGreen(row)
  {
  }

  /**
   * A reveal at time `now` shows the spectators the question that was drawn
   * and starts their countdown at `now`: it reads the full 60 seconds at
   * `now`, 0 from 60 seconds later on, and never goes up in between.
   */
  lemma RevealStartsSpectatorCountdown(row: Snapshot, now: int, later: int)
    requires QuestionOrEmpty(row) != "" && now <= later
    ensures var s := ApplyPatch(row, RevealPatch(now));
            && QuestionOrEmpty(s) == QuestionOrEmpty(row)
            && QuestionPanel(QuestionOrEmpty(s), RevealedOrFalse(s)) == ShowQuestion(QuestionOrEmpty(row))
            && TimerRuns(RevealedOrFalse(s), QuestionOrEmpty(s), s.timerStartTime)
            && TimeLeft(now, s.timerStartTime.value) == TimerSeconds
            && TimeLeft(later, s.timerStartTime.value) <= TimeLeft(now, s.timerStartTime.value)
            && (TimeLeft(later, s.timerStartTime.value) == 0 <==> later - now >= TimerSeconds * 1000)
            && BoardOrEmpty(s) == BoardOrEmpty(row) && TeamOrGreen(s) == TeamOrGreen(row)
  {
    TimeLeftRange(now, now);
    TimeLeftRange(later, now);
    TimeLeftMonotone(now, later, now);
  }

  /**
   * Answering keeps every cell's id, so on a board whose ids are its
   * positions a click still finds the cell it shows after any number of
   * answers.
   */
  lemma AnswerKeepsPositions(board: seq<Cell>, cellId: int, colour: Owner)
    requires IdsAreIndices(board)
    ensures IdsAreIndices(SetOwner(board, cellId, colour))
    ensures forall k :: 0 <= k < |board| ==>
              FindCell(SetOwner(board, cellId, colour), k) == Some(SetOwner(board, cellId, colour)[k])
  {
    var r := SetOwner(board, cellId, colour);
    IndicesAreDistinct(r);
    forall k | 0 <= k < |board|
      ensures FindCell(r, k) == Some(r[k])
    {
      FindCellAt(r, k);
    }
  }
}

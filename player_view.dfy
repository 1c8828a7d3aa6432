/**
 * The spectator (player) screen: a read-only copy of one game row and a
 * countdown rebuilt on every tick from the stored start time.
 *
 * Timestamps are integers in milliseconds. The countdown length is fixed at
 * 60 seconds on this screen; the row's timer duration is not read.
 */
module PlayerView {
  import opened Wrappers
  import opened Board
  import opened Sync

  /** Length of the countdown in seconds. */
  const TimerSeconds: int := 60

  /**
   * Seconds left at time `now` for a countdown started at `start`: 60 minus
   * the whole seconds elapsed, never below zero. Dafny's `/` by a positive
   * divisor rounds down, as `Math.floor` does, also for a negative elapsed time.
   */
  function TimeLeft(now: int, start: int): (t: nat)
    ensures t == 0 <==> now - start >= TimerSeconds * 1000
    ensures t > 0 ==> (TimerSeconds - t) * 1000 <= now - start < (TimerSeconds - t + 1) * 1000
  {
    var elapsedSeconds := (now - start) / 1000;
    if TimerSeconds - elapsedSeconds > 0 then TimerSeconds - elapsedSeconds else 0
  }

  /** During whole second `k` after the start (or before it, for negative `k`) the display reads `60 - k`, down to 0. */
  lemma TimeLeftInSecond(now: int, start: int, k: int)
    requires k * 1000 <= now - start < (k + 1) * 1000
    ensures TimeLeft(now, start) == if k < TimerSeconds then TimerSeconds - k else 0
  {
    assert (now - start) / 1000 == k;
  }

  /**
   * The countdown reads 60 at its start, at most 60 exactly when the start is
   * not in the future (a start in the future reads more than 60), and 0
   * exactly from 60 seconds after the start on.
   */
  lemma TimeLeftRange(now: int, start: int)
    ensures now == start ==> TimeLeft(now, start) == TimerSeconds
    ensures TimeLeft(now, start) <= TimerSeconds <==> now >= start
    ensures TimeLeft(now, start) == 0 <==> now - start >= TimerSeconds * 1000
  {
    TimeLeftInSecond(now, start, (now - start) / 1000);
  }

  /** The countdown never goes up as time passes. */
  lemma TimeLeftMonotone(now1: int, now2: int, start: int)
    requires now1 <= now2
    ensures TimeLeft(now2, start) <= TimeLeft(now1, start)
  {
    var k1, k2 := (now1 - start) / 1000, (now2 - start) / 1000;
    TimeLeftInSecond(now1, start, k1);
    TimeLeftInSecond(now2, start, k2);
  }

  /** Red, urgent styling of the countdown. */
  predicate Urgent(timeLeft: int)
  {
    timeLeft <= 10
  }

  /** The countdown turns urgent for the last ten seconds: from 50 seconds after the start on. */
  lemma UrgentWindow(now: int, start: int)
    ensures Urgent(TimeLeft(now, start)) <==> now - start >= 50000
  {
    TimeLeftInSecond(now, start, (now - start) / 1000);
  }

  /**
   * The countdown runs only for a revealed, non-empty question with a start
   * time: exactly when the panel shows the question text and a start is stored.
   */
  predicate TimerRuns(isQuestionRevealed: bool, currentQuestion: string, timerStartTime: Option<int>): (runs: bool)
    ensures runs <==> QuestionPanel(currentQuestion, isQuestionRevealed).ShowQuestion? && timerStartTime.Some?
  {
    isQuestionRevealed && currentQuestion != "" && timerStartTime.Some?
  }

  /** The three ways the question panel can look. */
  datatype PanelMode = ShowQuestion(text: string) | HiddenPlaceholder | NoQuestion

  /**
   * The question panel: the text once revealed, a "hidden" placeholder before,
   * and "no question" when the question is empty.
   */
  function QuestionPanel(currentQuestion: string, isQuestionRevealed: bool): (m: PanelMode)
    ensures m.ShowQuestion? <==> currentQuestion != "" && isQuestionRevealed
    ensures m.ShowQuestion? ==> m.text == currentQuestion
    ensures m.HiddenPlaceholder? <==> currentQuestion != "" && !isQuestionRevealed
    ensures m.NoQuestion? <==> currentQuestion == ""
  {
    if currentQuestion != "" && isQuestionRevealed then ShowQuestion(currentQuestion)
    else if currentQuestion != "" then HiddenPlaceholder
    else NoQuestion
  }

  /**
   * The timer block is shown exactly when the panel shows the question text,
   * and whenever the countdown runs.
   */
  function TimerShown(isQuestionRevealed: bool, currentQuestion: string): (shown: bool)
    ensures shown <==> QuestionPanel(currentQuestion, isQuestionRevealed).ShowQuestion?
    ensures forall start: Option<int> :: TimerRuns(isQuestionRevealed, currentQuestion, start) ==> shown
  {
    isQuestionRevealed && currentQuestion != ""
  }

  /** The question of a row, with missing, null and empty all read as "". */
  function QuestionOrEmpty(s: Snapshot): string
  {
    if s.currentQuestion.Present? && s.currentQuestion.value.Some? then s.currentQuestion.value.value else ""
  }

  /** The reveal flag of a row, with a missing flag read as false. */
  function RevealedOrFalse(s: Snapshot): bool
  {
    s.isQuestionRevealed.Present? && s.isQuestionRevealed.value
  }

  class Spectator {
    const gameId: string

    var board: seq<Cell>
    var currentTeam: Team
    var isLoading: bool
    var currentQuestion: string
    var isQuestionRevealed: bool
    var timeLeft: int
    var timerStartTime: Option<int>
    var ticking: bool   // a one-second interval is active

    /**
     * The countdown is consistent with the question state: an interval runs
     * only while the countdown runs and has time left, and a countdown that
     * does not run shows the full 60 seconds.
     */
    ghost predicate Valid()
      reads this
    {
      && timeLeft >= 0
      && (ticking ==> TimerRuns(isQuestionRevealed, currentQuestion, timerStartTime) && timeLeft > 0)
      && (!TimerRuns(isQuestionRevealed, currentQuestion, timerStartTime) ==> timeLeft == TimerSeconds && !ticking)
    }

    constructor (gameId: string)
      ensures Valid()
      ensures this.gameId == gameId
      ensures board == [] && currentTeam == Green && isLoading
      ensures currentQuestion == "" && !isQuestionRevealed && timerStartTime == None
      ensures timeLeft == TimerSeconds && !ticking
    {
      this.gameId := gameId;
      board, currentTeam, isLoading := [], Green, true;
      currentQuestion, isQuestionRevealed, timerStartTime := "", false, None;
      timeLeft, ticking := TimerSeconds, false;
    }

    /**
     * The timer effect, run at time `now` whenever the reveal flag, the
     * question or the start time has changed (after the previous interval was
     * cleared). A running countdown is computed once and an interval starts
     * only if time is left; otherwise the display resets to 60.
     */
    method TimerEffect(now: int)
      modifies this`timeLeft, this`ticking
      ensures Valid()
      ensures TimerRuns(isQuestionRevealed, currentQuestion, timerStartTime) ==>
                timeLeft == TimeLeft(now, timerStartTime.value) && (ticking <==> timeLeft > 0)
      ensures !TimerRuns(isQuestionRevealed, currentQuestion, timerStartTime) ==>
                timeLeft == TimerSeconds && !ticking
    {
      ticking := false;
      if TimerRuns(isQuestionRevealed, currentQuestion, timerStartTime) {
        var remaining := TimeLeft(now, timerStartTime.value);
        timeLeft := remaining;
        if remaining > 0 {
          ticking := true;
        }
      } else {
        timeLeft := TimerSeconds;
      }
    }

    /**
     * One firing of the interval at time `now`: the countdown is recomputed
     * from the start time, and the interval stops once it reaches 0.
     */
    method Tick(now: int)
      requires Valid()
      modifies this`timeLeft, this`ticking
      ensures Valid()
      ensures !old(ticking) ==> timeLeft == old(timeLeft) && !ticking
      ensures old(ticking) ==>
                timeLeft == TimeLeft(now, timerStartTime.value) && (ticking <==> timeLeft > 0)
    {
      if ticking {
        var newRemaining := TimeLeft(now, timerStartTime.value);
        timeLeft := newRemaining;
        if newRemaining <= 0 {
          ticking := false;
        }
      }
    }

    /**
     * Takes all five fields of a row, each with its default when missing or
     * falsy, then reruns the timer effect if one of its inputs changed.
     */
    method Reconcile(s: Snapshot, now: int)
      requires Valid()
      modifies this`board, this`currentTeam, this`currentQuestion, this`isQuestionRevealed,
               this`timerStartTime, this`timeLeft, this`ticking
      ensures Valid()
      ensures board == BoardOrEmpty(s) && currentTeam == TeamOrGreen(s)
      ensures currentQuestion == QuestionOrEmpty(s) && isQuestionRevealed == RevealedOrFalse(s)
      ensures timerStartTime == s.timerStartTime
      ensures (currentQuestion, isQuestionRevealed, timerStartTime)
                == old((currentQuestion, isQuestionRevealed, timerStartTime)) ==>
                timeLeft == old(timeLeft) && ticking == old(ticking)
      ensures (currentQuestion, isQuestionRevealed, timerStartTime)
                != old((currentQuestion, isQuestionRevealed, timerStartTime)) ==>
                if TimerRuns(isQuestionRevealed, currentQuestion, timerStartTime)
                then timeLeft == TimeLeft(now, timerStartTime.value) && (ticking <==> timeLeft > 0)
                else timeLeft == TimerSeconds && !ticking
    {
      var before := (currentQuestion, isQuestionRevealed, timerStartTime);
      board := BoardOrEmpty(s);
      currentTeam := TeamOrGreen(s);
      currentQuestion := QuestionOrEmpty(s);
      isQuestionRevealed := RevealedOrFalse(s);
      timerStartTime := s.timerStartTime;
      if (currentQuestion, isQuestionRevealed, timerStartTime) != before {
        TimerEffect(now);
      }
    }

    /**
     * The realtime UPDATE handler: overwrites, never merges, and the timer
     * effect reruns at `now` when the question, flag or start changed.
     */
    method ApplyUpdate(payload: Option<Snapshot>, now: int)
      requires Valid()
      modifies this`board, this`currentTeam, this`currentQuestion, this`isQuestionRevealed,
               this`timerStartTime, this`timeLeft, this`ticking
      ensures Valid()
      ensures payload.None? ==>
                board == old(board) && currentTeam == old(currentTeam) &&
                currentQuestion == old(currentQuestion) && isQuestionRevealed == old(isQuestionRevealed) &&
                timerStartTime == old(timerStartTime) && timeLeft == old(timeLeft) && ticking == old(ticking)
      ensures payload.Some? ==>
                board == BoardOrEmpty(payload.value) && currentTeam == TeamOrGreen(payload.value) &&
                currentQuestion == QuestionOrEmpty(payload.value) &&
                isQuestionRevealed == RevealedOrFalse(payload.value) &&
                timerStartTime == payload.value.timerStartTime
      ensures payload.Some? && (currentQuestion, isQuestionRevealed, timerStartTime)
                == old((currentQuestion, isQuestionRevealed, timerStartTime)) ==>
                timeLeft == old(timeLeft) && ticking == old(ticking)
      ensures payload.Some? && (currentQuestion, isQuestionRevealed, timerStartTime)
                != old((currentQuestion, isQuestionRevealed, timerStartTime)) ==>
                if TimerRuns(isQuestionRevealed, currentQuestion, timerStartTime)
                then timeLeft == TimeLeft(now, timerStartTime.value) && (ticking <==> timeLeft > 0)
                else timeLeft == TimerSeconds && !ticking
    {
      if payload.Some? {
        Reconcile(payload.value, now);
      }
    }

    /**
     * Loading the game on mount: a missing game or a failed fetch sends the
     * browser home with the screen still loading; otherwise the row is taken
     * as by an update (the timer effect included) and loading ends.
     */
    method Load(f: Fetch, now: int) returns (nav: Nav)
      requires Valid()
      modifies this`board, this`currentTeam, this`currentQuestion, this`isQuestionRevealed,
               this`timerStartTime, this`timeLeft, this`ticking, this`isLoading
      ensures Valid()
      ensures !f.Fetched? ==>
                nav == NavigateHome && isLoading &&
                board == old(board) && currentTeam == old(currentTeam) &&
                currentQuestion == old(currentQuestion) && isQuestionRevealed == old(isQuestionRevealed) &&
                timerStartTime == old(timerStartTime) && timeLeft == old(timeLeft) && ticking == old(ticking)
      ensures f.Fetched? ==>
                nav == Stay && !isLoading &&
                board == BoardOrEmpty(f.row) && currentTeam == TeamOrGreen(f.row) &&
                currentQuestion == QuestionOrEmpty(f.row) && isQuestionRevealed == RevealedOrFalse(f.row) &&
                timerStartTime == f.row.timerStartTime
      ensures f.Fetched? && (currentQuestion, isQuestionRevealed, timerStartTime)
                == old((currentQuestion, isQuestionRevealed, timerStartTime)) ==>
                timeLeft == old(timeLeft) && ticking == old(ticking)
      ensures f.Fetched? && (currentQuestion, isQuestionRevealed, timerStartTime)
                != old((currentQuestion, isQuestionRevealed, timerStartTime)) ==>
                if TimerRuns(isQuestionRevealed, currentQuestion, timerStartTime)
                then timeLeft == TimeLeft(now, timerStartTime.value) && (ticking <==> timeLeft > 0)
                else timeLeft == TimerSeconds && !ticking
    {
      isLoading := true;
      if !f.Fetched? {
        nav := NavigateHome;
        return;
      }
      Reconcile(f.row, now);
      isLoading := false;
      nav := Stay;
    }

    /** The realtime DELETE handler for this game: the browser goes home. */
    method ApplyDelete() returns (nav: Nav)
      ensures nav == NavigateHome
    {
      nav := NavigateHome;
    }
  }
}

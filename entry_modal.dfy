/**
 * The entry screen: creating a new session (a room with a six-digit join
 * code and its first game) or joining one by its code.
 *
 * The random choices of the source are parameters: the order the shuffle
 * leaves the alphabet in, the random number behind the join code, and the fresh
 * room and game identifiers. Backend outcomes are parameters too; the two
 * lookups of a join are modelled by what their queries return from the
 * `rooms` and `games` tables.
 */
module Entry {
  import opened Wrappers
  import opened Board
  import opened Sync

  /** The 28 letters a board is drawn from, in the order the source lists them. */
  const Alphabet: seq<char> := [
    'ض', 'ر', 'أ', 'غ', 'ج', 'ه', 'ل', 'ت', 'د', 'م', 'ح', 'ص', 'ث', 'ب',
    'ش', 'ظ', 'ك', 'ف', 'ذ', 'ق', 'ز', 'ي', 'ط', 'خ', 'ع', 'س', 'ن', 'و']

  /** Number of cells on a board. */
  const BoardSize: nat := 25

  /** Timer duration stored with a new game, in seconds. */
  const NewGameTimerDuration: int := 15

  ghost predicate Distinct(s: seq<char>)
  {
    forall i, j :: 0 <= i < j < |s| ==> s[i] != s[j]
  }

  lemma AlphabetDistinct()
    ensures |Alphabet| == 28 && Distinct(Alphabet)
  {
  }

  /**
   * The order a shuffle leaves a sequence of `n` elements in: each position
   * `0..n-1` once.
   */
  ghost predicate IsShuffleOrder(order: seq<nat>, n: nat)
  {
    && |order| == n
    && (forall i :: 0 <= i < n ==> order[i] < n)
    && (forall i, j :: 0 <= i < j < n ==> order[i] != order[j])
  }

  /**
   * The letters of a new board: the first 25 letters of the alphabet after
   * shuffling it into `order`. They are 25 distinct letters of the alphabet.
   */
  function RandomLetters(order: seq<nat>): (letters: seq<char>)
    requires IsShuffleOrder(order, 28)
    ensures |letters| == BoardSize && Distinct(letters)
    ensures forall i :: 0 <= i < |letters| ==> letters[i] in Alphabet
  {
    AlphabetDistinct();
    seq(25, i requires 0 <= i < 25 => Alphabet[order[i]])
  }

  /**
   * The board a new game starts with: cell `i` has id `i` and the `i`-th
   * letter, and nobody owns any cell, so both scores start at zero.
   */
  function InitialBoard(letters: seq<char>): (board: seq<Cell>)
    ensures |board| == |letters| && IdsAreIndices(board)
    ensures forall i :: 0 <= i < |board| ==> board[i].letter == letters[i] && board[i].owner == Unowned
    ensures Count(board, Green) == 0 && Count(board, Purple) == 0
  {
    seq(|letters|, i requires 0 <= i < |letters| => Cell(i, letters[i], Unowned))
  }

  /** Distinct letters give a board whose cells carry distinct letters. */
  lemma InitialBoardLetters(letters: seq<char>)
    requires Distinct(letters)
    ensures var board := InitialBoard(letters);
            forall i, j :: 0 <= i < j < |board| ==> board[i].letter != board[j].letter
  {
  }

  predicate IsDigit(c: char)
  {
    '0' <= c <= '9'
  }

  predicate AllDigits(s: string)
  {
    forall i :: 0 <= i < |s| ==> IsDigit(s[i])
  }

  function DigitChar(d: nat): char
    requires d < 10
  {
    (48 + d) as char
  }

  function DigitValue(c: char): nat
    requires IsDigit(c)
  {
    c as int - 48
  }

  /** The decimal notation of `n`, as `toString()` gives it. */
  function DecimalString(n: nat): (s: string)
    ensures |s| > 0 && AllDigits(s)
    ensures |s| > 1 ==> s[0] != '0'
  {
    if n < 10 then [DigitChar(n)] else DecimalString(n / 10) + [DigitChar(n % 10)]
  }

  /** The number a string of decimal digits denotes. */
  function ParseDecimal(s: string): nat
    requires AllDigits(s)
  {
    if s == [] then 0 else ParseDecimal(s[..|s| - 1]) * 10 + DigitValue(s[|s| - 1])
  }

  /** Reading back the decimal notation of `n` gives `n`. */
  lemma {:induction false} ParseDecimalString(n: nat)
    ensures ParseDecimal(DecimalString(n)) == n
  {
    var s := DecimalString(n);
    if n >= 10 {
      ParseDecimalString(n / 10);
      assert s[..|s| - 1] == DecimalString(n / 10);
    }
  }

  function Pow10(k: nat): nat
  {
    if k == 0 then 1 else 10 * Pow10(k - 1)
  }

  /** A number with `k` decimal digits is written with `k` characters. */
  lemma {:induction false} DecimalLength(n: nat, k: nat)
    requires k >= 1 && Pow10(k - 1) <= n < Pow10(k)
    ensures |DecimalString(n)| == k
  {
    if k > 1 {
      assert Pow10(k - 1) == 10 * Pow10(k - 2);
      DecimalLength(n / 10, k - 1);
    }
  }

  /**
   * The join code: `100000 + r` in decimal for a random `r` below 900000. It
   * is always exactly six digits, the first not zero, and denotes `100000 + r`.
   */
  function SharedId(r: int): (code: string)
    requires 0 <= r < 900000
    ensures |code| == 6 && AllDigits(code) && code[0] != '0'
    ensures ParseDecimal(code) == 100000 + r
  {
    assert Pow10(5) == 100000 && Pow10(6) == 1000000;
    DecimalLength(100000 + r, 6);
    ParseDecimalString(100000 + r);
    DecimalString(100000 + r)
  }

  /** The digits of `s`, in order, with every other character removed. */
  function DigitsOnly(s: string): (d: string)
    ensures AllDigits(d) && |d| <= |s|
  {
    if s == [] then []
    else (if IsDigit(s[0]) then [s[0]] else []) + DigitsOnly(s[1..])
  }

  /** The filter works piece by piece, so it keeps the digits in their order. */
  lemma {:induction false} DigitsOnlyAppend(a: string, b: string)
    ensures DigitsOnly(a + b) == DigitsOnly(a) + DigitsOnly(b)
  {
    if a == [] {
      assert a + b == b;
    } else {
      assert (a + b)[0] == a[0] && (a + b)[1..] == a[1..] + b;
      DigitsOnlyAppend(a[1..], b);
    }
  }

  /** The filter keeps every digit as often as it occurs and drops every other character. */
  lemma {:induction false} DigitsOnlyOccurrences(s: string, c: char)
    ensures multiset(DigitsOnly(s))[c] == if IsDigit(c) then multiset(s)[c] else 0
  {
    if s != [] {
      DigitsOnlyOccurrences(s[1..], c);
      assert s == [s[0]] + s[1..];
      assert multiset(s) == multiset{s[0]} + multiset(s[1..]);
    }
  }

  /** The filter changes nothing in a string of digits. */
  lemma {:induction false} DigitsOnlyOfDigits(s: string)
    requires AllDigits(s)
    ensures DigitsOnly(s) == s
  {
    if s != [] {
      DigitsOnlyOfDigits(s[1..]);
      assert s == [s[0]] + s[1..];
    }
  }

  /** A join code as the input holds it: digits only, at most six. */
  ghost predicate ValidRoomCode(code: string)
  {
    |code| <= 6 && AllDigits(code)
  }

  /** The characters `String.prototype.trim` removes: white space and line terminators. */
  predicate IsWhitespace(c: char)
  {
    c == '\t' || c == '\n' || c == '\U{000B}' || c == '\U{000C}' || c == '\r' || c == ' ' ||
    c == '\U{00A0}' || c == '\U{1680}' || ('\U{2000}' <= c <= '\U{200A}') ||
    c == '\U{2028}' || c == '\U{2029}' || c == '\U{202F}' || c == '\U{205F}' ||
    c == '\U{3000}' || c == '\U{FEFF}'
  }

  /** `s` without its leading white space: all that is removed is white space. */
  function TrimStart(s: string): (r: string)
    ensures |r| <= |s| && r == s[|s| - |r|..]
    ensures forall i :: 0 <= i < |s| - |r| ==> IsWhitespace(s[i])
    ensures r == [] || !IsWhitespace(r[0])
  {
    if s != [] && IsWhitespace(s[0]) then TrimStart(s[1..]) else s
  }

  /** `s` without its trailing white space: all that is removed is white space. */
  function TrimEnd(s: string): (r: string)
    ensures |r| <= |s| && r == s[..|r|]
    ensures forall i :: |r| <= i < |s| ==> IsWhitespace(s[i])
    ensures r == [] || !IsWhitespace(r[|r| - 1])
  {
    if s != [] && IsWhitespace(s[|s| - 1]) then TrimEnd(s[..|s| - 1]) else s
  }

  /** `r` is the piece of `s` starting at `a`, and everything outside it is white space. */
  ghost predicate PieceAmidWhitespace(s: string, r: string, a: int)
  {
    && 0 <= a <= |s| - |r| && r == s[a..a + |r|]
    && (forall i :: 0 <= i < a ==> IsWhitespace(s[i]))
    && (forall i :: a + |r| <= i < |s| ==> IsWhitespace(s[i]))
  }

  /**
   * `s` without leading and trailing white space: a piece of `s` with only
   * white space outside it, which neither starts nor ends with white space.
   */
  function Trim(s: string): (r: string)
    ensures |r| <= |s|
    ensures exists a :: PieceAmidWhitespace(s, r, a)
    ensures r == [] || (!IsWhitespace(r[0]) && !IsWhitespace(r[|r| - 1]))
  {
    var t := TrimStart(s);
    var r := TrimEnd(t);
    PieceOf(s, t, r);
    r
  }

  /** A prefix of a suffix, each cut off at white space only, is a piece of `s` amid white space. */
  lemma PieceOf(s: string, t: string, r: string)
    requires |t| <= |s| && t == s[|s| - |t|..]
    requires forall i :: 0 <= i < |s| - |t| ==> IsWhitespace(s[i])
    requires |r| <= |t| && r == t[..|r|]
    requires forall i :: |r| <= i < |t| ==> IsWhitespace(t[i])
    ensures PieceAmidWhitespace(s, r, |s| - |t|)
  {
    var a := |s| - |t|;
    forall i | a + |r| <= i < |s|
      ensures IsWhitespace(s[i])
    {
      assert s[i] == t[i - a];
    }
  }

  /** Digits are not white space, so trimming a digit string changes nothing. */
  lemma TrimDigits(s: string)
    requires AllDigits(s)
    ensures Trim(s) == s
  {
    if s != [] {
      var c0, c1 := s[0], s[|s| - 1];
      assert IsDigit(c0) && IsDigit(c1);
      assert !IsWhitespace(c0) && !IsWhitespace(c1);
      assert TrimStart(s) == s;
      assert TrimEnd(s) == s;
    }
  }

  datatype Room = Room(roomId: string, sharedId: string)

  /** The game row a new session inserts. */
  datatype NewGame = NewGame(gameId: string, room: string, currentTeam: Team,
                             boardState: seq<Cell>, timerDuration: int)

  datatype Insert = InsertRoom(room: Room) | InsertGame(game: NewGame)

  /**
   * The first game of a new room: green to play, the stored timer duration,
   * and a board of the given distinct letters, unowned, cell `i` with id `i`
   * and the `i`-th letter.
   */
  function FirstGame(letters: seq<char>, roomId: string, gameId: string): (g: NewGame)
    requires |letters| == BoardSize && Distinct(letters)
    ensures g.gameId == gameId && g.room == roomId && g.currentTeam == Green
    ensures g.timerDuration == NewGameTimerDuration
    ensures |g.boardState| == BoardSize && IdsAreIndices(g.boardState)
    ensures forall i :: 0 <= i < |g.boardState| ==> g.boardState[i].owner == Unowned
    ensures forall i, j :: 0 <= i < j < |g.boardState| ==> g.boardState[i].letter != g.boardState[j].letter
    ensures forall i :: 0 <= i < |g.boardState| ==> g.boardState[i].letter == letters[i]
  {
    InitialBoardLetters(letters);
    NewGame(gameId, roomId, Green, InitialBoard(letters), NewGameTimerDuration)
  }

  /** What the join lookup reads of a game row. */
  datatype StoredGame = StoredGame(gameId: string, room: Option<string>, createdAt: int)

  /**
   * The rooms whose join code is `code`, in table order: each matching row
   * as often as the table holds it, and no other row.
   */
  function RoomsWithCode(rooms: seq<Room>, code: string): (r: seq<Room>)
    ensures forall x :: x in r <==> x in rooms && x.sharedId == code
    ensures forall x :: multiset(r)[x] == if x.sharedId == code then multiset(rooms)[x] else 0
    ensures |r| <= |rooms|
  {
    if rooms == [] then []
    else
      assert rooms == [rooms[0]] + rooms[1..];
      (if rooms[0].sharedId == code then [rooms[0]] else []) + RoomsWithCode(rooms[1..], code)
  }

  /** Exactly one row of the table, the one at index `i`, has the join code. */
  ghost predicate OnlyRoomWithCode(rooms: seq<Room>, code: string, i: int)
  {
    && 0 <= i < |rooms| && rooms[i].sharedId == code
    && forall j :: 0 <= j < |rooms| && rooms[j].sharedId == code ==> j == i
  }

  /** The lookup's rows are a single one exactly when one row of the table has the code. */
  lemma {:induction false} SingleMatch(rooms: seq<Room>, code: string)
    ensures |RoomsWithCode(rooms, code)| == 1 <==> exists i :: OnlyRoomWithCode(rooms, code, i)
    ensures forall i :: OnlyRoomWithCode(rooms, code, i) ==> RoomsWithCode(rooms, code) == [rooms[i]]
  {
    if rooms != [] {
      var t := rooms[1..];
      SingleMatch(t, code);
      if rooms[0].sharedId == code {
        SingleMatchHead(rooms, code);
      } else {
        assert RoomsWithCode(rooms, code) == RoomsWithCode(t, code);
        OnlyRoomShift(rooms, code);
        if exists i :: OnlyRoomWithCode(rooms, code, i) {
          var i :| OnlyRoomWithCode(rooms, code, i);
          assert OnlyRoomWithCode(t, code, i - 1) && t[i - 1] == rooms[i];
        }
        if exists i :: OnlyRoomWithCode(t, code, i) {
          var i :| OnlyRoomWithCode(t, code, i);
          assert OnlyRoomWithCode(rooms, code, i + 1);
        }
      }
    }
  }

  /** When the first row has the code, it is the only one exactly when no later row has it. */
  lemma SingleMatchHead(rooms: seq<Room>, code: string)
    requires rooms != [] && rooms[0].sharedId == code
    ensures |RoomsWithCode(rooms, code)| == 1 <==> exists i :: OnlyRoomWithCode(rooms, code, i)
    ensures forall i :: OnlyRoomWithCode(rooms, code, i) ==> RoomsWithCode(rooms, code) == [rooms[i]]
  {
    var t := rooms[1..];
    var rest := RoomsWithCode(t, code);
    assert RoomsWithCode(rooms, code) == [rooms[0]] + rest;
    if rest == [] {
      forall j | 1 <= j < |rooms|
        ensures rooms[j].sharedId != code
      {
        assert rooms[j] == t[j - 1] && rooms[j] !in rest;
      }
      assert OnlyRoomWithCode(rooms, code, 0);
    } else {
      assert rest[0] in t;
      var k :| 0 <= k < |t| && t[k] == rest[0];
      assert rooms[k + 1].sharedId == code;
      forall i | 0 <= i < |rooms|
        ensures !OnlyRoomWithCode(rooms, code, i)
      {
        if i == 0 {
          assert k + 1 != i;
        }
      }
    }
  }

  /** When the first row lacks the code, a row is the only one with it exactly when it is among the later rows. */
  lemma OnlyRoomShift(rooms: seq<Room>, code: string)
    requires rooms != [] && rooms[0].sharedId != code
    ensures forall i :: OnlyRoomWithCode(rooms, code, i) ==> OnlyRoomWithCode(rooms[1..], code, i - 1)
    ensures forall i :: OnlyRoomWithCode(rooms[1..], code, i) ==> OnlyRoomWithCode(rooms, code, i + 1)
  {
    var t := rooms[1..];
    forall i | OnlyRoomWithCode(rooms, code, i)
      ensures OnlyRoomWithCode(t, code, i - 1)
    {
      forall j | 0 <= j < |t| && t[j].sharedId == code
        ensures j == i - 1
      {
        assert rooms[j + 1] == t[j];
      }
    }
    forall i | OnlyRoomWithCode(t, code, i)
      ensures OnlyRoomWithCode(rooms, code, i + 1)
    {
      forall j | 0 <= j < |rooms| && rooms[j].sharedId == code
        ensures j == i + 1
      {
        assert t[j - 1] == rooms[j];
      }
    }
  }

  /**
   * The room lookup by join code. `.single()` succeeds only when exactly one
   * room has the code; none or several is an error, reported as "room not
   * found".
   */
  function FindRoom(rooms: seq<Room>, code: string): (r: Option<Room>)
    ensures r.Some? <==> exists i :: OnlyRoomWithCode(rooms, code, i)
    ensures forall i :: OnlyRoomWithCode(rooms, code, i) ==> r == Some(rooms[i])
    ensures r.Some? ==> r.value in rooms && r.value.sharedId == code
    ensures (forall x :: x in rooms ==> x.sharedId != code) ==> r.None?
  {
    SingleMatch(rooms, code);
    var matching := RoomsWithCode(rooms, code);
    if |matching| == 1 then Some(matching[0]) else None
  }

  /**
   * The most recently created game of a room (newest first, first row), or
   * none when the room has no game. Among games created at the same instant
   * the earliest in table order is taken.
   */
  function LatestGame(games: seq<StoredGame>, roomId: string): (r: Option<StoredGame>)
    ensures r.Some? <==> exists g :: g in games && g.room == Some(roomId)
    ensures r.Some? ==> r.value in games && r.value.room == Some(roomId)
    ensures r.Some? ==> forall g :: g in games && g.room == Some(roomId) ==> g.createdAt <= r.value.createdAt
  {
    if games == [] then None
    else
      var rest := LatestGame(games[1..], roomId);
      assert forall g :: g in games ==> g == games[0] || g in games[1..];
      if games[0].room == Some(roomId) && (rest.None? || games[0].createdAt >= rest.value.createdAt)
      then Some(games[0])
      else rest
  }

  /** The join button is enabled exactly for a full code while nothing is loading. */
  predicate JoinEnabled(roomCode: string, isLoading: bool): (enabled: bool)
    ensures enabled <==> |roomCode| == 6 && !isLoading
  {
    |roomCode| == 6 && !isLoading
  }

  /**
   * For a code of digits, as the input holds, an enabled button's code passes
   * the handler's check that the trimmed code has six characters, unchanged.
   */
  lemma JoinButtonPassesGuard(roomCode: string, isLoading: bool)
    requires AllDigits(roomCode) && JoinEnabled(roomCode, isLoading)
    ensures Trim(roomCode) == roomCode && |Trim(roomCode)| == 6
  {
    TrimDigits(roomCode);
  }

  class EntryScreen {
    var showJoinInput: bool
    var roomCode: string
    var isLoading: bool

    /** The code input only ever holds up to six digits. */
    ghost predicate Valid()
      reads this
    {
      ValidRoomCode(roomCode)
    }

    constructor ()
      ensures Valid()
      ensures !showJoinInput && roomCode == "" && !isLoading
    {
      showJoinInput, roomCode, isLoading := false, "", false;
    }

    /** The "join a room" button shows the code input. */
    method OpenJoin()
      requires Valid()
      modifies this`showJoinInput
      ensures Valid()
      ensures showJoinInput
    {
      showJoinInput := true;
    }

    /** The back button: hides the code input and clears the code. */
    method Back()
      modifies this`showJoinInput, this`roomCode
      ensures Valid()
      ensures !showJoinInput && roomCode == ""
    {
      showJoinInput := false;
      roomCode := "";
    }

    /**
     * A change of the code input to `typed`: its digits are kept, in order;
     * the result is taken only if it has at most six of them.
     */
    method OnRoomCodeChange(typed: string)
      requires Valid()
      modifies this`roomCode
      ensures Valid()
      ensures |DigitsOnly(typed)| <= 6 ==> roomCode == DigitsOnly(typed)
      ensures |DigitsOnly(typed)| > 6 ==> roomCode == old(roomCode)
    {
      var value := DigitsOnly(typed);
      if |value| <= 6 {
        roomCode := value;
      }
    }

    /**
     * Creating a session. The room is inserted first; if that fails, no game
     * is inserted, loading ends and the browser stays. Then the first game of
     * the room is inserted (green to play, timer duration 15, the initial
     * board); if that fails the browser stays, otherwise it goes to the host
     * screen of the new game.
     */
    method CreateNewGame(order: seq<nat>, r: int, roomId: string, gameId: string,
                         roomInsertOk: bool, gameInsertOk: bool)
      returns (inserts: seq<Insert>, nav: Nav)
      requires Valid()
      requires IsShuffleOrder(order, 28) && 0 <= r < 900000
      modifies this`isLoading
      ensures Valid()
      ensures |inserts| == if roomInsertOk then 2 else 1
      ensures inserts[0] == InsertRoom(Room(roomId, SharedId(r)))
      ensures roomInsertOk ==> inserts[1] == InsertGame(FirstGame(RandomLetters(order), roomId, gameId))
      ensures nav == (if roomInsertOk && gameInsertOk then NavigateHost(gameId) else Stay)
      ensures isLoading <==> roomInsertOk && gameInsertOk
    {
      isLoading := true;
      var letters := RandomLetters(order);
      var newRoom := Room(roomId, SharedId(r));
      if !roomInsertOk {
        inserts := [InsertRoom(newRoom)];
        isLoading := false;
        nav := Stay;
        return;
      }
      var newGame := FirstGame(letters, roomId, gameId);
      inserts := [InsertRoom(newRoom), InsertGame(newGame)];
      if !gameInsertOk {
        isLoading := false;
        nav := Stay;
        return;
      }
      nav := NavigateHost(gameId);
    }

    /**
     * Joining by code. Nothing happens unless the trimmed code has six
     * characters. A code that resolves to no single room, or a room without a
     * game, ends loading without navigating; otherwise the browser goes to the
     * spectator screen of the room's most recent game.
     */
    method JoinRoom(rooms: seq<Room>, games: seq<StoredGame>) returns (nav: Nav)
      requires Valid()
      modifies this`isLoading
      ensures Valid()
      ensures |Trim(roomCode)| != 6 ==> nav == Stay && isLoading == old(isLoading)
      ensures |Trim(roomCode)| == 6 && FindRoom(rooms, Trim(roomCode)).None? ==>
                nav == Stay && !isLoading
      ensures |Trim(roomCode)| == 6 && FindRoom(rooms, Trim(roomCode)).Some? &&
              LatestGame(games, FindRoom(rooms, Trim(roomCode)).value.roomId).None? ==>
                nav == Stay && !isLoading
      ensures nav.NavigatePlay? ==>
                |Trim(roomCode)| == 6 && FindRoom(rooms, Trim(roomCode)).Some? && isLoading &&
                var room := FindRoom(rooms, Trim(roomCode)).value;
                LatestGame(games, room.roomId).Some? &&
                nav.gameId == LatestGame(games, room.roomId).value.gameId
      ensures nav == Stay || nav.NavigatePlay?
      ensures nav.NavigatePlay? <==>
                |Trim(roomCode)| == 6 && FindRoom(rooms, Trim(roomCode)).Some? &&
                LatestGame(games, FindRoom(rooms, Trim(roomCode)).value.roomId).Some?
      ensures forall i :: (|Trim(roomCode)| == 6 && OnlyRoomWithCode(rooms, Trim(roomCode), i) &&
                           (exists g :: g in games && g.room == Some(rooms[i].roomId))) ==>
                  nav == NavigatePlay(LatestGame(games, rooms[i].roomId).value.gameId)
    {
      var code := Trim(roomCode);
      if |code| != 6 {
        nav := Stay;
        return;
      }
      isLoading := true;
      var room := FindRoom(rooms, code);
      if room.None? {
        isLoading := false;
        nav := Stay;
        return;
      }
      var game := LatestGame(games, room.value.roomId);
      if game.None? {
        isLoading := false;
        nav := Stay;
        return;
      }
      nav := NavigatePlay(game.value.gameId);
    }
  }

  /**
   * A code that exactly one room has, where that room has a game, finds the
   * room and its newest game, so the join navigates there.
   */
  lemma JoinSucceeds(rooms: seq<Room>, games: seq<StoredGame>, code: string, i: int)
    requires OnlyRoomWithCode(rooms, code, i)
    requires exists g :: g in games && g.room == Some(rooms[i].roomId)
    ensures FindRoom(rooms, code) == Some(rooms[i])
    ensures var g := LatestGame(games, rooms[i].roomId);
            g.Some? && g.value in games && g.value.room == Some(rooms[i].roomId)
  {
  }

  /**
   * A successful join lands on a game of the room that the code resolves to,
   * and on the newest one.
   */
  lemma JoinLandsInRoom(rooms: seq<Room>, games: seq<StoredGame>, code: string)
    requires FindRoom(rooms, code).Some?
    requires LatestGame(games, FindRoom(rooms, code).value.roomId).Some?
    ensures var room := FindRoom(rooms, code).value;
            var g := LatestGame(games, room.roomId).value;
            room.sharedId == code && g in games && g.room == Some(room.roomId) &&
            forall h :: h in games && h.room == Some(room.roomId) ==> h.createdAt <= g.createdAt
  {
  }
}

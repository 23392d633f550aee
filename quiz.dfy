/**
 * The in-memory quiz-session tracker of LeetStudy/models/game.js, on values.
 *
 * The module-level `games` list is a `seq<Game>`. Every operation looks its game
 * up with `find` (the first game whose id matches) and changes that game only;
 * here each mutator is a function from the old list to the new one, and the
 * class in module Games applies them to its `games` field.
 */
module Quiz {
  import opened Wrappers
  import opened Text

  type GameId = string
  type PlayerId = string

  datatype Question = Question(question: string, correctAnswer: string)

  /** One entry of a game's answer log. `timeTaken` is whatever the client sent (an integer here). */
  datatype AnswerRecord = AnswerRecord(playerId: PlayerId, answer: string, timeTaken: int, correct: bool)

  datatype Game = Game(
    id: GameId,
    topic: string,
    difficulty: string,
    players: seq<PlayerId>,
    currentQuestionIndex: nat,
    questions: seq<Question>,
    answers: seq<AnswerRecord>)

  /** The two strings `addPlayerToGame` returns. */
  datatype JoinMessage = PlayerAdded | PlayerAlreadyInGame {
    function Message(): string {
      match this
      case PlayerAdded => "Player Added"
      case PlayerAlreadyInGame => "Player Already in Game"
    }
  }

  datatype JoinOutcome = JoinOutcome(games: seq<Game>, message: JoinMessage)

  // ---------------------------------------------------------------- questions

  /** `generateQuestions`: the same three fixture questions, whatever the topic and difficulty. */
  function GenerateQuestions(topic: string, difficulty: string): (qs: seq<Question>)
    ensures |qs| == 3
    ensures forall i :: 0 <= i < |qs| ==> qs[i].correctAnswer != ""
  {
    [ Question("What is the capital of France?", "Paris"),
      Question("Who wrote \"Hamlet\"?", "Shakespeare"),
      Question("What is 2 + 2?", "4") ]
  }

  /** The record `createGame` builds before pushing it. */
  function NewGame(id: GameId, topic: string, difficulty: string): Game {
    Game(id, topic, difficulty, [], 0, GenerateQuestions(topic, difficulty), [])
  }

  // ------------------------------------------------------------------- lookup

  /** The position of the game `games.find(game => game.id === id)` returns, if any. */
  function FindIndex(games: seq<Game>, id: GameId): (r: Option<nat>)
    ensures r.Some? ==> r.value < |games| && games[r.value].id == id
    ensures r.Some? ==> forall j :: 0 <= j < r.value ==> games[j].id != id
    ensures r.None? ==> forall j :: 0 <= j < |games| ==> games[j].id != id
  {
    if |games| == 0 then None
    else if games[0].id == id then Some(0)
    else match FindIndex(games[1..], id)
      case None => None
      case Some(k) => Some(k + 1)
  }

  /** No game in the list has this id yet (what a fresh `uuidv4()` gives). */
  predicate IsFreshId(games: seq<Game>, id: GameId) {
    forall j :: 0 <= j < |games| ==> games[j].id != id
  }

  predicate NoDuplicates<T(==)>(s: seq<T>) {
    forall i, j :: 0 <= i < j < |s| ==> s[i] != s[j]
  }

  /** The invariant the tracker keeps: ids are pairwise distinct and no player is listed twice in a game. */
  predicate ValidGames(games: seq<Game>) {
    (forall i, j :: 0 <= i < j < |games| ==> games[i].id != games[j].id) &&
    (forall i :: 0 <= i < |games| ==> NoDuplicates(games[i].players))
  }

  // ------------------------------------------------------------------- create

  /** `createGame`: push a new game with no players, no answers and the cursor at 0. */
  function Create(games: seq<Game>, id: GameId, topic: string, difficulty: string): (r: seq<Game>)
    ensures |r| == |games| + 1
    ensures forall j :: 0 <= j < |games| ==> r[j] == games[j]
    ensures r[|games|].id == id && r[|games|].topic == topic && r[|games|].difficulty == difficulty
    ensures r[|games|].players == [] && r[|games|].answers == [] && r[|games|].currentQuestionIndex == 0
    ensures r[|games|].questions == GenerateQuestions(topic, difficulty)
  {
    games + [NewGame(id, topic, difficulty)]
  }

  // --------------------------------------------------------------------- join

  /** The condition under which `addPlayerToGame` adds: the game exists and does not list the player. */
  predicate CanJoin(games: seq<Game>, gameId: GameId, playerId: PlayerId) {
    match FindIndex(games, gameId)
    case None => false
    case Some(i) => playerId !in games[i].players
  }

  /** `addPlayerToGame`. */
  function Join(games: seq<Game>, gameId: GameId, playerId: PlayerId): (r: JoinOutcome)
    ensures r.message == PlayerAdded <==> CanJoin(games, gameId, playerId)
    ensures r.message == PlayerAlreadyInGame ==> r.games == games
    ensures |r.games| == |games|
    ensures forall j :: 0 <= j < |games| && games[j].id != gameId ==> r.games[j] == games[j]
    ensures CanJoin(games, gameId, playerId) ==>
              var i := FindIndex(games, gameId).value;
              r.games[i].players == games[i].players + [playerId] &&
              r.games[i] == games[i].(players := r.games[i].players) &&
              forall j :: 0 <= j < |games| && j != i ==> r.games[j] == games[j]
  {
    match FindIndex(games, gameId)
    case Some(i) =>
      if playerId !in games[i].players then
        JoinOutcome(games[i := games[i].(players := games[i].players + [playerId])], PlayerAdded)
      else
        JoinOutcome(games, PlayerAlreadyInGame)
    case None => JoinOutcome(games, PlayerAlreadyInGame)
  }

  // ------------------------------------------------------- current question

  /**
   * `getCurrentQuestion`: `null` when the game is missing and `undefined` when the
   * cursor is past the last question; both are `None`.
   */
  function CurrentQuestion(games: seq<Game>, gameId: GameId): (r: Option<Question>)
    ensures r.Some? <==>
              FindIndex(games, gameId).Some? &&
              games[FindIndex(games, gameId).value].currentQuestionIndex <
                |games[FindIndex(games, gameId).value].questions|
    ensures r.Some? ==>
              var g := games[FindIndex(games, gameId).value];
              r.value == g.questions[g.currentQuestionIndex]
  {
    match FindIndex(games, gameId)
    case None => None
    case Some(i) =>
      if games[i].currentQuestionIndex < |games[i].questions| then
        Some(games[i].questions[games[i].currentQuestionIndex])
      else None
  }

  // ------------------------------------------------------------------- submit

  /** `correctAnswer.toLowerCase() === answer.toLowerCase()`. */
  predicate Judge(q: Question, answer: string) {
    EqualsIgnoringCase(q.correctAnswer, answer)
  }

  /**
   * `submitAnswer` throws when the game exists but its cursor is past the last
   * question (it reads `correctAnswer` of `undefined`); a missing game is fine.
   */
  predicate CanSubmit(games: seq<Game>, gameId: GameId) {
    match FindIndex(games, gameId)
    case None => true
    case Some(i) => games[i].currentQuestionIndex < |games[i].questions|
  }

  /** `submitAnswer`: append one judged record to the game's answer log; a missing game is a no-op. */
  function Submit(games: seq<Game>, gameId: GameId, playerId: PlayerId, answer: string, timeTaken: int): (r: seq<Game>)
    requires CanSubmit(games, gameId)
    ensures |r| == |games|
    ensures FindIndex(games, gameId).None? ==> r == games
    ensures forall j :: 0 <= j < |games| && games[j].id != gameId ==> r[j] == games[j]
    ensures FindIndex(games, gameId).Some? ==>
              var i := FindIndex(games, gameId).value;
              var q := games[i].questions[games[i].currentQuestionIndex];
              r[i].answers == games[i].answers +
                [AnswerRecord(playerId, answer, timeTaken, Lower(q.correctAnswer) == Lower(answer))] &&
              r[i] == games[i].(answers := r[i].answers) &&
              forall j :: 0 <= j < |games| && j != i ==> r[j] == games[j]
  {
    match FindIndex(games, gameId)
    case None => games
    case Some(i) =>
      var g := games[i];
      var q := g.questions[g.currentQuestionIndex];
      games[i := g.(answers := g.answers + [AnswerRecord(playerId, answer, timeTaken, Judge(q, answer))])]
  }

  // ------------------------------------------------------------------ advance

  /**
   * JavaScript's `a % b` on the non-negative integers `a` and `b`: `NaN` (here
   * `None`) when `b` is 0, otherwise the remainder.
   */
  function JsRemainder(a: nat, b: nat): (r: Option<nat>)
    ensures r.None? <==> b == 0
    ensures r.Some? ==> r.value < b && r.value == a % b
  {
    if b == 0 then None else Some(a % b)
  }

  /** `game.answers.length % game.players.length === 0`. `NaN === 0` is false. */
  predicate ShouldAdvance(g: Game) {
    JsRemainder(|g.answers|, |g.players|) == Some(0)
  }

  /** `nextQuestion`: bump the cursor when the guard holds. It throws on a missing game. */
  function Advance(games: seq<Game>, gameId: GameId): (r: seq<Game>)
    requires FindIndex(games, gameId).Some?
    ensures |r| == |games|
    ensures forall j :: 0 <= j < |games| && games[j].id != gameId ==> r[j] == games[j]
    ensures var i := FindIndex(games, gameId).value;
            r[i].currentQuestionIndex ==
              games[i].currentQuestionIndex + (if ShouldAdvance(games[i]) then 1 else 0) &&
            r[i] == games[i].(currentQuestionIndex := r[i].currentQuestionIndex) &&
            forall j :: 0 <= j < |games| && j != i ==> r[j] == games[j]
  {
    var i := FindIndex(games, gameId).value;
    if ShouldAdvance(games[i]) then
      games[i := games[i].(currentQuestionIndex := games[i].currentQuestionIndex + 1)]
    else games
  }
}

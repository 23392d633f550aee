/**
 * The module-level state of LeetStudy/models/game.js: the `games` list and the
 * exported operations on it. Each mutator finds the first game with the given
 * id and updates that stored game in place, so its new state is given by a
 * function of module Quiz applied to the old list.
 */
module Games {
  import opened Wrappers
  import opened Quiz
  import opened QuizProperties

  class GameStore {
    var games: seq<Game>

    /** Ids are pairwise distinct and no game lists a player twice. */
    ghost predicate Valid()
      reads this
    {
      ValidGames(games)
    }

    /** `const games = []`. */
    constructor ()
      ensures Valid() && games == []
    {
      games := [];
    }

    /** `getGame`: the first stored game with this id, or nothing. */
    function GetGame(gameId: GameId): (r: Option<Game>)
      reads this
      ensures r.None? <==> forall j :: 0 <= j < |games| ==> games[j].id != gameId
      ensures r.Some? ==>
                r.value.id == gameId &&
                exists j :: 0 <= j < |games| && games[j] == r.value &&
                            forall k :: 0 <= k < j ==> games[k].id != gameId
    {
      match FindIndex(games, gameId)
      case None => None
      case Some(i) => Some(games[i])
    }

    /**
     * `getCurrentQuestion`: the question under the cursor of the game, or nothing
     * when the game is missing (`null`) or the cursor is past the end (`undefined`).
     */
    function GetCurrentQuestion(gameId: GameId): (r: Option<Question>)
      reads this
      ensures r.Some? <==>
                GetGame(gameId).Some? &&
                GetGame(gameId).value.currentQuestionIndex < |GetGame(gameId).value.questions|
      ensures r.Some? ==>
                r.value == GetGame(gameId).value.questions[GetGame(gameId).value.currentQuestionIndex]
    {
      CurrentQuestion(games, gameId)
    }

    /** `createGame`, with `uuidv4()` replaced by the fresh identifier `id`. */
    method CreateGame(id: GameId, topic: string, difficulty: string) returns (game: Game)
      requires Valid()
      requires IsFreshId(games, id)
      modifies this
      ensures Valid()
      ensures games == old(games) + [game]
      ensures game.id == id && game.topic == topic && game.difficulty == difficulty
      ensures game.players == [] && game.answers == [] && game.currentQuestionIndex == 0
      ensures game.questions == GenerateQuestions(topic, difficulty)
      ensures GetGame(id) == Some(game)
    {
      CreatePreservesValid(games, id, topic, difficulty);
      CreateThenLookup(games, id, topic, difficulty, id);
      game := NewGame(id, topic, difficulty);
      games := games + [game];
    }

    /** `addPlayerToGame`: returns `'Player Added'` or `'Player Already in Game'`. */
    method AddPlayerToGame(gameId: GameId, playerId: PlayerId) returns (message: string)
      requires Valid()
      modifies this
      ensures Valid()
      ensures games == Join(old(games), gameId, playerId).games
      ensures message == Join(old(games), gameId, playerId).message.Message()
      ensures message == "Player Added" <==>
                old(GetGame(gameId)).Some? && playerId !in old(GetGame(gameId)).value.players
      ensures message != "Player Added" ==> message == "Player Already in Game" && games == old(games)
    {
      JoinPreservesValid(games, gameId, playerId);
      var outcome := Join(games, gameId, playerId);
      games := outcome.games;
      message := outcome.message.Message();
    }

    /** `submitAnswer`. It throws when the game's cursor is past the last question. */
    method SubmitAnswer(gameId: GameId, playerId: PlayerId, answer: string, timeTaken: int)
      requires Valid()
      requires CanSubmit(games, gameId)
      modifies this
      ensures Valid()
      ensures games == Submit(old(games), gameId, playerId, answer, timeTaken)
      ensures old(GetGame(gameId)).None? ==> games == old(games)
      ensures GetCurrentQuestion(gameId) == old(GetCurrentQuestion(gameId))
    {
      SubmitPreservesValid(games, gameId, playerId, answer, timeTaken);
      SubmitKeepsCurrentQuestion(games, gameId, playerId, answer, timeTaken, gameId);
      games := Submit(games, gameId, playerId, answer, timeTaken);
    }

    /** `nextQuestion`. It throws when the game is missing. */
    method NextQuestion(gameId: GameId)
      requires Valid()
      requires GetGame(gameId).Some?
      modifies this
      ensures Valid()
      ensures games == Advance(old(games), gameId)
      ensures GetGame(gameId).Some?
      ensures GetGame(gameId).value.currentQuestionIndex ==
                old(GetGame(gameId)).value.currentQuestionIndex +
                (if ShouldAdvance(old(GetGame(gameId)).value) then 1 else 0)
    {
      AdvancePreservesValid(games, gameId);
      FindIndexSameIds(games, Advance(games, gameId), gameId);
      games := Advance(games, gameId);
    }
  }

  /** A client of the store: create a game and let "p1" and "p2" join it, "p1" twice. */
  method OpenGameForTwo(store: GameStore, id: GameId) returns (ghost i: nat)
    requires store.Valid()
    requires IsFreshId(store.games, id)
    modifies store
    ensures store.Valid()
    ensures FindIndex(store.games, id) == Some(i)
    ensures store.games[i].players == ["p1", "p2"]
    ensures store.games[i].answers == [] && store.games[i].currentQuestionIndex == 0
    ensures store.games[i].questions == GenerateQuestions("literature", "easy")
  {
    i := |store.games|;
    CreateThenLookup(store.games, id, "literature", "easy", id);
    var game := store.CreateGame(id, "literature", "easy");
    ghost var created := store.games;
    var m1 := store.AddPlayerToGame(id, "p1");
    FindIndexSameIds(created, store.games, id);
    assert m1 == "Player Added";
    ghost var afterP1 := store.games;
    var m2 := store.AddPlayerToGame(id, "p2");
    FindIndexSameIds(afterP1, store.games, id);
    assert m2 == "Player Added";
    var m3 := store.AddPlayerToGame(id, "p1");
    assert m3 == "Player Already in Game";
  }

  /** A client of the store: "p1" and "p2" answer the current question of game `id`, found at `i`. */
  method AnswerBoth(store: GameStore, id: GameId, ghost i: nat)
    requires store.Valid()
    requires FindIndex(store.games, id) == Some(i)
    requires store.games[i].currentQuestionIndex < |store.games[i].questions|
    modifies store
    ensures store.Valid()
    ensures FindIndex(store.games, id) == Some(i)
    ensures |store.games| == |old(store.games)|
    ensures forall j :: 0 <= j < |store.games| && j != i ==> store.games[j] == old(store.games[j])
    ensures store.games[i] == old(store.games[i]).(answers := store.games[i].answers)
    ensures |store.games[i].answers| == |old(store.games[i].answers)| + 2
    ensures store.games[i].answers[..|old(store.games[i].answers)|] == old(store.games[i].answers)
    ensures var q := old(store.games[i]).questions[old(store.games[i]).currentQuestionIndex];
            store.games[i].answers == old(store.games[i].answers) +
              [AnswerRecord("p1", "Paris", 10, Judge(q, "Paris")), AnswerRecord("p2", "paris", 12, Judge(q, "paris"))]
  {
    ghost var before := store.games;
    store.SubmitAnswer(id, "p1", "Paris", 10);
    FindIndexSameIds(before, store.games, id);
    ghost var afterA1 := store.games;
    store.SubmitAnswer(id, "p2", "paris", 12);
    FindIndexSameIds(afterA1, store.games, id);
  }

  /**
   * A client of the store: both players answer the first question, one in
   * lower case; after `nextQuestion` the current question is the second one.
   */
  method PlayFirstRound(store: GameStore, id: GameId)
    requires store.Valid()
    requires IsFreshId(store.games, id)
    modifies store
    ensures store.Valid()
    ensures store.GetCurrentQuestion(id) == Some(Question("Who wrote \"Hamlet\"?", "Shakespeare"))
  {
    ghost var i := OpenGameForTwo(store, id);
    AnswerBoth(store, id, i);
    ShouldAdvanceIff(store.games[i]);
    ghost var answered := store.games;
    store.NextQuestion(id);
    FindIndexSameIds(answered, store.games, id);
    assert store.games[i].currentQuestionIndex == 1;
    assert store.games[i].questions == GenerateQuestions("literature", "easy");
  }
}

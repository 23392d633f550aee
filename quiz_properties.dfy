/** Properties of the quiz-session tracker, stated over the functions of module Quiz. */
module QuizProperties {
  import opened Wrappers
  import opened Text
  import opened Quiz

  predicate IsPrefix<T(==)>(p: seq<T>, q: seq<T>) {
    |p| <= |q| && q[..|p|] == p
  }

  // ------------------------------------------------------------------ lookup

  /** The lookup depends on the ids only: replacing games by games with the same ids finds the same position. */
  lemma FindIndexSameIds(a: seq<Game>, b: seq<Game>, id: GameId)
    requires |a| == |b|
    requires forall j :: 0 <= j < |a| ==> a[j].id == b[j].id
    ensures FindIndex(a, id) == FindIndex(b, id)
  {
  }

  /** Under distinct ids, the game found is the only one with that id. */
  lemma FindIndexUnique(games: seq<Game>, id: GameId, j: nat)
    requires ValidGames(games)
    requires j < |games| && games[j].id == id
    ensures FindIndex(games, id) == Some(j)
  {
  }

  // ------------------------------------------------------------------ create

  lemma GenerateQuestionsIgnoresArguments(t1: string, d1: string, t2: string, d2: string)
    ensures GenerateQuestions(t1, d1) == GenerateQuestions(t2, d2)
  {
  }

  /** A game created with a fresh id keeps the ids distinct. */
  lemma CreatePreservesValid(games: seq<Game>, id: GameId, topic: string, difficulty: string)
    requires ValidGames(games)
    requires IsFreshId(games, id)
    ensures ValidGames(Create(games, id, topic, difficulty))
  {
  }

  /**
   * After `createGame` with a fresh id, looking the id up finds the new game,
   * whose current question is the first fixture question; every other id finds
   * what it found before.
   */
  lemma CreateThenLookup(games: seq<Game>, id: GameId, topic: string, difficulty: string, other: GameId)
    requires IsFreshId(games, id)
    ensures FindIndex(Create(games, id, topic, difficulty), id) == Some(|games|)
    ensures CurrentQuestion(Create(games, id, topic, difficulty), id) ==
              Some(Question("What is the capital of France?", "Paris"))
    ensures other != id ==>
              FindIndex(Create(games, id, topic, difficulty), other) == FindIndex(games, other)
  {
  }

  // -------------------------------------------------------------------- join

  /** Joining twice with the same arguments leaves the games as after the first call, and reports "already in game". */
  lemma JoinIsIdempotent(games: seq<Game>, gameId: GameId, playerId: PlayerId)
    ensures var once := Join(games, gameId, playerId).games;
            Join(once, gameId, playerId) == JoinOutcome(once, PlayerAlreadyInGame)
  {
  }

  /** After a join on an existing game the player is listed in it, whether it was added or already there. */
  lemma JoinThenMember(games: seq<Game>, gameId: GameId, playerId: PlayerId)
    requires FindIndex(games, gameId).Some?
    ensures var r := Join(games, gameId, playerId).games;
            FindIndex(r, gameId) == FindIndex(games, gameId) &&
            playerId in r[FindIndex(games, gameId).value].players
  {
  }

  /** No join shrinks a player list: each old list is a prefix of the new one. */
  lemma JoinNeverShrinks(games: seq<Game>, gameId: GameId, playerId: PlayerId)
    ensures var r := Join(games, gameId, playerId).games;
            forall j :: 0 <= j < |games| ==> IsPrefix(games[j].players, r[j].players)
  {
  }

  /** A join keeps ids distinct and player lists free of duplicates. */
  lemma JoinPreservesValid(games: seq<Game>, gameId: GameId, playerId: PlayerId)
    requires ValidGames(games)
    ensures ValidGames(Join(games, gameId, playerId).games)
  {
  }

  /** A join changes no cursor and no answer log. */
  lemma JoinKeepsCursorsAndAnswers(games: seq<Game>, gameId: GameId, playerId: PlayerId)
    ensures var r := Join(games, gameId, playerId).games;
            forall j :: 0 <= j < |games| ==>
              r[j].currentQuestionIndex == games[j].currentQuestionIndex &&
              r[j].answers == games[j].answers &&
              r[j].questions == games[j].questions
  {
  }

  /** A join changes no game's current question. */
  lemma JoinKeepsCurrentQuestion(games: seq<Game>, gameId: GameId, playerId: PlayerId, x: GameId)
    ensures CurrentQuestion(Join(games, gameId, playerId).games, x) == CurrentQuestion(games, x)
  {
  }

  // ------------------------------------------------------------------ submit

  /** The answer is judged against the correct answer ignoring case, letter by letter. */
  lemma JudgeIsCaseInsensitiveEquality(q: Question, answer: string)
    ensures Judge(q, answer) <==>
              |q.correctAnswer| == |answer| &&
              forall i :: 0 <= i < |answer| ==> LowerChar(q.correctAnswer[i]) == LowerChar(answer[i])
  {
  }

  /** Changing the case of the submitted answer never changes the verdict. */
  lemma JudgeIgnoresCaseOfAnswer(q: Question, answer: string)
    ensures Judge(q, answer) == Judge(q, Lower(answer))
  {
  }

  /** A submission keeps ids distinct and player lists as they were. */
  lemma SubmitPreservesValid(games: seq<Game>, gameId: GameId, playerId: PlayerId, answer: string, timeTaken: int)
    requires ValidGames(games)
    requires CanSubmit(games, gameId)
    ensures ValidGames(Submit(games, gameId, playerId, answer, timeTaken))
  {
  }

  /** A submission changes no player list, no cursor and no question list. */
  lemma SubmitKeepsPlayersAndCursors(games: seq<Game>, gameId: GameId, playerId: PlayerId, answer: string, timeTaken: int)
    requires CanSubmit(games, gameId)
    ensures var r := Submit(games, gameId, playerId, answer, timeTaken);
            forall j :: 0 <= j < |games| ==>
              r[j].players == games[j].players &&
              r[j].currentQuestionIndex == games[j].currentQuestionIndex &&
              r[j].questions == games[j].questions &&
              IsPrefix(games[j].answers, r[j].answers)
  {
  }

  /** A submission changes no game's current question. */
  lemma SubmitKeepsCurrentQuestion(games: seq<Game>, gameId: GameId, playerId: PlayerId, answer: string, timeTaken: int, x: GameId)
    requires CanSubmit(games, gameId)
    ensures CurrentQuestion(Submit(games, gameId, playerId, answer, timeTaken), x) == CurrentQuestion(games, x)
  {
  }

  // ----------------------------------------------------------------- advance

  /** The guard of `nextQuestion`: some player has joined and the answer count is a multiple of the player count. */
  lemma ShouldAdvanceIff(g: Game)
    ensures ShouldAdvance(g) <==> |g.players| > 0 && |g.answers| % |g.players| == 0
  {
  }

  /**
   * `nextQuestion` moves the cursor by exactly one when a player has joined and
   * the answer count is a multiple of the player count, and leaves it otherwise.
   */
  lemma AdvanceRule(games: seq<Game>, gameId: GameId)
    requires FindIndex(games, gameId).Some?
    ensures var i := FindIndex(games, gameId).value;
            var r := Advance(games, gameId);
            (r[i].currentQuestionIndex == games[i].currentQuestionIndex + 1 <==>
               |games[i].players| > 0 && |games[i].answers| % |games[i].players| == 0) &&
            (r[i].currentQuestionIndex != games[i].currentQuestionIndex + 1 ==> r == games)
  {
  }

  /** With no players the guard compares `NaN` with 0, so nothing moves. */
  lemma AdvanceWithoutPlayersIsNoOp(games: seq<Game>, gameId: GameId)
    requires FindIndex(games, gameId).Some?
    requires games[FindIndex(games, gameId).value].players == []
    ensures Advance(games, gameId) == games
  {
  }

  /** With at least one player and no answers yet, the cursor advances. */
  lemma AdvanceAtRoundStart(games: seq<Game>, gameId: GameId)
    requires FindIndex(games, gameId).Some?
    requires |games[FindIndex(games, gameId).value].players| > 0
    requires games[FindIndex(games, gameId).value].answers == []
    ensures var i := FindIndex(games, gameId).value;
            Advance(games, gameId)[i].currentQuestionIndex == games[i].currentQuestionIndex + 1
  {
  }

  /** Every cursor is non-decreasing under `nextQuestion`, and moves by at most one. */
  lemma AdvanceIsMonotone(games: seq<Game>, gameId: GameId)
    requires FindIndex(games, gameId).Some?
    ensures var r := Advance(games, gameId);
            forall j :: 0 <= j < |games| ==>
              games[j].currentQuestionIndex <= r[j].currentQuestionIndex <= games[j].currentQuestionIndex + 1
  {
  }

  /** `nextQuestion` keeps ids distinct and player lists as they were. */
  lemma AdvancePreservesValid(games: seq<Game>, gameId: GameId)
    requires ValidGames(games)
    requires FindIndex(games, gameId).Some?
    ensures ValidGames(Advance(games, gameId))
  {
  }

  /**
   * The guard looks at counts only, so two calls of `nextQuestion` with no
   * submission between them move the cursor twice.
   */
  lemma AdvanceTwiceMovesTwice(games: seq<Game>, gameId: GameId)
    requires FindIndex(games, gameId).Some?
    requires ShouldAdvance(games[FindIndex(games, gameId).value])
    ensures var i := FindIndex(games, gameId).value;
            var once := Advance(games, gameId);
            FindIndex(once, gameId) == Some(i) &&
            Advance(once, gameId)[i].currentQuestionIndex == games[i].currentQuestionIndex + 2
  {
  }

  /**
   * `nextQuestion` does not stop at the last question: the cursor can run past
   * it, after which there is no current question and a submission would throw.
   */
  lemma CursorCanRunPastEnd()
    ensures var g := Game("g", "t", "d", ["p1"], 3, GenerateQuestions("t", "d"),
                          [AnswerRecord("p1", "x", 1, false)]);
            var r := Advance([g], "g");
            r[0].currentQuestionIndex == 4 > |r[0].questions| &&
            CurrentQuestion(r, "g") == None &&
            !CanSubmit(r, "g")
  {
  }

  // ------------------------------------------------------------------ rounds

  /** A submission as `submitAnswer` receives it, after the game id. */
  datatype Submission = Submission(playerId: PlayerId, answer: string, timeTaken: int)

  /** A run of `submitAnswer` calls on one game, in order. */
  function SubmitAll(games: seq<Game>, gameId: GameId, subs: seq<Submission>): (r: seq<Game>)
    requires CanSubmit(games, gameId)
    ensures |r| == |games|
    decreases |subs|
  {
    if subs == [] then games
    else
      var next := Submit(games, gameId, subs[0].playerId, subs[0].answer, subs[0].timeTaken);
      FindIndexSameIds(games, next, gameId);
      SubmitAll(next, gameId, subs[1..])
  }

  /** The records a run of submissions produces, each judged against question `q`. */
  function Judged(q: Question, subs: seq<Submission>): (rs: seq<AnswerRecord>)
    ensures |rs| == |subs|
  {
    seq(|subs|, k requires 0 <= k < |subs| =>
      AnswerRecord(subs[k].playerId, subs[k].answer, subs[k].timeTaken, Judge(q, subs[k].answer)))
  }

  lemma JudgedSplit(q: Question, subs: seq<Submission>)
    requires subs != []
    ensures Judged(q, subs) ==
              [AnswerRecord(subs[0].playerId, subs[0].answer, subs[0].timeTaken, Judge(q, subs[0].answer))] +
              Judged(q, subs[1..])
  {
  }

  /**
   * A run of submissions on an existing game appends one record per submission,
   * in order and judged against the question under the cursor, to its answer
   * log, and changes nothing else about it.
   */
  lemma {:induction false} SubmitAllAppends(games: seq<Game>, gameId: GameId, subs: seq<Submission>)
    requires FindIndex(games, gameId).Some?
    requires CanSubmit(games, gameId)
    ensures var i := FindIndex(games, gameId).value;
            var r := SubmitAll(games, gameId, subs);
            FindIndex(r, gameId) == Some(i) &&
            r[i].answers == games[i].answers +
              Judged(games[i].questions[games[i].currentQuestionIndex], subs) &&
            r[i] == games[i].(answers := r[i].answers)
    decreases |subs|
  {
    var i := FindIndex(games, gameId).value;
    var q := games[i].questions[games[i].currentQuestionIndex];
    if subs == [] {
      assert Judged(q, subs) == [];
    } else {
      var next := Submit(games, gameId, subs[0].playerId, subs[0].answer, subs[0].timeTaken);
      FindIndexSameIds(games, next, gameId);
      SubmitAllAppends(next, gameId, subs[1..]);
      JudgedSplit(q, subs);
      assert next[i].questions[next[i].currentQuestionIndex] == q;
    }
  }

  lemma MulAtLeast(k: int, n: int)
    requires k >= 1 && n > 0
    ensures k * n >= n
  {
    assert (k - 1) * n >= 0;
  }

  /** The remainder is the unique r with x == q * n + r and 0 <= r < n. */
  lemma RemainderUnique(x: int, n: int, q: int, r: int)
    requires n > 0 && 0 <= r < n && x == q * n + r
    ensures x % n == r
  {
    var q', r' := x / n, x % n;
    assert x == q' * n + r';
    assert (q - q') * n == r' - r;
    if q > q' {
      MulAtLeast(q - q', n);
    } else if q < q' {
      MulAtLeast(q' - q, n);
    }
  }

  /** Adding between 1 and n to a multiple of n gives a multiple of n only when adding n itself. */
  lemma MultipleAfterAdding(a: nat, m: nat, n: nat)
    requires n > 0 && a % n == 0 && 0 < m <= n
    ensures (a + m) % n == 0 <==> m == n
  {
    var q := a / n;
    assert a == q * n;
    if m == n {
      RemainderUnique(a + m, n, q + 1, 0);
    } else {
      RemainderUnique(a + m, n, q, m);
    }
  }

  /**
   * Rounds: from a point where the answer count is a multiple of the (non-zero)
   * player count, `nextQuestion` would fire after exactly as many submissions as
   * there are players, and after no smaller positive number of them.
   */
  lemma RoundCompletesAfterOneAnswerPerPlayer(games: seq<Game>, gameId: GameId, i: nat, subs: seq<Submission>)
    requires FindIndex(games, gameId) == Some(i)
    requires games[i].currentQuestionIndex < |games[i].questions|
    requires |games[i].players| > 0 && |games[i].answers| % |games[i].players| == 0
    requires 0 < |subs| <= |games[i].players|
    ensures ShouldAdvance(SubmitAll(games, gameId, subs)[i]) <==> |subs| == |games[i].players|
  {
    SubmitAllAppends(games, gameId, subs);
    MultipleAfterAdding(|games[i].answers|, |subs|, |games[i].players|);
  }

  // --------------------------------------------------------------- scenarios

  /** "paris" is judged correct against "Paris". */
  lemma JudgeParis()
    ensures Judge(Question("What is the capital of France?", "Paris"), "paris")
  {
  }

  /**
   * Create a game, two players join, both answer the first question: both
   * answers are judged correct and `nextQuestion` moves the cursor to 1.
   */
  lemma TwoPlayerRound(id: GameId)
    ensures var g0 := Create([], id, "geography", "easy");
            var g1 := Join(g0, id, "p1");
            var g2 := Join(g1.games, id, "p2");
            var g3 := Submit(g2.games, id, "p1", "Paris", 10);
            var g4 := Submit(g3, id, "p2", "paris", 12);
            var g5 := Advance(g4, id);
            g1.message == PlayerAdded && g2.message == PlayerAdded &&
            g5[0].players == ["p1", "p2"] &&
            g5[0].answers == [AnswerRecord("p1", "Paris", 10, true), AnswerRecord("p2", "paris", 12, true)] &&
            g5[0].currentQuestionIndex == 1
  {
  }
}

# Quiz-session tracker (LeetStudy/models/game.js) in Dafny

This project models the in-memory quiz-session tracker of the LeetStudy backend.
The module keeps a list of games. Each game has an id, a topic and a difficulty,
a fixed list of questions, a list of players that only grows, an append-only
answer log and a question cursor. All operations are single-threaded. Each one
looks its game up by id (the first match, as `Array.prototype.find` gives) and
then changes that stored game in place:

- `createGame` pushes a new game with the fixture questions.
- `addPlayerToGame` appends a player who is not listed yet.
- `getGame` and `getCurrentQuestion` read.
- `submitAnswer` appends a judged answer record. Judging is case-insensitive.
- `nextQuestion` moves the cursor by one whenever the answer count is a multiple of the
  player count (and at least one player has joined). It looks only at these counts:
  it also fires at zero answers, again on a repeated call, and when one player has
  answered as many times as there are players.

Files:

- `wrappers.dfy`: the `Option` type. `None` stands for `null` and `undefined`.
- `text.dfy` (module `Text`): `toLowerCase()` over the ASCII letters and case-insensitive equality.
- `quiz.dfy` (module `Quiz`): the records and every operation as a function from the old game list to the new one.
- `quiz_properties.dfy` (module `QuizProperties`): lemmas about those functions.
- `games.dfy` (module `Games`): the class `GameStore`. Its field `games: seq<Game>` is the module-level
  `games` array. Its methods are the mutating operations, and its functions are the readers. Each
  method's postcondition gives the new `games` as the matching `Quiz` function of the old one. The
  class invariant `Valid()` says that ids are pairwise distinct and that no game lists a player twice.
  Three client methods play a two-player round through the class.

JavaScript behaviour that is modelled explicitly:

- `uuidv4()` becomes an id parameter of `CreateGame`. The method requires the id to be fresh.
- `nextQuestion` computes `answers.length % players.length === 0`. With no players this is
  `NaN === 0`, which is false, so the cursor stays. `JsRemainder` returns `None` for `NaN`.
- `nextQuestion` on a missing game dereferences `undefined` and throws. This becomes a
  precondition (the game exists).
- `nextQuestion` never bounds the cursor, so the cursor can run past the last question. In that
  state `getCurrentQuestion` yields `undefined` (`None`). `submitAnswer` reads `correctAnswer` of
  `undefined` and throws, so it carries the precondition `CanSubmit`.
- `submitAnswer` on a missing game does nothing.
- `addPlayerToGame` on a missing game returns `'Player Already in Game'` and changes nothing.

Further facts about game.js that the model keeps:

- The cursor is not bounded by the number of questions (see `CursorCanRunPastEnd`).
- `addPlayerToGame` on a missing game returns `'Player Already in Game'`.
- `submitAnswer` on a missing game is silently ignored.
- Answers are judged by comparing strings only.

## Model

| member | source | states |
|---|---|---|
| Text.LowerChar | LeetStudy/models/game.js:57 | lower-casing leaves no upper-case ASCII letter, maps each upper-case letter to the lower-case letter 32 code points above it, and leaves every other character alone |
| Text.Lower | LeetStudy/models/game.js:57 | `toLowerCase()` keeps the length and lower-cases each character in its place |
| Text.LowerIsIdempotent | LeetStudy/models/game.js:57 | lower-casing a lower-cased string changes nothing |
| Text.EqualsIgnoringCaseIff | LeetStudy/models/game.js:57 | two strings are equal ignoring case iff they have the same length and agree character by character after lower-casing |
| Text.EqualsIgnoringCaseIffSameLetters | LeetStudy/models/game.js:57 | two strings are equal ignoring case iff they have the same length and at each position hold the same character or the same ASCII letter in the other case |
| Text.EqualsIgnoringCaseIsEquivalence | LeetStudy/models/game.js:57 | case-insensitive equality is reflexive, symmetric and transitive |
| Text.EqualsItsLowerCase | LeetStudy/models/game.js:57 | every string equals its lower-cased form, ignoring case |
| Quiz.GenerateQuestions | LeetStudy/models/game.js:4-13 | the question source gives a list of three questions, each with a non-empty correct answer |
| QuizProperties.GenerateQuestionsIgnoresArguments | LeetStudy/models/game.js:4-13 | the question list does not depend on the topic or difficulty |
| Quiz.FindIndex | LeetStudy/models/game.js:40-42 | the lookup finds the first game with the id, or reports that no game has it |
| QuizProperties.FindIndexSameIds | LeetStudy/models/game.js:40-42 | the lookup depends only on the games' ids, so an operation that keeps the ids keeps every lookup |
| QuizProperties.FindIndexUnique | LeetStudy/models/game.js:40-42 | when ids are distinct, the lookup finds the one game with the id |
| Quiz.Create | LeetStudy/models/game.js:14-26 | `createGame` appends exactly one game and leaves the existing ones unchanged; the new game has the given id, topic and difficulty, no players, no answers, cursor 0 and the generated questions |
| QuizProperties.CreatePreservesValid | LeetStudy/models/game.js:14-26 | creating a game with a fresh id keeps ids distinct and player lists duplicate-free |
| QuizProperties.CreateThenLookup | LeetStudy/models/game.js:14-26 | after creation the id finds the new game, whose current question is the first fixture question; every other id finds what it found before |
| Quiz.Join | LeetStudy/models/game.js:29-38 | `addPlayerToGame` answers `'Player Added'` iff the game exists and does not list the player, and then appends exactly that player to that game alone; otherwise it answers `'Player Already in Game'` and changes nothing |
| QuizProperties.JoinIsIdempotent | LeetStudy/models/game.js:29-38 | joining a second time with the same arguments changes nothing and answers `'Player Already in Game'` |
| QuizProperties.JoinThenMember | LeetStudy/models/game.js:29-38 | after a join on an existing game the player is listed in it |
| QuizProperties.JoinNeverShrinks | LeetStudy/models/game.js:31-32 | every player list before a join is a prefix of the list after it |
| QuizProperties.JoinPreservesValid | LeetStudy/models/game.js:31-32 | a join keeps ids distinct and never puts a player in a game twice |
| QuizProperties.JoinKeepsCursorsAndAnswers | LeetStudy/models/game.js:29-38 | a join changes no cursor, no answer log and no question list |
| QuizProperties.JoinKeepsCurrentQuestion | LeetStudy/models/game.js:29-38 | a join changes no game's current question |
| Quiz.CurrentQuestion | LeetStudy/models/game.js:44-52 | the current question exists iff the game exists and its cursor is in range, and it is then the question under the cursor |
| Quiz.Submit | LeetStudy/models/game.js:53-66 | on an existing game, `submitAnswer` appends exactly one record with the player, answer and time, marked correct iff the lower-cased correct answer equals the lower-cased answer; players, cursor, questions and every other game are unchanged; a missing game changes nothing |
| QuizProperties.JudgeIsCaseInsensitiveEquality | LeetStudy/models/game.js:57 | an answer is judged correct iff it has the correct answer's length and matches it character by character after lower-casing |
| QuizProperties.JudgeIgnoresCaseOfAnswer | LeetStudy/models/game.js:57 | lower-casing the submitted answer never changes the verdict |
| QuizProperties.JudgeParis | LeetStudy/models/game.js:57 | `"paris"` is judged correct against `"Paris"` |
| QuizProperties.SubmitPreservesValid | LeetStudy/models/game.js:53-66 | a submission keeps ids distinct and player lists duplicate-free |
| QuizProperties.SubmitKeepsPlayersAndCursors | LeetStudy/models/game.js:53-66 | a submission changes no player list, cursor or question list, and each old answer log is a prefix of the new one |
| QuizProperties.SubmitKeepsCurrentQuestion | LeetStudy/models/game.js:53-66 | a submission changes no game's current question |
| Quiz.JsRemainder | LeetStudy/models/game.js:69 | JavaScript `%` on non-negative operands gives `NaN` exactly when the divisor is 0, and otherwise the remainder |
| QuizProperties.ShouldAdvanceIff | LeetStudy/models/game.js:69 | the guard holds iff some player has joined and the answer count is a multiple of the player count |
| Quiz.Advance | LeetStudy/models/game.js:67-72 | `nextQuestion` adds one to the found game's cursor when the guard holds and nothing otherwise; every other field and game is unchanged |
| QuizProperties.AdvanceRule | LeetStudy/models/game.js:67-72 | the cursor moves by exactly one iff players > 0 and answers mod players == 0; when it does not move, nothing changes |
| QuizProperties.AdvanceWithoutPlayersIsNoOp | LeetStudy/models/game.js:69 | with no players, `nextQuestion` changes nothing |
| QuizProperties.AdvanceAtRoundStart | LeetStudy/models/game.js:69-70 | with at least one player and no answers, the cursor advances |
| QuizProperties.AdvanceIsMonotone | LeetStudy/models/game.js:67-72 | no cursor decreases, and none moves by more than one |
| QuizProperties.AdvancePreservesValid | LeetStudy/models/game.js:67-72 | `nextQuestion` keeps ids distinct and player lists duplicate-free |
| QuizProperties.AdvanceTwiceMovesTwice | LeetStudy/models/game.js:67-72 | the guard looks only at counts, so two calls with no new answers between them move the cursor by two |
| QuizProperties.CursorCanRunPastEnd | LeetStudy/models/game.js:67-72 | the cursor can pass the last question; there is then no current question and a submission is not allowed |
| QuizProperties.SubmitAllAppends | LeetStudy/models/game.js:53-66 | a run of submissions on an existing game appends to its log exactly one record per submission, in order, with that submission's player, answer and time and its verdict against the question under the cursor; the lookup and every other field of the game are unchanged |
| QuizProperties.RoundCompletesAfterOneAnswerPerPlayer | LeetStudy/models/game.js:53-72 | from a round boundary (answer count a multiple of a non-zero player count), the advance guard holds after k submissions, for 0 < k <= players, exactly when k equals the player count |
| QuizProperties.TwoPlayerRound | LeetStudy/models/game.js:14-72 | create, two joins, two correct answers (one in lower case) and `nextQuestion` give players `["p1","p2"]`, two records judged correct and cursor 1 |
| Games.GameStore.constructor | LeetStudy/models/game.js:3 | the store starts with no games and satisfies its invariant |
| Games.GameStore.GetGame | LeetStudy/models/game.js:40-42 | `getGame` returns nothing iff no stored game has the id, and otherwise a stored game with the id that no earlier game shares |
| Games.GameStore.GetCurrentQuestion | LeetStudy/models/game.js:44-52 | `getCurrentQuestion` returns the question under the cursor iff the game exists and the cursor is in range |
| Games.GameStore.CreateGame | LeetStudy/models/game.js:14-26 | the stored list becomes the old list plus the returned game; the new game is fresh and empty with cursor 0; `getGame` then finds it; the invariant is kept |
| Games.GameStore.AddPlayerToGame | LeetStudy/models/game.js:29-38 | the new list is that of `Join` and the returned string is its message; `'Player Added'` iff the game existed without the player; otherwise `'Player Already in Game'` and the list is unchanged |
| Games.GameStore.SubmitAnswer | LeetStudy/models/game.js:53-66 | the new list is that of `Submit`; a missing game leaves it unchanged; the current question of the game is unchanged |
| Games.GameStore.NextQuestion | LeetStudy/models/game.js:67-72 | the new list is that of `Advance`; the game's cursor grows by one exactly when the guard held |
| Games.OpenGameForTwo | LeetStudy/models/game.js:14-38 | through the class, a new game joined by `p1`, `p2` and `p1` again lists exactly `["p1","p2"]`, with no answers and cursor 0 |
| Games.AnswerBoth | LeetStudy/models/game.js:53-66 | through the class, two submissions to a game with an in-range cursor append the two records (player, answer, time, verdict against the current question) to its log, keep the old log as a prefix, and change nothing else in that game or in any other game |
| Games.PlayFirstRound | LeetStudy/models/game.js:14-72 | through the class, after both players answer and `nextQuestion`, the current question is the second fixture question |

## Left out

- `routes/lobbyRoutes.js`: HTTP handlers and document-store calls. Lobby-code generation uses
  `Math.random()` and retries against the database. This is I/O and randomness.
- `models/Lobby.js`: a database schema. Its one-hour expiry is enforced by the database.
- `server.js` and `test.js`: server start-up and a client request.
- `marihacks-app/app/[roomId]/ClientRoom.tsx`: the client UI. Its score count and its 20 XP per
  correct answer live in the client, not in the tracker.
- `uuidv4()`: a library call. It is replaced by a fresh id supplied to `CreateGame`.
- `toLowerCase()` beyond ASCII: only `A`-`Z` are lower-cased. Unicode case mapping is not modelled.
- Aliasing: `createGame` and `getGame` return the stored object itself, so a caller could mutate a
  game directly. The model returns a copy of the record, and only the exported operations change
  the store.
- `null` versus `undefined` from `getCurrentQuestion`: both become `None`.
- Dynamic types: `timeTaken` is modelled as an integer, not a JavaScript number (floating point).
  Player ids and answers are strings; a non-string answer would make `toLowerCase` throw.
- The comment about an external question API in `generateQuestions` has no behaviour behind it.
- Concurrency: the code is single-threaded JavaScript and has no locks.
- The global `question`: `submitAnswer` assigns to the undeclared name `question`
  (LeetStudy/models/game.js:56), which in non-strict CommonJS code creates or overwrites a global
  variable on every submission. The model keeps the question as a local value and does not model
  that global.

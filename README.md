# Quiz tic-tac-toe: a Dafny model of the game rules

The repository is a browser game in which two to five teams share one 3x3
tic-tac-toe board. A team picks a cell and must answer a multiple-choice
question within 45 seconds. A right answer claims the cell, even when the
cell already holds the other symbol (a "steal"). A wrong answer passes the
turn. When the time runs out, the quiz locks with result false, but that
result never reaches the game screen (see "## Findings"). Symbols follow
turn parity, X on even turns and O on odd ones. Teams follow the turn
counter modulo the team count. The first claim that completes a line ends
the match and names the claiming team as winner.

The model has seven modules, one per core file plus two shared ones:

- `Types`: the record types of `types.ts` and the parity rule for symbols.
- `Board`: the eight winning lines and `CheckWinner`, with a proof that the
  scan finds a line exactly when one is filled, and which one it reports.
- `App`: the match engine of `App.tsx`. Its transitions (start, claim,
  miss, reset) are pure functions over a `Match` value, and any sequence of
  operations can be run with `Run`. The class `App.Game` holds the same
  state in fields, with the board in an `array`. Each of its handlers
  updates the fields in place and is proved to produce exactly the state
  that the matching pure transition gives.
- `Dispenser`: the question pool of `GameScreen.tsx`. Each draw takes one
  question out of the pool, and the full set refills the pool when it runs
  out. A lap of N draws over N questions serves every question exactly once.
- `GameScreen`: who is to play, the steal test, and the class `Screen`. Its
  handlers draw a question on a cell click and send a quiz result to the
  engine's claim or miss.
- `Quiz`: the 45-second quiz of `QuizModal.tsx` as a state machine of ticks
  and clicks, and the class `QuizModal` that works it in place. The first
  answer is final. With no click, the 45th tick times the quiz out with
  result false. The feedback line always agrees with the scheduled result.
- `Setup`: the question list of `SetupScreen.tsx` and its buttons (load a
  sample, add, remove). It also holds the start check, which admits a match
  only with at least nine questions whose content is not whitespace, using
  the ECMAScript `trim` whitespace set. The class `SetupScreen` holds these
  fields.

Where the model needs a value that the program gets from outside, the value
is a parameter:

- The random pool index is a parameter `r` chosen by the caller, limited to
  the indices a random pick can produce.
- `Date.now()` is a parameter `now`.
- The sample themes are a parameter `themes`.

Three points where the code behaves differently from what one might
expect; the model follows the code:

- A winning claim does not advance `turnIndex`. Only a non-winning claim and
  a miss do.
- `resetGame` does not clear `winnerTeam`. It also keeps the teams and the
  questions.
- `GameState` declares `Draw`, but no handler ever sets it. The comment at
  App.tsx:52-53 says so: a full board no longer ends the game, so teams can
  keep stealing cells until someone wins. A full board with no line keeps
  the match in `Playing`, and it is proved that no run reaches `Draw`.

## Model

| member | source | states |
|---|---|---|
| Types.SymbolFor | App.tsx:41 | the symbol is X exactly on even turns |
| Types.SymbolsAlternate | App.tsx:41 | consecutive turns play opposite symbols, and the symbol repeats every two turns |
| Board.EmptyBoard | App.tsx:12 | a fresh board has nine empty cells |
| Board.ScanFrom | App.tsx:32-37 | the loop over the lines from line k; what it returns is stated by Board.ScanFromCorrect |
| Board.CheckWinner | App.tsx:25-38 | `checkWinner`; what it returns is stated by Board.CheckWinnerCorrect |
| Board.ScanFromCorrect | App.tsx:32-37 | scanning the lines from line k finds a symbol iff some later line is filled with one symbol; the symbol found is the one of the first such line |
| Board.CheckWinnerCorrect | App.tsx:25-38 | `checkWinner` returns a symbol iff one of the eight lines holds three equal symbols; the result is the symbol of the first filled line in the source's line order |
| Board.EveryLineDetected | App.tsx:26-30 | each of the eight rows, columns and diagonals, filled with either symbol, is recognised as a win |
| Board.ClaimWinsWithWrittenSymbol | App.tsx:40-49 | a write that turns a board with no line into one with a line makes the written symbol the winning one |
| Board.NewLineHasWrittenSymbol | App.tsx:42-46 | a line filled only after writing cell i must pass through i and carry the written symbol |
| Board.FullBoardWithoutLine | App.tsx:51-55 | a full board can have no line, so the match then goes on with nobody winning |
| App.TeamOfTurn | App.tsx:49 | the turn's team exists exactly when there is at least one team |
| App.Initial | App.tsx:9-14 | before a match: setup state and a nine-cell board |
| App.Start | App.tsx:16-23 | starting installs the chosen teams and questions, an empty board, turn 0, no winner, state Playing |
| App.Claim | App.tsx:40-56 | a claim keeps the board at nine cells and keeps the teams and questions, and never leads into Draw |
| App.ClaimWritesCurrentSymbol | App.tsx:41-44 | a claim writes X on even turns and O on odd ones into the claimed cell, overwriting any owner, and no other cell changes |
| App.ClaimOutcome | App.tsx:46-55 | after a claim that fills a line: state Winner, the turn's team as winner, turn not advanced; otherwise the state and winner are kept and the turn advances by one |
| App.WinnerHoldsWrittenSymbol | App.tsx:46-50 | the claim that ends a match wins with the symbol of the turn whose team is recorded as winner |
| App.Miss | App.tsx:58-60 | a miss advances the turn by one and changes nothing else |
| App.Reset | App.tsx:62-66 | reset returns to setup with an empty board and turn 0, keeping the winner, teams and questions |
| App.Apply | App.tsx:16-66 | every operation keeps the board at nine cells |
| App.Run | App.tsx:9-66 | any sequence of start, claim, miss and reset keeps nine cells and never reaches Draw |
| App.TwoTeamScenario | App.tsx:40-60 | with two teams, claims of cells 0, 1 and 2 on turns 0, 2 and 4 (with misses in between) complete the top row in X and make the first team winner at turn 4 |
| App.Game.constructor | App.tsx:9-14 | the component's initial state is the setup state |
| App.Game.IsGameOver | App.tsx:82 | the game-over flag is set exactly in the Winner and Setup states |
| App.Game.StartGame | App.tsx:16-23 | the fields become the started match, with a new board array |
| App.Game.HandleCellClaim | App.tsx:40-56 | the in-place handler leaves exactly the state of the claim transition, and a newly won board shows the current turn's symbol |
| App.Game.HandleTurnMiss | App.tsx:58-60 | the fields become the missed-turn state; the board is untouched |
| App.Game.ResetGame | App.tsx:62-66 | the fields become the reset state, with a new empty board |
| Dispenser.RemoveAt | components/GameScreen.tsx:42 | removing one position shortens the pool by exactly one; the contents are stated by Dispenser.RemoveAtSpec |
| Dispenser.DrawQuestion | components/GameScreen.tsx:37-43 | a draw serves a question iff the pool or the full set is non-empty, and the question comes from the pool it was drawn from |
| Dispenser.RemoveAtSpec | components/GameScreen.tsx:42 | removing position r keeps every other entry in order and takes exactly one copy of entry r out |
| Dispenser.DrawSpec | components/GameScreen.tsx:37-43 | a draw serves entry r of the pool (or of the full set when the pool is empty), the rest of the pool is what is left, and the full set refills an emptied pool |
| Dispenser.DrawKeepsPoolInFullSet | components/GameScreen.tsx:29-43 | with at least one question, every draw serves a question of the set, and the pool is never empty and never holds more copies than the set |
| Dispenser.DrawMany | components/GameScreen.tsx:37-43 | k consecutive draws give k results |
| Dispenser.DrainServesPoolOnce | components/GameScreen.tsx:37-43 | draining a non-empty pool serves each of its entries exactly once and leaves the full set as the new pool |
| Dispenser.LapServesEveryQuestionOnce | components/GameScreen.tsx:29-43 | from the full pool, N draws over N questions serve every question exactly once and restore the full pool |
| GameScreen.CurrentTeam | components/GameScreen.tsx:23 | the playing team is one of the teams |
| GameScreen.CurrentTeamAndSymbol | components/GameScreen.tsx:23-24 | the playing team is one of the teams, at the turn modulo the team count, and is the team the engine records as winner; the symbol is X on even turns |
| GameScreen.TeamsAndSymbolsCycleIndependently | components/GameScreen.tsx:23-24 | after one round of all teams the same team plays again, and with the same symbol iff the team count is even |
| GameScreen.IsStealAttempt | components/GameScreen.tsx:63 | `isStealAttempt`; its meaning is stated by GameScreen.StealTargetsOpponent |
| GameScreen.StealTargetsOpponent | components/GameScreen.tsx:63 | a selected cell is a steal iff it holds the other parity's symbol; an empty cell or no selection is never a steal |
| GameScreen.AfterQuiz | components/GameScreen.tsx:49-61 | no report leaves the match unchanged; a true report is the claim of the cell and a false one the missed turn |
| GameScreen.TimedOutQuizStallsTurn | components/GameScreen.tsx:49-61 | as written, a quiz that times out leaves the match exactly as it was: the turn does not pass |
| GameScreen.TimedOutQuizPassesTurn | components/GameScreen.tsx:49-61 | with the intended report, a timed-out quiz passes the turn and leaves the board and game state alone |
| GameScreen.Screen.constructor | components/GameScreen.tsx:20-31 | the screen starts with the full question set as its pool and nothing selected |
| GameScreen.Screen.StealShown | components/GameScreen.tsx:63 | a steal is shown only for a selected cell held by the opposing symbol |
| GameScreen.Screen.HandleCellClick | components/GameScreen.tsx:33-47 | a click after the game is over changes nothing; otherwise the question and new pool are those of one draw at index r, and the clicked cell is selected |
| GameScreen.Screen.HandleQuizResult | components/GameScreen.tsx:49-61 | the selection and question are cleared; the engine's state becomes the claim of the selected cell on a right answer and the missed turn otherwise, which is AfterQuiz of the delivered result |
| Quiz.Start | components/QuizModal.tsx:12-14 | a new quiz has nothing selected, is not answered, and has 45 seconds |
| Quiz.OnTick | components/QuizModal.tsx:23-40 | a tick keeps the session in a valid state, never changes the selection, and leaves an answered session alone |
| Quiz.OnClick | components/QuizModal.tsx:42-50 | a click keeps the session valid and the time unchanged, and leaves an answered session alone |
| Quiz.TickDecrements | components/QuizModal.tsx:35-37 | with more than one second left, a tick takes off exactly one second and nothing else |
| Quiz.TickTimesOut | components/QuizModal.tsx:26-31 | the tick that takes the last second locks the quiz with no selection and result false |
| Quiz.ClickAnswers | components/QuizModal.tsx:42-48 | the first click selects its option, locks the quiz and schedules whether the option is the correct one |
| Quiz.Step | components/QuizModal.tsx:23-50 | a tick or a click leads from a valid session to a valid one |
| Quiz.Run | components/QuizModal.tsx:23-50 | along any sequence of ticks and clicks the session stays valid, so the time stays between 0 and 45 |
| Quiz.AnsweredIsFinal | components/QuizModal.tsx:23-48 | once answered, no tick or click changes the session: the first answer is final |
| Quiz.AnsweredMonotone | components/QuizModal.tsx:42-45 | a session answered after a prefix of events stays answered after all of them |
| Quiz.UnansweredCountdown | components/QuizModal.tsx:14-37 | without a click the quiz stays open for 44 ticks with 45-n seconds left, and the 45th tick times it out with result false |
| Quiz.CountdownFrom | components/QuizModal.tsx:23-37 | from an open quiz with t seconds left, n < t ticks leave it open with t-n seconds, and t ticks time it out |
| Quiz.FeedbackFor | components/QuizModal.tsx:136-141 | the label choice; what it shows is stated by Quiz.FeedbackMatchesResult |
| Quiz.FeedbackMatchesResult | components/QuizModal.tsx:134-141 | "correct" is shown iff the selection is the correct index with time left; with no time left the timeout line is shown; on an answered quiz the line agrees with the reported result |
| Quiz.ReportAsWritten | components/QuizModal.tsx:23-50 | as written, only a click's result reaches `onResult`; a session that timed out reports nothing |
| Quiz.TimeoutReportIsCancelled | components/QuizModal.tsx:26-40 | the tick that times the quiz out changes `isAnswered`, a dependency of the timer effect, and after 45 ticks the quiz holds result false but reports nothing |
| Quiz.Report | components/QuizModal.tsx:26-48 | intended: a result is delivered iff the quiz is answered, it is the scheduled one, and it is true iff the correct option was selected |
| Quiz.TimeoutReportsFalse | components/QuizModal.tsx:26-31 | intended: 45 ticks without a click deliver false, and on every answered quiz the delivered result agrees with the feedback line |
| Quiz.QuizModal.constructor | components/QuizModal.tsx:12-14 | the modal opens in the fresh session for its question |
| Quiz.QuizModal.Tick | components/QuizModal.tsx:23-40 | the fields become the ticked session and an answered modal stays answered |
| Quiz.QuizModal.Click | components/QuizModal.tsx:42-50 | the fields become the clicked session, and a second click keeps the first selection and result |
| Quiz.QuizModal.FeedbackLine | components/QuizModal.tsx:134-141 | on an answered modal, "correct" is shown iff the reported result is true, and the timeout line iff nothing was selected |
| Setup.InitialQuestions | components/SetupScreen.tsx:20-27 | the screen starts with nine blank questions numbered 0 to 8 |
| Setup.Renumber | components/SetupScreen.tsx:134 | loading a sample keeps its number of questions |
| Setup.RenumberSpec | components/SetupScreen.tsx:131-136 | a loaded sample's ids are the positions and nothing else of a question changes; renumbering is idempotent |
| Setup.AddQuestion | components/SetupScreen.tsx:139-144 | adding keeps the old list as a prefix and appends one blank question |
| Setup.AddQuestionSpec | components/SetupScreen.tsx:138-145 | adding keeps the existing list as a prefix, appends one blank question with id `now`, and does not change what a start would use |
| Setup.RemoveQuestion | components/SetupScreen.tsx:147-153 | refused, for too few questions, iff nine or fewer are left; otherwise nine or more remain, one fewer when the index is in range and the same list when it is not |
| Setup.RemoveQuestionSpec | components/SetupScreen.tsx:147-153 | removal is refused iff nine or fewer questions are left; otherwise position k is dropped, the other entries keep their order, and nine or more remain |
| Setup.TrimStart | components/SetupScreen.tsx:157 | the result is a suffix of the text that does not start with whitespace |
| Setup.TrimEnd | components/SetupScreen.tsx:157 | the result is a prefix of the text that does not end with whitespace |
| Setup.Trim | components/SetupScreen.tsx:157 | the result is no longer than the text and, unless empty, starts and ends with a non-whitespace character |
| Setup.HasContent | components/SetupScreen.tsx:157 | the start filter's test; its meaning is stated by Setup.TrimEmptyIffBlank |
| Setup.TrimStartBlank | components/SetupScreen.tsx:157 | stripping leading whitespace gives the empty text iff the text is all whitespace |
| Setup.TrimEndBlank | components/SetupScreen.tsx:157 | stripping trailing whitespace gives the empty text iff the text is all whitespace, and otherwise leaves it ending in a non-whitespace character |
| Setup.TrimEmptyIffBlank | components/SetupScreen.tsx:157 | a content trims to the empty text iff every character is ECMAScript whitespace |
| Setup.ValidQuestions | components/SetupScreen.tsx:157 | the filter keeps exactly the questions with content and is never longer than the list |
| Setup.ValidQuestionsConcat | components/SetupScreen.tsx:157 | the filter keeps the order: filtering a concatenation is concatenating the filtered parts |
| Setup.ValidQuestionsKeepsFilled | components/SetupScreen.tsx:157 | a list whose questions all have content passes the filter unchanged |
| Setup.ValidQuestionsDropsBlank | components/SetupScreen.tsx:157 | a list with no question holding content filters to nothing |
| Setup.InitialListCannotStart | components/SetupScreen.tsx:155-163 | the initial nine blank questions give nothing to play with, so the start is refused |
| Setup.BuildTeams | components/SetupScreen.tsx:156 | the roster has as many teams as the count asks for, or as there are names if fewer |
| Setup.BuildTeamsSpec | components/SetupScreen.tsx:156 | team i is named by name i and has id i, and turn t belongs to the team with id t modulo the count |
| Setup.CheckStart | components/SetupScreen.tsx:155-163 | the start is admitted iff at least nine questions have content, and then hands over exactly the built teams and the filtered questions; otherwise it is refused for too few questions |
| Setup.StartedMatchHasNineQuestions | components/SetupScreen.tsx:157-162 | every admitted start has at least nine questions, each with content and each from the edited list |
| Setup.SampleCanStart | components/SetupScreen.tsx:131-162 | a loaded sample whose nine or more questions all have content starts a match with exactly those questions |
| Setup.SetupScreen.constructor | components/SetupScreen.tsx:12-27 | two teams, the five default names, no theme, AI mode, the nine blank questions; the screen's invariant (2 to 5 teams, five names) holds |
| Setup.SetupScreen.SetTeamCount | components/SetupScreen.tsx:197-200 | the count becomes the chosen number from 2 to 5 and nothing else changes |
| Setup.SetupScreen.RenameTeam | components/SetupScreen.tsx:214-217 | the name list becomes the old one with name i replaced, so it still has five names, and nothing else changes |
| Setup.SetupScreen.LoadSample | components/SetupScreen.tsx:131-136 | the theme name and renumbered questions of the sample are installed and the mode becomes manual |
| Setup.SetupScreen.AddManualQuestion | components/SetupScreen.tsx:138-145 | the list becomes the list with one blank question appended, nothing else changes |
| Setup.SetupScreen.RemoveManualQuestion | components/SetupScreen.tsx:147-153 | a refusal is reported and the list kept when nine or fewer are left; otherwise the list drops the position |
| Setup.SetupScreen.HandleStart | components/SetupScreen.tsx:155-163 | a match starts iff the start check admits it, then with at least nine questions and 2 to 5 built teams; otherwise the game is untouched |

## Findings

| source | as written | input that shows it | evidently intended | confidence | as-written member | corrected member |
|---|---|---|---|---|---|---|
| components/QuizModal.tsx:26-32 | on timeout the timer effect arms the 1.5-second result timer and sets `isAnswered` in the same run; `isAnswered` is one of the effect's dependencies (line 40), so the cleanup at line 32 clears the timer before it fires. The options are disabled, so nothing else calls `onResult`, and the modal stays open with the turn not passed (Quiz.TimeoutReportIsCancelled, GameScreen.TimedOutQuizStallsTurn) | 45 ticks with no click | a timeout reports false and the turn passes to the next team (Quiz.TimeoutReportsFalse, GameScreen.TimedOutQuizPassesTurn) | high, not executed | Quiz.ReportAsWritten | Quiz.Report |

## Left out

- Question generation through the Gemini service (AI mode, regenerating one question, the JSON it returns and its loading flags): it calls a remote service, so it is out of scope.
- MathJax typesetting and the sound effects: these are rendering and audio only.
- Real time: the one-second interval of the quiz modal becomes discrete tick events, and a click is an event of its own. The 1500 ms and 1800 ms presentation delays are dropped, and the result is recorded in `scheduled` when it is decided. The React effect lifecycle is not modelled step by step. Its one consequence for the rules is stated instead: the cleanup of the timer effect cancels the timeout's report (see "## Findings"). The session records the result the modal schedules, and Quiz.ReportAsWritten says which result reaches the game screen.
- The render between the last tick and the timeout lock: in the source, a render with no time left and the quiz still open comes before the timer effect locks the quiz, and a click in that window records a selection with no time left. The model takes the last second and locks the quiz in one tick, so that state, in which the timeout label is shown while the click's result is reported, is not modelled.
- `Math.random` and `Date.now()`: both become caller-supplied parameters (`r`, `now`).
- The sample themes listed in `constants.ts`: `LoadSample` takes the theme list as a parameter, and the themes' text is not transcribed.
- `Cell.tsx` and `ResultModal.tsx`: these only present the game (the cell's flip animation, the winner dialog). A cell's click calls the game screen's cell-click handler, modelled by GameScreen.Screen.HandleCellClick. The winner dialog's button calls the modelled reset.
- The question editors of the setup screen (a question's content, its correct index and one of its options). Each copies the question list but writes into the shared question object in place: `content`, `correctIndex` or one entry of `options`. After a sample is loaded, the questions' option lists are still shared with the sample themes (the copy made when loading is shallow), so editing a loaded question's options also changes the sample itself. The model works on values and captures neither the in-place writes nor this sharing.
- The question-count field and the mode toggle: each sets one state field of the screen and touches no question. The count only feeds the AI generation, and the AI mode only selects that generation form. Team renaming copies the name list and replaces one name; it is modelled by Setup.SetupScreen.RenameTeam.
- The alert texts: a refusal is modelled as a `Refusal` value or a `refused`/`started` flag.
- App.Game.HandleCellClaim: the source builds a new board array and keeps the old one unchanged for earlier readers. The model writes the board array in place, so aliasing of the old board is not captured.

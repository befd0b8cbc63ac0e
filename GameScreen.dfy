/** The game screen of GameScreen.tsx: who is to play, whether a selected
    cell is a steal, and the `Screen` state (question pool, selected cell,
    current question) with the cell-click draw and the dispatch of a quiz
    result to the engine's claim or miss. */
module GameScreen {
  import opened Types
  import opened Board
  import opened App
  import opened Dispenser
  import Quiz

  /** `currentTeam`. */
  function CurrentTeam(teams: seq<Team>, turn: nat): (t: Team)
    requires |teams| >= 1
    ensures t in teams
  {
    teams[turn % |teams|]
  }

  /** The turn picks the team by position modulo the team count and the
      symbol by parity; the engine records the same team as winner. */
  lemma {:induction false} CurrentTeamAndSymbol(teams: seq<Team>, turn: nat)
    requires |teams| >= 1
    ensures CurrentTeam(teams, turn) in teams
    ensures CurrentTeam(teams, turn) == teams[turn % |teams|]
    ensures TeamOfTurn(teams, turn) == Some(CurrentTeam(teams, turn))
    ensures SymbolFor(turn) == X <==> turn % 2 == 0
  {
  }

  /** Teams and symbols cycle independently: after one round of all teams
      the same team plays again, with the same symbol iff the team count is
      even. */
  lemma {:induction false} TeamsAndSymbolsCycleIndependently(teams: seq<Team>, turn: nat)
    requires |teams| >= 1
    ensures CurrentTeam(teams, turn + |teams|) == CurrentTeam(teams, turn)
    ensures SymbolFor(turn + |teams|) == SymbolFor(turn) <==> |teams| % 2 == 0
  {
    var n := |teams|;
    var q, r := turn / n, turn % n;
    assert turn + n == (q + 1) * n + r;
    ModUnique(turn + n, n, q + 1, r);
    if n % 2 == 0 {
      assert (turn + n) % 2 == turn % 2;
    } else {
      assert (turn + n) % 2 != turn % 2;
    }
  }

  /** The remainder of `a` by `n` is the `r` of any decomposition `q * n + r`. */
  lemma ModUnique(a: int, n: int, q: int, r: int)
    requires n >= 1 && a == q * n + r && 0 <= r < n
    ensures a % n == r
  {
    var q', r' := a / n, a % n;
    var d := q' - q;
    assert d * n == r - r' by {
      assert a == q' * n + r';
      assert q' * n - q * n == (q' - q) * n;
    }
    if d >= 1 {
      MulAtLeast(d, n);
      assert false;
    } else if d <= -1 {
      MulAtLeast(-d, n);
      assert false;
    }
  }

  lemma MulAtLeast(d: int, n: int)
    requires d >= 1 && n >= 1
    ensures d * n >= n
  {
    assert d * n == (d - 1) * n + n;
    assert (d - 1) * n >= 0;
  }

  /** `isStealAttempt`: a cell is selected and holds a symbol other than
      the current one. */
  predicate IsStealAttempt(board: Cells, selected: Option<nat>, turn: nat)
    requires selected.Some? ==> selected.value < |board|
  {
    selected.Some? && board[selected.value] != None && board[selected.value] != Some(SymbolFor(turn))
  }

  /** A steal targets exactly the cells held by the symbol of the other
      parity, and an empty or own cell is never a steal. */
  lemma StealTargetsOpponent(board: Cells, i: nat, turn: nat)
    requires i < |board|
    ensures IsStealAttempt(board, Some(i), turn) <==> board[i] == Some(SymbolFor(turn + 1))
    ensures board[i] == None ==> !IsStealAttempt(board, Some(i), turn)
    ensures !IsStealAttempt(board, None, turn)
  {
    if board[i].Some? {
      assert board[i].value == X || board[i].value == O;
    }
  }

  /** What the engine's match becomes once a quiz on `cell` reports: no
      report leaves the match as it is, a true report claims the cell and a
      false one passes the turn. */
  function AfterQuiz(m: Match, cell: nat, report: Option<bool>): (m': Match)
    requires |m.board| == 9 && cell < 9
    ensures report == None ==> m' == m
    ensures report == Some(false) ==> m' == Miss(m) && m'.turnIndex == m.turnIndex + 1
    ensures report == Some(true) ==> m' == Claim(m, cell)
  {
    match report
    case None => m
    case Some(correct) => if correct then Claim(m, cell) else Miss(m)
  }

  /** As written, a quiz that times out never reports, so the match keeps
      its turn and the cell stays selected with the modal open. */
  lemma TimedOutQuizStallsTurn(m: Match, cell: nat, ci: int)
    requires |m.board| == 9 && cell < 9
    ensures AfterQuiz(m, cell, Quiz.ReportAsWritten(Quiz.Run(Quiz.Start(ci), Quiz.Ticks(45)))) == m
  {
    Quiz.TimeoutReportIsCancelled(ci);
  }

  /** With the intended report, a quiz that times out passes the turn to the
      next team and leaves the board alone. */
  lemma TimedOutQuizPassesTurn(m: Match, cell: nat, ci: int)
    requires |m.board| == 9 && cell < 9
    ensures var m' := AfterQuiz(m, cell, Quiz.Report(Quiz.Run(Quiz.Start(ci), Quiz.Ticks(45))));
            m'.turnIndex == m.turnIndex + 1 && m'.board == m.board && m'.state == m.state
  {
    Quiz.TimeoutReportsFalse(ci, Quiz.Start(ci));
  }

  /** The GameScreen component's own state for one match; `game` is the App
      state it reads its props from and reports claims and misses to. */
  class Screen {
    const game: Game
    var questionPool: seq<Question>
    var selectedCellIndex: Option<nat>
    var currentQuestion: Option<Question>

    ghost predicate Valid()
      reads this, game
    {
      game.Valid() && (selectedCellIndex.Some? ==> selectedCellIndex.value < 9)
    }

    /** Mounting the screen, including the effect that copies the question set into the pool. */
    constructor (g: Game)
      requires g.Valid()
      ensures Valid() && game == g
      ensures questionPool == g.questions && selectedCellIndex == None && currentQuestion == None
    {
      game := g;
      questionPool := g.questions;
      selectedCellIndex := None;
      currentQuestion := None;
    }

    /** Whether the quiz about to be shown is a steal. */
    function StealShown(): (steal: bool)
      reads this, game, game.board
      requires Valid()
      ensures steal ==> selectedCellIndex.Some? &&
                        game.board[selectedCellIndex.value] == Some(SymbolFor(game.turnIndex + 1))
    {
      var steal := IsStealAttempt(game.board[..], selectedCellIndex, game.turnIndex);
      if steal then StealTargetsOpponent(game.board[..], selectedCellIndex.value, game.turnIndex); steal
      else steal
    }

    /** `handleCellClick`: ignored once the game is over; otherwise draws a
        question at index `r` of the pool and selects the cell. */
    method HandleCellClick(index: nat, r: nat)
      requires Valid() && index < 9
      requires !game.IsGameOver() ==> IndexOk(questionPool, game.questions, r)
      modifies this
      ensures Valid()
      ensures old(game.IsGameOver()) ==>
                questionPool == old(questionPool) && selectedCellIndex == old(selectedCellIndex) &&
                currentQuestion == old(currentQuestion)
      ensures !old(game.IsGameOver()) ==>
                var d := DrawQuestion(old(questionPool), game.questions, r);
                currentQuestion == d.question && questionPool == d.pool && selectedCellIndex == Some(index)
    {
      if game.IsGameOver() {
        return;
      }
      var pool := if |questionPool| > 0 then questionPool else game.questions;
      var question := if |pool| > 0 then Some(pool[r]) else None;
      var newPool := if |pool| > 0 then pool[..r] + pool[r + 1..] else [];
      questionPool := if |newPool| > 0 then newPool else game.questions;
      currentQuestion := question;
      selectedCellIndex := Some(index);
    }

    /** `handleQuizResult`: clears the selection and the question, then
        claims the selected cell when the answer was right and passes the
        turn otherwise; the engine's new state is `AfterQuiz` of the report. */
    method HandleQuizResult(correct: bool)
      requires Valid() && selectedCellIndex.Some?
      modifies this, game, game.board
      ensures Valid() && game.board == old(game.board)
      ensures selectedCellIndex == None && currentQuestion == None && questionPool == old(questionPool)
      ensures game.Snapshot() == if correct then Claim(old(game.Snapshot()), old(selectedCellIndex).value)
                                 else Miss(old(game.Snapshot()))
      ensures game.Snapshot() == AfterQuiz(old(game.Snapshot()), old(selectedCellIndex).value, Some(correct))
    {
      var cellIdx := selectedCellIndex.value;
      selectedCellIndex := None;
      currentQuestion := None;
      if correct {
        game.HandleCellClaim(cellIdx);
      } else {
        game.HandleTurnMiss();
      }
    }
  }
}

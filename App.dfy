/** The board/turn engine of App.tsx: the match state (game state, teams,
    questions, board, turn counter, winner), its four transitions as pure
    functions with their properties, and the `Game` class whose methods
    update the same state in place. */
module App {
  import opened Types
  import opened Board

  /** The state App.tsx keeps for a match. */
  datatype Match = Match(state: GameState, teams: seq<Team>, questions: seq<Question>,
                         board: Cells, turnIndex: nat, winner: Option<Team>)

  /** The team owning turn `turn`. With no teams the lookup yields nothing. */
  function TeamOfTurn(teams: seq<Team>, turn: nat): (t: Option<Team>)
    ensures t.Some? <==> |teams| > 0
  {
    if |teams| == 0 then None else Some(teams[turn % |teams|])
  }

  /** The state before any match: setup screen, no teams, empty board. */
  function Initial(): (m: Match)
    ensures m.state == Setup && |m.board| == 9
  {
    Match(Setup, [], [], EmptyBoard(), 0, None)
  }

  /** `startGame`. */
  function Start(m: Match, teams: seq<Team>, questions: seq<Question>): (m': Match)
    ensures m'.state == Playing && m'.teams == teams && m'.questions == questions
    ensures m'.board == EmptyBoard() && m'.turnIndex == 0 && m'.winner == None
  {
    Match(Playing, teams, questions, EmptyBoard(), 0, None)
  }

  /** `handleCellClaim`: write the current symbol into cell `i` whatever it
      held, then either record the current team as winner or pass the turn. */
  function Claim(m: Match, i: nat): (m': Match)
    requires |m.board| == 9 && i < 9
    ensures |m'.board| == 9 && m'.teams == m.teams && m'.questions == m.questions
    ensures m.state != Draw ==> m'.state != Draw
  {
    var b := m.board[i := Some(SymbolFor(m.turnIndex))];
    if CheckWinner(b).Some? then
      m.(board := b, winner := TeamOfTurn(m.teams, m.turnIndex), state := Winner)
    else
      m.(board := b, turnIndex := m.turnIndex + 1)
  }

  /** `handleTurnMiss`. */
  function Miss(m: Match): (m': Match)
    ensures m'.turnIndex == m.turnIndex + 1
    ensures m' == m.(turnIndex := m'.turnIndex)
  {
    m.(turnIndex := m.turnIndex + 1)
  }

  /** `resetGame`: back to setup with an empty board and turn 0. The winner,
      the teams and the questions are not cleared. */
  function Reset(m: Match): (m': Match)
    ensures m'.state == Setup && m'.board == EmptyBoard() && m'.turnIndex == 0
    ensures m'.winner == m.winner && m'.teams == m.teams && m'.questions == m.questions
  {
    m.(state := Setup, board := EmptyBoard(), turnIndex := 0)
  }

  /** A claim writes the symbol of the turn's parity into cell `i`,
      overwriting any occupant, and leaves the other eight cells alone. */
  lemma ClaimWritesCurrentSymbol(m: Match, i: nat)
    requires |m.board| == 9 && i < 9
    ensures Claim(m, i).board[i] == Some(if m.turnIndex % 2 == 0 then X else O)
    ensures forall j :: 0 <= j < 9 && j != i ==> Claim(m, i).board[j] == m.board[j]
  {
  }

  /** The outcome of a claim: a filled line names the current team winner
      and freezes the turn; otherwise the turn advances by exactly one and
      the game state is kept, even on a full board. */
  lemma ClaimOutcome(m: Match, i: nat)
    requires |m.board| == 9 && i < 9
    ensures var m' := Claim(m, i);
            if CheckWinner(m'.board).Some? then
              m'.state == Winner && m'.turnIndex == m.turnIndex &&
              m'.winner == (if |m.teams| == 0 then None else Some(m.teams[m.turnIndex % |m.teams|]))
            else
              m'.state == m.state && m'.turnIndex == m.turnIndex + 1 && m'.winner == m.winner
  {
  }

  /** The claim that ends a match wins with the symbol it has just written,
      i.e. the symbol of the turn recorded with the winning team. */
  lemma {:induction false} WinnerHoldsWrittenSymbol(m: Match, i: nat)
    requires |m.board| == 9 && i < 9
    requires CheckWinner(m.board).None? && CheckWinner(Claim(m, i).board).Some?
    ensures CheckWinner(Claim(m, i).board) == Some(SymbolFor(m.turnIndex))
  {
    ClaimWinsWithWrittenSymbol(m.board, i, SymbolFor(m.turnIndex));
  }

  /** The operations a driver can apply to a match. */
  datatype Op = StartOp(teams: seq<Team>, questions: seq<Question>) | ClaimOp(cell: nat) | MissOp | ResetOp

  predicate OpOk(op: Op)
  {
    op.ClaimOp? ==> op.cell < 9
  }

  function Apply(m: Match, op: Op): (m': Match)
    requires |m.board| == 9 && OpOk(op)
    ensures |m'.board| == 9
  {
    match op
    case StartOp(ts, qs) => Start(m, ts, qs)
    case ClaimOp(i) => Claim(m, i)
    case MissOp => Miss(m)
    case ResetOp => Reset(m)
  }

  /** Applying `ops` in order. No sequence of operations ever reaches the
      `Draw` state: a match ends only on a filled line. */
  function Run(m: Match, ops: seq<Op>): (m': Match)
    requires |m.board| == 9 && forall k :: 0 <= k < |ops| ==> OpOk(ops[k])
    ensures |m'.board| == 9
    ensures m.state != Draw ==> m'.state != Draw
    decreases |ops|
  {
    if ops == [] then m else Run(Apply(m, ops[0]), ops[1..])
  }

  /** Two teams A and B: A claims 0, B misses, A claims 1, B misses, A
      claims 2. Row 0-1-2 is filled with X and A is the winner. */
  lemma TwoTeamScenario(a: Team, b: Team, qs: seq<Question>)
    ensures var m := Run(Initial(), [StartOp([a, b], qs), ClaimOp(0), MissOp, ClaimOp(1), MissOp, ClaimOp(2)]);
            m.state == Winner && m.winner == Some(a) && m.turnIndex == 4 &&
            CheckWinner(m.board) == Some(X)
  {
    var ops := [StartOp([a, b], qs), ClaimOp(0), MissOp, ClaimOp(1), MissOp, ClaimOp(2)];
    var m0 := Start(Initial(), [a, b], qs);
    var m1 := Match(Playing, [a, b], qs, [Some(X), None, None, None, None, None, None, None, None], 1, None);
    var m3 := Match(Playing, [a, b], qs, [Some(X), Some(X), None, None, None, None, None, None, None], 3, None);
    var m5 := Match(Winner, [a, b], qs, [Some(X), Some(X), Some(X), None, None, None, None, None, None], 4, Some(a));
    ScenarioClaims(a, b, qs);
    assert Run(m5, []) == m5;
    assert Run(Miss(m3), ops[5..]) == m5;
    assert Run(m3, ops[4..]) == m5;
    assert Run(Miss(m1), ops[3..]) == m5;
    assert Run(m1, ops[2..]) == m5;
    assert Run(m0, ops[1..]) == m5;
    ScenarioBoards();
  }

  /** The three claims of the scenario, one step at a time. */
  lemma ScenarioClaims(a: Team, b: Team, qs: seq<Question>)
    ensures Claim(Start(Initial(), [a, b], qs), 0)
         == Match(Playing, [a, b], qs, [Some(X), None, None, None, None, None, None, None, None], 1, None)
    ensures Claim(Miss(Match(Playing, [a, b], qs, [Some(X), None, None, None, None, None, None, None, None], 1, None)), 1)
         == Match(Playing, [a, b], qs, [Some(X), Some(X), None, None, None, None, None, None, None], 3, None)
    ensures Claim(Miss(Match(Playing, [a, b], qs, [Some(X), Some(X), None, None, None, None, None, None, None], 3, None)), 2)
         == Match(Winner, [a, b], qs, [Some(X), Some(X), Some(X), None, None, None, None, None, None], 4, Some(a))
  {
    ScenarioBoards();
    assert EmptyBoard()[0 := Some(X)] == [Some(X), None, None, None, None, None, None, None, None];
    assert [Some(X), None, None, None, None, None, None, None, None][1 := Some(X)]
        == [Some(X), Some(X), None, None, None, None, None, None, None];
    assert [Some(X), Some(X), None, None, None, None, None, None, None][2 := Some(X)]
        == [Some(X), Some(X), Some(X), None, None, None, None, None, None];
  }

  /** The boards of the scenario above, after one, two and three X claims. */
  lemma ScenarioBoards()
    ensures CheckWinner([Some(X), None, None, None, None, None, None, None, None]) == None
    ensures CheckWinner([Some(X), Some(X), None, None, None, None, None, None, None]) == None
    ensures CheckWinner([Some(X), Some(X), Some(X), None, None, None, None, None, None]) == Some(X)
  {
  }

  /** The App component's state, updated in place by its handlers. */
  class Game {
    var gameState: GameState
    var teams: seq<Team>
    var questions: seq<Question>
    var board: array<Option<Symbol>>
    var turnIndex: nat
    var winnerTeam: Option<Team>

    ghost predicate Valid()
      reads this
    {
      board.Length == 9 && gameState != Draw
    }

    /** The abstract match this object holds. */
    function Snapshot(): Match
      reads this, board
    {
      Match(gameState, teams, questions, board[..], turnIndex, winnerTeam)
    }

    constructor ()
      ensures Valid() && fresh(board)
      ensures Snapshot() == Initial()
    {
      gameState := Setup;
      teams := [];
      questions := [];
      board := new Option<Symbol>[9](_ => None);
      turnIndex := 0;
      winnerTeam := None;
      new;
      assert board[..] == EmptyBoard();
    }

    /** The game-over flag handed to the game screen. */
    function IsGameOver(): (over: bool)
      reads this
      requires Valid()
      ensures over <==> gameState == Winner || gameState == Setup
    {
      gameState != Playing
    }

    method StartGame(selectedTeams: seq<Team>, selectedQuestions: seq<Question>)
      modifies this
      ensures Valid() && fresh(board)
      ensures Snapshot() == Start(old(Snapshot()), selectedTeams, selectedQuestions)
    {
      teams := selectedTeams;
      questions := selectedQuestions;
      board := new Option<Symbol>[9](_ => None);
      turnIndex := 0;
      gameState := Playing;
      winnerTeam := None;
      assert board[..] == EmptyBoard();
    }

    method HandleCellClaim(index: nat)
      requires Valid() && index < 9
      modifies this, board
      ensures Valid() && board == old(board)
      ensures Snapshot() == Claim(old(Snapshot()), index)
      ensures old(CheckWinner(board[..])).None? && CheckWinner(board[..]).Some? ==>
                CheckWinner(board[..]) == Some(SymbolFor(old(turnIndex)))
    {
      ghost var before := Snapshot();
      var currentSymbol := if turnIndex % 2 == 0 then X else O;
      board[index] := Some(currentSymbol);
      assert board[..] == before.board[index := Some(SymbolFor(turnIndex))];
      var winningSymbol := CheckWinner(board[..]);
      if winningSymbol.Some? {
        winnerTeam := if |teams| == 0 then None else Some(teams[turnIndex % |teams|]);
        gameState := Winner;
      } else {
        turnIndex := turnIndex + 1;
      }
      if winningSymbol.Some? && CheckWinner(before.board).None? {
        WinnerHoldsWrittenSymbol(before, index);
      }
    }

    method HandleTurnMiss()
      requires Valid()
      modifies this
      ensures Valid() && board == old(board)
      ensures Snapshot() == Miss(old(Snapshot()))
    {
      turnIndex := turnIndex + 1;
    }

    method ResetGame()
      requires Valid()
      modifies this
      ensures Valid() && fresh(board)
      ensures Snapshot() == Reset(old(Snapshot()))
    {
      gameState := Setup;
      board := new Option<Symbol>[9](_ => None);
      turnIndex := 0;
      assert board[..] == EmptyBoard();
    }
  }
}

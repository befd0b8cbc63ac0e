/** The record types shared by the game: the two board symbols, a quiz
    question, a team, the top-level game state and a sample theme. */
module Types {

  datatype Option<T> = None | Some(value: T)

  /** A board mark. Turn parity decides which one is written. */
  datatype Symbol = X | O

  /** A multiple-choice question; `correctIndex` names the right option. */
  datatype Question = Question(id: int, content: string, options: seq<string>, correctIndex: int)

  datatype Team = Team(id: int, name: string)

  /** `Draw` is declared but no operation of the game ever enters it. */
  datatype GameState = Setup | Playing | Winner | Draw

  /** A named list of sample questions offered on the setup screen. */
  datatype Theme = Theme(name: string, questions: seq<Question>)

  /** The symbol of the team whose turn is `turn`: X on even turns, O on odd ones. */
  function SymbolFor(turn: nat): (s: Symbol)
    ensures s == X <==> turn % 2 == 0
  {
    if turn % 2 == 0 then X else O
  }

  /** Consecutive turns always play opposite symbols, and two turns apart the symbol repeats. */
  lemma SymbolsAlternate(turn: nat)
    ensures SymbolFor(turn + 1) != SymbolFor(turn)
    ensures SymbolFor(turn + 2) == SymbolFor(turn)
  {
  }
}

/** Win detection on the 3x3 board (`checkWinner` in App.tsx). Cells are
    numbered 0..8 row by row; a line wins when its three cells hold the same
    symbol. */
module Board {
  import opened Types

  type Cells = seq<Option<Symbol>>

  datatype Line = Line(a: nat, b: nat, c: nat)

  /** The eight lines in the order they are scanned: rows, columns, diagonals. */
  const Lines: seq<Line> := [
    Line(0, 1, 2), Line(3, 4, 5), Line(6, 7, 8),
    Line(0, 3, 6), Line(1, 4, 7), Line(2, 5, 8),
    Line(0, 4, 8), Line(2, 4, 6)
  ]

  /** The empty board. */
  function EmptyBoard(): (b: Cells)
    ensures |b| == 9 && forall i :: 0 <= i < 9 ==> b[i] == None
  {
    [None, None, None, None, None, None, None, None, None]
  }

  /** All three cells of `l` hold `s`. */
  predicate Wins(b: Cells, l: Line, s: Symbol)
  {
    l.a < |b| && l.b < |b| && l.c < |b| &&
    b[l.a] == Some(s) && b[l.b] == Some(s) && b[l.c] == Some(s)
  }

  /** `l` is filled by one symbol, whichever it is. */
  predicate Won(b: Cells, l: Line)
  {
    Wins(b, l, X) || Wins(b, l, O)
  }

  predicate OnLine(i: nat, l: Line)
  {
    i == l.a || i == l.b || i == l.c
  }

  /** The scan of `Lines[k..]`: the symbol of the first filled line, if any. */
  function ScanFrom(b: Cells, k: nat): Option<Symbol>
    requires k <= |Lines|
    decreases |Lines| - k
  {
    if k == |Lines| then None
    else
      var l := Lines[k];
      if l.a < |b| && l.b < |b| && l.c < |b| && b[l.a].Some? && b[l.a] == b[l.b] && b[l.a] == b[l.c]
      then b[l.a]
      else ScanFrom(b, k + 1)
  }

  /** `checkWinner`: the symbol of the first filled line in `Lines` order. */
  function CheckWinner(b: Cells): Option<Symbol>
  {
    ScanFrom(b, 0)
  }

  lemma {:induction false} ScanFromCorrect(b: Cells, k: nat)
    requires k <= |Lines|
    ensures ScanFrom(b, k).Some? <==> exists j :: k <= j < |Lines| && Won(b, Lines[j])
    ensures ScanFrom(b, k).Some? ==>
              exists j :: k <= j < |Lines| && Wins(b, Lines[j], ScanFrom(b, k).value) &&
                          forall i :: k <= i < j ==> !Won(b, Lines[i])
    decreases |Lines| - k
  {
    if k < |Lines| {
      var l := Lines[k];
      if l.a < |b| && l.b < |b| && l.c < |b| && b[l.a].Some? && b[l.a] == b[l.b] && b[l.a] == b[l.c] {
        assert Wins(b, Lines[k], b[l.a].value);
        assert b[l.a].value.X? || b[l.a].value.O?;
      } else {
        ScanFromCorrect(b, k + 1);
        assert !Won(b, Lines[k]);
      }
    }
  }

  /** The result of `checkWinner` is present iff one of the eight lines is
      filled by one symbol, and then it is the symbol of the first such line. */
  lemma {:induction false} CheckWinnerCorrect(b: Cells)
    ensures CheckWinner(b).Some? <==> exists j :: 0 <= j < |Lines| && Won(b, Lines[j])
    ensures CheckWinner(b).Some? ==>
              exists j :: 0 <= j < |Lines| && Wins(b, Lines[j], CheckWinner(b).value) &&
                          forall i :: 0 <= i < j ==> !Won(b, Lines[i])
  {
    ScanFromCorrect(b, 0);
  }

  /** Every one of the eight lines, filled by either symbol, is detected. */
  lemma {:induction false} EveryLineDetected(b: Cells, j: nat, s: Symbol)
    requires j < |Lines| && Wins(b, Lines[j], s)
    ensures CheckWinner(b).Some?
  {
    CheckWinnerCorrect(b);
    assert Won(b, Lines[j]);
  }

  /** A claim that completes a line completes it with the symbol written:
      if the board had no filled line and writing `s` at cell `i` produces
      one, the winner is `s`. */
  lemma {:induction false} ClaimWinsWithWrittenSymbol(b: Cells, i: nat, s: Symbol)
    requires |b| == 9 && i < 9
    requires CheckWinner(b).None?
    requires CheckWinner(b[i := Some(s)]).Some?
    ensures CheckWinner(b[i := Some(s)]) == Some(s)
  {
    var b' := b[i := Some(s)];
    CheckWinnerCorrect(b);
    CheckWinnerCorrect(b');
    var v := CheckWinner(b').value;
    var j :| 0 <= j < |Lines| && Wins(b', Lines[j], v);
    assert !Won(b, Lines[j]);
    NewLineHasWrittenSymbol(b, i, s, j, v);
  }

  /** If line `j` was not filled and is filled by `v` once cell `i` holds
      `s`, then it passes through `i` and `v` is `s`. */
  lemma NewLineHasWrittenSymbol(b: Cells, i: nat, s: Symbol, j: nat, v: Symbol)
    requires i < |b| && j < |Lines|
    requires !Won(b, Lines[j]) && Wins(b[i := Some(s)], Lines[j], v)
    ensures OnLine(i, Lines[j]) && v == s
  {
    var l := Lines[j];
    if !OnLine(i, l) {
      UntouchedLineKept(b, i, s, l);
      assert Won(b[i := Some(s)], l);
    }
  }

  /** Writing a cell off line `l` does not change whether `l` is filled. */
  lemma UntouchedLineKept(b: Cells, i: nat, s: Symbol, l: Line)
    requires i < |b| && !OnLine(i, l)
    ensures Won(b[i := Some(s)], l) == Won(b, l)
  {
  }

  /** A full board need not have a filled line: X O X / X O O / O X X. */
  lemma FullBoardWithoutLine()
    ensures var b := [Some(X), Some(O), Some(X), Some(X), Some(O), Some(O), Some(O), Some(X), Some(X)];
            (forall i :: 0 <= i < 9 ==> b[i].Some?) && CheckWinner(b) == None
  {
  }
}

/** The setup screen of SetupScreen.tsx: the editable question list, the
    list transforms behind its buttons, and the validation that guards the
    start of a match (at least nine questions with content). */
module Setup {
  import opened Types
  import opened App
  import opened Dispenser

  /** No start and no removal below this many questions. */
  const MinQuestions: nat := 9

  /** A question with empty content, four empty options and option 0 marked correct. */
  function BlankQuestion(id: int): Question
  {
    Question(id, "", ["", "", "", ""], 0)
  }

  predicate IsBlank(q: Question)
  {
    q.content == "" && q.options == ["", "", "", ""] && q.correctIndex == 0
  }

  /** The list the screen starts with: nine blank questions numbered 0..8. */
  function InitialQuestions(): (qs: seq<Question>)
    ensures |qs| == 9
    ensures forall i :: 0 <= i < 9 ==> IsBlank(qs[i]) && qs[i].id == i
  {
    seq(9, i requires 0 <= i < 9 => BlankQuestion(i))
  }

  /** `loadSample`: the sample's questions with ids replaced by their positions. */
  function Renumber(qs: seq<Question>): (r: seq<Question>)
    ensures |r| == |qs|
  {
    seq(|qs|, i requires 0 <= i < |qs| => qs[i].(id := i))
  }

  /** Renumbering sets each id to its position and changes nothing else;
      renumbering twice is renumbering once. */
  lemma RenumberSpec(qs: seq<Question>)
    ensures forall i :: 0 <= i < |qs| ==> Renumber(qs)[i].id == i
    ensures forall i :: 0 <= i < |qs| ==> Renumber(qs)[i].(id := qs[i].id) == qs[i]
    ensures Renumber(Renumber(qs)) == Renumber(qs)
  {
  }

  /** `addManualQuestion`: append a blank question; `now` stands for `Date.now()`. */
  function AddQuestion(qs: seq<Question>, now: int): (r: seq<Question>)
    ensures |r| == |qs| + 1 && r[..|qs|] == qs && IsBlank(r[|qs|])
  {
    qs + [BlankQuestion(now)]
  }

  /** Adding keeps every existing entry, grows the list by one blank
      question, and does not change which questions a start would use. */
  lemma {:induction false} AddQuestionSpec(qs: seq<Question>, now: int)
    ensures |AddQuestion(qs, now)| == |qs| + 1 && AddQuestion(qs, now)[..|qs|] == qs
    ensures IsBlank(AddQuestion(qs, now)[|qs|]) && AddQuestion(qs, now)[|qs|].id == now
    ensures ValidQuestions(AddQuestion(qs, now)) == ValidQuestions(qs)
  {
    ValidQuestionsConcat(qs, [BlankQuestion(now)]);
    assert Trim("") == "";
    assert [BlankQuestion(now)][1..] == [];
  }

  datatype Refusal = TooFewToRemove | TooFewToStart

  datatype Outcome<T> = Ok(value: T) | Refused(reason: Refusal)

  /** `removeManualQuestion`: refused while nine or fewer questions are left;
      otherwise position `k` is filtered out (no position matches an index
      outside the list). */
  function RemoveQuestion(qs: seq<Question>, k: int): (r: Outcome<seq<Question>>)
    ensures r.Refused? <==> |qs| <= MinQuestions
    ensures r.Refused? ==> r.reason == TooFewToRemove
    ensures r.Ok? ==> |r.value| >= MinQuestions &&
                      (if 0 <= k < |qs| then |r.value| == |qs| - 1 else r.value == qs)
  {
    if |qs| <= MinQuestions then Refused(TooFewToRemove)
    else if 0 <= k < |qs| then Ok(RemoveAt(qs, k))
    else Ok(qs)
  }

  lemma RemoveQuestionSpec(qs: seq<Question>, k: int)
    ensures |qs| <= MinQuestions <==> RemoveQuestion(qs, k).Refused?
    ensures var r := RemoveQuestion(qs, k);
            |qs| > MinQuestions && 0 <= k < |qs| ==>
              |r.value| == |qs| - 1 && |r.value| >= MinQuestions &&
              (forall i :: 0 <= i < k ==> r.value[i] == qs[i]) &&
              (forall i :: k <= i < |qs| - 1 ==> r.value[i] == qs[i + 1])
  {
    if |qs| > MinQuestions && 0 <= k < |qs| {
      RemoveAtSpec(qs, k);
    }
  }

  /** The characters `String.prototype.trim` strips: the ECMAScript
      WhiteSpace and LineTerminator code points. */
  predicate IsJsWhitespace(c: char)
  {
    c == '\t' || c == '\n' || c == '\U{000B}' || c == '\U{000C}' || c == '\r' || c == ' ' ||
    c == '\U{00A0}' || c == '\U{1680}' || ('\U{2000}' <= c <= '\U{200A}') ||
    c == '\U{2028}' || c == '\U{2029}' || c == '\U{202F}' || c == '\U{205F}' ||
    c == '\U{3000}' || c == '\U{FEFF}'
  }

  predicate AllWhitespace(s: string)
  {
    forall i :: 0 <= i < |s| ==> IsJsWhitespace(s[i])
  }

  /** Leading whitespace stripped: a suffix of `s` that does not start with whitespace. */
  function TrimStart(s: string): (r: string)
    ensures |r| <= |s| && r == s[|s| - |r|..]
    ensures r != "" ==> !IsJsWhitespace(r[0])
  {
    if |s| > 0 && IsJsWhitespace(s[0]) then TrimStart(s[1..]) else s
  }

  /** Trailing whitespace stripped: a prefix of `s` that does not end with whitespace. */
  function TrimEnd(s: string): (r: string)
    ensures |r| <= |s| && r == s[..|r|]
    ensures r != "" ==> !IsJsWhitespace(r[|r| - 1])
  {
    if |s| > 0 && IsJsWhitespace(s[|s| - 1]) then TrimEnd(s[..|s| - 1]) else s
  }

  /** `trim()`. */
  function Trim(s: string): (r: string)
    ensures |r| <= |s|
    ensures r != "" ==> !IsJsWhitespace(r[0]) && !IsJsWhitespace(r[|r| - 1])
  {
    TrimStart(TrimEnd(s))
  }

  lemma {:induction false} TrimStartBlank(s: string)
    ensures TrimStart(s) == "" <==> AllWhitespace(s)
  {
    if |s| > 0 && IsJsWhitespace(s[0]) {
      TrimStartBlank(s[1..]);
      if AllWhitespace(s[1..]) {
        forall i | 0 <= i < |s| ensures IsJsWhitespace(s[i]) {
          if i > 0 { assert s[i] == s[1..][i - 1]; }
        }
      }
    }
  }

  lemma {:induction false} TrimEndBlank(s: string)
    ensures TrimEnd(s) == "" <==> AllWhitespace(s)
    ensures TrimEnd(s) != "" ==> !IsJsWhitespace(TrimEnd(s)[|TrimEnd(s)| - 1])
    decreases |s|
  {
    if |s| > 0 && IsJsWhitespace(s[|s| - 1]) {
      var t := s[..|s| - 1];
      TrimEndBlank(t);
      if AllWhitespace(t) {
        forall i | 0 <= i < |s| ensures IsJsWhitespace(s[i]) {
          if i < |s| - 1 { assert s[i] == t[i]; }
        }
      }
    }
  }

  /** A text trims to the empty string iff every character is whitespace. */
  lemma {:induction false} TrimEmptyIffBlank(s: string)
    ensures Trim(s) == "" <==> AllWhitespace(s)
  {
    TrimEndBlank(s);
    TrimStartBlank(TrimEnd(s));
  }

  /** The filter of `handleStart`: the question has a non-whitespace character. */
  predicate HasContent(q: Question)
  {
    Trim(q.content) != ""
  }

  /** The questions kept for the match. */
  function ValidQuestions(qs: seq<Question>): (r: seq<Question>)
    ensures |r| <= |qs|
    ensures forall q :: q in r <==> q in qs && HasContent(q)
  {
    if |qs| == 0 then []
    else (if HasContent(qs[0]) then [qs[0]] else []) + ValidQuestions(qs[1..])
  }

  /** The filter keeps the original order: it distributes over concatenation. */
  lemma {:induction false} ValidQuestionsConcat(a: seq<Question>, b: seq<Question>)
    ensures ValidQuestions(a + b) == ValidQuestions(a) + ValidQuestions(b)
    decreases |a|
  {
    if |a| > 0 {
      var head := if HasContent(a[0]) then [a[0]] else [];
      assert (a + b)[0] == a[0];
      assert (a + b)[1..] == a[1..] + b;
      assert ValidQuestions(a + b) == head + ValidQuestions(a[1..] + b);
      assert ValidQuestions(a) == head + ValidQuestions(a[1..]);
      ValidQuestionsConcat(a[1..], b);
      assert head + (ValidQuestions(a[1..]) + ValidQuestions(b)) == (head + ValidQuestions(a[1..])) + ValidQuestions(b);
    } else {
      assert a + b == b;
    }
  }

  /** A list whose every question has content passes unchanged. */
  lemma {:induction false} ValidQuestionsKeepsFilled(qs: seq<Question>)
    requires forall i :: 0 <= i < |qs| ==> HasContent(qs[i])
    ensures ValidQuestions(qs) == qs
    decreases |qs|
  {
    if |qs| > 0 {
      ValidQuestionsKeepsFilled(qs[1..]);
    }
  }

  /** The nine blank questions the screen starts with give no question to
      play with, so starting right away is refused. */
  lemma {:induction false} InitialListCannotStart(names: seq<string>, count: nat)
    ensures ValidQuestions(InitialQuestions()) == []
    ensures CheckStart(names, count, InitialQuestions()) == Refused(TooFewToStart)
  {
    var qs := InitialQuestions();
    assert Trim("") == "";
    forall i | 0 <= i < |qs| ensures !HasContent(qs[i]) {
      assert qs[i].content == "";
    }
    ValidQuestionsDropsBlank(qs);
  }

  /** A list with no question holding content gives nothing to play with. */
  lemma {:induction false} ValidQuestionsDropsBlank(qs: seq<Question>)
    requires forall i :: 0 <= i < |qs| ==> !HasContent(qs[i])
    ensures ValidQuestions(qs) == []
    decreases |qs|
  {
    if |qs| > 0 {
      ValidQuestionsDropsBlank(qs[1..]);
    }
  }

  /** The first `count` team names (all of them if there are fewer), each
      made a team whose id is its position. */
  function BuildTeams(names: seq<string>, count: nat): (teams: seq<Team>)
    ensures |teams| == if count <= |names| then count else |names|
  {
    var n := if count <= |names| then count else |names|;
    seq(n, i requires 0 <= i < n => Team(i, names[i]))
  }

  /** The teams are the first `count` names with ids 0..count-1 in order, and
      the team owning turn `t` is the one whose id is `t` modulo the count. */
  lemma BuildTeamsSpec(names: seq<string>, count: nat, t: nat)
    requires 1 <= count <= |names|
    ensures forall i :: 0 <= i < count ==> BuildTeams(names, count)[i] == Team(i, names[i])
    ensures TeamOfTurn(BuildTeams(names, count), t) == Some(Team(t % count, names[t % count]))
  {
  }

  datatype Roster = Roster(teams: seq<Team>, questions: seq<Question>)

  /** `handleStart`: the roster handed to the game, or a refusal when fewer
      than nine questions have content. */
  function CheckStart(names: seq<string>, count: nat, qs: seq<Question>): (r: Outcome<Roster>)
    ensures r.Ok? <==> |ValidQuestions(qs)| >= MinQuestions
    ensures r.Ok? ==> r.value == Roster(BuildTeams(names, count), ValidQuestions(qs))
    ensures r.Refused? ==> r.reason == TooFewToStart
  {
    var valid := ValidQuestions(qs);
    if |valid| < MinQuestions then Refused(TooFewToStart)
    else Ok(Roster(BuildTeams(names, count), valid))
  }

  /** Every started match has at least nine questions, each with content and
      each taken from the edited list. */
  lemma StartedMatchHasNineQuestions(names: seq<string>, count: nat, qs: seq<Question>)
    requires CheckStart(names, count, qs).Ok?
    ensures var qs' := CheckStart(names, count, qs).value.questions;
            |qs'| >= MinQuestions && forall q :: q in qs' ==> q in qs && HasContent(q)
  {
  }

  /** A loaded sample whose nine or more questions all have content starts
      a match with exactly those questions, renumbered. */
  lemma {:induction false} SampleCanStart(names: seq<string>, count: nat, theme: Theme)
    requires |theme.questions| >= MinQuestions
    requires forall i :: 0 <= i < |theme.questions| ==> HasContent(theme.questions[i])
    ensures CheckStart(names, count, Renumber(theme.questions))
         == Ok(Roster(BuildTeams(names, count), Renumber(theme.questions)))
  {
    var qs := Renumber(theme.questions);
    assert forall i :: 0 <= i < |qs| ==> qs[i].content == theme.questions[i].content;
    ValidQuestionsKeepsFilled(qs);
  }

  datatype SetupMode = Ai | Manual

  /** The SetupScreen component's state that the rules depend on. */
  class SetupScreen {
    var teamCount: nat
    var teamNames: seq<string>
    var themeName: string
    var setupMode: SetupMode
    var manualQuestions: seq<Question>

    /** The count buttons offer 2 to 5 teams, and the name list always has
        one name per possible team. */
    ghost predicate Valid()
      reads this
    {
      2 <= teamCount <= 5 && |teamNames| == 5
    }

    constructor ()
      ensures Valid()
      ensures teamCount == 2 && themeName == "" && setupMode == Ai
      ensures teamNames == ["Đội Kim Cương", "Đội Vàng Anh", "Đội Đại Bàng", "Đội Cá Mập", "Đội Sư Tử"]
      ensures manualQuestions == InitialQuestions()
    {
      teamCount := 2;
      teamNames := ["Đội Kim Cương", "Đội Vàng Anh", "Đội Đại Bàng", "Đội Cá Mập", "Đội Sư Tử"];
      themeName := "";
      setupMode := Ai;
      manualQuestions := InitialQuestions();
    }

    /** The team-count buttons offer 2 to 5. */
    method SetTeamCount(n: nat)
      requires Valid() && 2 <= n <= 5
      modifies this
      ensures Valid()
      ensures teamCount == n
      ensures teamNames == old(teamNames) && themeName == old(themeName)
      ensures setupMode == old(setupMode) && manualQuestions == old(manualQuestions)
    {
      teamCount := n;
    }

    /** Renaming team `i`: a copy of the name list with name `i` replaced. */
    method RenameTeam(i: nat, name: string)
      requires Valid() && i < 5
      modifies this
      ensures Valid()
      ensures teamNames == old(teamNames)[i := name]
      ensures teamCount == old(teamCount) && themeName == old(themeName)
      ensures setupMode == old(setupMode) && manualQuestions == old(manualQuestions)
    {
      teamNames := teamNames[i := name];
    }

    method LoadSample(themes: seq<Theme>, index: nat)
      requires Valid() && index < |themes|
      modifies this
      ensures Valid()
      ensures themeName == themes[index].name && setupMode == Manual
      ensures manualQuestions == Renumber(themes[index].questions)
      ensures teamCount == old(teamCount) && teamNames == old(teamNames)
    {
      var sample := themes[index];
      themeName := sample.name;
      manualQuestions := Renumber(sample.questions);
      setupMode := Manual;
    }

    method AddManualQuestion(now: int)
      requires Valid()
      modifies this
      ensures Valid()
      ensures manualQuestions == AddQuestion(old(manualQuestions), now)
      ensures teamCount == old(teamCount) && teamNames == old(teamNames)
      ensures themeName == old(themeName) && setupMode == old(setupMode)
    {
      manualQuestions := manualQuestions + [BlankQuestion(now)];
    }

    /** Returns whether the removal was refused (the screen then alerts). */
    method RemoveManualQuestion(index: int) returns (refused: bool)
      requires Valid()
      modifies this
      ensures Valid()
      ensures refused <==> RemoveQuestion(old(manualQuestions), index).Refused?
      ensures manualQuestions == match RemoveQuestion(old(manualQuestions), index)
                                 case Ok(qs) => qs
                                 case Refused(_) => old(manualQuestions)
      ensures teamCount == old(teamCount) && teamNames == old(teamNames)
      ensures themeName == old(themeName) && setupMode == old(setupMode)
    {
      if |manualQuestions| <= MinQuestions {
        return true;
      }
      if 0 <= index < |manualQuestions| {
        manualQuestions := manualQuestions[..index] + manualQuestions[index + 1..];
      }
      return false;
    }

    /** `handleStart`: starts the match on `game` only when at least nine
        questions have content; returns whether it did. */
    method HandleStart(game: Game) returns (started: bool)
      requires Valid()
      modifies game
      ensures var r := CheckStart(teamNames, teamCount, manualQuestions);
              started <==> r.Ok?
      ensures started ==> game.Valid() && fresh(game.board) && |game.questions| >= MinQuestions &&
                          2 <= |game.teams| <= 5 &&
                          game.Snapshot() == App.Start(old(game.Snapshot()),
                                                        BuildTeams(teamNames, teamCount),
                                                        ValidQuestions(manualQuestions))
      ensures !started ==> unchanged(game)
    {
      var finalTeams := BuildTeams(teamNames, teamCount);
      var validQuestions := ValidQuestions(manualQuestions);
      if |validQuestions| < MinQuestions {
        return false;
      }
      game.StartGame(finalTeams, validQuestions);
      return true;
    }
  }
}

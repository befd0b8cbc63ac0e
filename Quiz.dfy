/** The timed quiz of QuizModal.tsx as a state machine over the selected
    option, the answered flag and the seconds left. Time passes in discrete
    ticks; the result the modal schedules for its presentation delay is
    recorded as `scheduled` when it is decided. Whether that result reaches
    the game screen is stated separately: as written, the timeout's report
    is always cleared before it fires (`ReportAsWritten`), and the intended
    behaviour delivers it (`Report`). */
module Quiz {
  import opened Types

  /** Seconds a team has to answer. */
  const TimeLimit: int := 45

  datatype Session = Session(correctIndex: int, selected: Option<int>, answered: bool,
                             timeLeft: int, scheduled: Option<bool>)

  /** The fresh session for a question: nothing selected, not answered, 45 seconds. */
  function Start(correctIndex: int): (s: Session)
    ensures s.selected == None && !s.answered && s.timeLeft == 45 && s.scheduled == None
  {
    Session(correctIndex, None, false, TimeLimit, None)
  }

  /** The states the session can be in. While open it has time left and
      nothing selected; a timed-out session has no selection, no time and
      result false; an answered one keeps the time it was answered at and
      the result of comparing the selection with the correct index. */
  predicate ValidSession(s: Session)
  {
    0 <= s.timeLeft <= TimeLimit &&
    (!s.answered ==> s.timeLeft > 0 && s.selected == None && s.scheduled == None) &&
    (s.answered && s.selected == None ==> s.timeLeft == 0 && s.scheduled == Some(false)) &&
    (s.answered && s.selected.Some? ==> s.timeLeft > 0 && s.scheduled == Some(s.selected.value == s.correctIndex))
  }

  /** One firing of the one-second interval, followed by the timer effect
      running again: an open session loses a second, and locks with result
      false once none is left. An answered session has no interval. */
  function OnTick(s: Session): (s': Session)
    requires ValidSession(s)
    ensures ValidSession(s') && s'.correctIndex == s.correctIndex
    ensures s.answered ==> s' == s
    ensures s'.selected == s.selected
  {
    if s.answered || s.timeLeft <= 0 then s
    else
      var t := s.timeLeft - 1;
      if t <= 0 then s.(timeLeft := t, answered := true, scheduled := Some(false))
      else s.(timeLeft := t)
  }

  /** `handleOptionClick`: the first click locks the session with its option
      and schedules whether it was the correct one; later clicks are ignored. */
  function OnClick(s: Session, idx: nat): (s': Session)
    requires ValidSession(s)
    ensures ValidSession(s') && s'.correctIndex == s.correctIndex && s'.timeLeft == s.timeLeft
    ensures s.answered ==> s' == s
  {
    if s.answered then s
    else s.(selected := Some(idx), answered := true, scheduled := Some(idx == s.correctIndex))
  }

  /** A tick of an open session with more than one second left takes off
      exactly one second and changes nothing else. */
  lemma TickDecrements(s: Session)
    requires ValidSession(s) && !s.answered && s.timeLeft > 1
    ensures OnTick(s) == s.(timeLeft := s.timeLeft - 1)
  {
  }

  /** The tick that takes the last second locks the session with no
      selection and result false. */
  lemma TickTimesOut(s: Session)
    requires ValidSession(s) && !s.answered && s.timeLeft == 1
    ensures OnTick(s).answered && OnTick(s).selected == None && OnTick(s).timeLeft == 0
    ensures OnTick(s).scheduled == Some(false)
  {
  }

  /** A click on an open session selects `idx`, locks it and schedules
      `idx == correctIndex`. */
  lemma ClickAnswers(s: Session, idx: nat)
    requires ValidSession(s) && !s.answered
    ensures OnClick(s, idx).selected == Some(idx) && OnClick(s, idx).answered
    ensures OnClick(s, idx).scheduled == Some(idx == s.correctIndex)
  {
  }

  /** What can happen to an open modal: a second passes or an option is clicked. */
  datatype Event = TickEvent | ClickEvent(option: nat)

  function Step(s: Session, e: Event): (s': Session)
    requires ValidSession(s)
    ensures ValidSession(s')
  {
    match e
    case TickEvent => OnTick(s)
    case ClickEvent(idx) => OnClick(s, idx)
  }

  /** The session after the events `es`, in order. Every reachable session
      is valid; in particular 0 <= timeLeft <= 45 throughout. */
  function Run(s: Session, es: seq<Event>): (s': Session)
    requires ValidSession(s)
    ensures ValidSession(s') && s'.correctIndex == s.correctIndex
    decreases |es|
  {
    if es == [] then s else Run(Step(s, es[0]), es[1..])
  }

  /** First answer wins: once a session is answered, no tick and no click
      changes anything, so the selection and the scheduled result stay and
      `answered` never becomes false again. */
  lemma {:induction false} AnsweredIsFinal(s: Session, es: seq<Event>)
    requires ValidSession(s) && s.answered
    ensures Run(s, es) == s
    decreases |es|
  {
    if es != [] {
      AnsweredIsFinal(Step(s, es[0]), es[1..]);
    }
  }

  /** `answered` is monotone along any run. */
  lemma {:induction false} AnsweredMonotone(s: Session, es: seq<Event>, k: nat)
    requires ValidSession(s) && k <= |es| && Run(s, es[..k]).answered
    ensures Run(s, es).answered
    decreases k
  {
    if k == 0 {
      AnsweredIsFinal(s, es);
    } else {
      assert es[..k][1..] == es[1..][..k - 1];
      AnsweredMonotone(Step(s, es[0]), es[1..], k - 1);
    }
  }

  function Ticks(n: nat): (es: seq<Event>)
    ensures |es| == n && forall k :: 0 <= k < n ==> es[k] == TickEvent
  {
    if n == 0 then [] else [TickEvent] + Ticks(n - 1)
  }

  /** With no click, the session stays open for 44 ticks, counting down one
      second each, and the 45th tick times it out with result false. */
  lemma {:induction false} UnansweredCountdown(ci: int, n: nat)
    requires n <= 45
    ensures var s := Run(Start(ci), Ticks(n));
            (n < 45 ==> !s.answered && s.timeLeft == 45 - n) &&
            (n == 45 ==> s.answered && s.selected == None && s.scheduled == Some(false))
  {
    CountdownFrom(Start(ci), n);
  }

  lemma {:induction false} CountdownFrom(s: Session, n: nat)
    requires ValidSession(s) && !s.answered && n <= s.timeLeft
    ensures var s' := Run(s, Ticks(n));
            (n < s.timeLeft ==> !s'.answered && s'.timeLeft == s.timeLeft - n && s'.selected == None) &&
            (n == s.timeLeft ==> s'.answered && s'.selected == None && s'.scheduled == Some(false))
    decreases n
  {
    if n > 0 {
      var t := OnTick(s);
      assert Ticks(n)[1..] == Ticks(n - 1);
      if s.timeLeft == 1 {
        assert Ticks(n - 1) == [];
      } else {
        CountdownFrom(t, n - 1);
      }
    }
  }

  /** The feedback line shown once the modal is answered. */
  datatype Feedback = TimeUp | Correct | Wrong

  function FeedbackFor(s: Session): Feedback
  {
    if s.timeLeft <= 0 then TimeUp
    else if s.selected == Some(s.correctIndex) then Correct
    else Wrong
  }

  /** "Correct" is shown only for a selection equal to the correct index with
      time left; with no time left the timeout line is shown whatever was
      selected. On every answered session the line agrees with the scheduled
      result, and the timeout line appears exactly when nothing was selected. */
  lemma FeedbackMatchesResult(s: Session)
    ensures FeedbackFor(s) == Correct <==> s.selected == Some(s.correctIndex) && s.timeLeft > 0
    ensures s.timeLeft <= 0 ==> FeedbackFor(s) == TimeUp
    ensures ValidSession(s) && s.answered ==> (FeedbackFor(s) == Correct <==> s.scheduled == Some(true))
    ensures ValidSession(s) && s.answered ==> (FeedbackFor(s) == TimeUp <==> s.selected == None)
  {
  }

  /** The result that reaches `onResult` as the modal is written. A click
      arms its timer in the handler and nothing clears it, so the click's
      result arrives. The timeout arms its timer in the timer effect and, in
      the same run, sets `isAnswered`, one of that effect's dependencies; the
      next render therefore runs the effect's cleanup, which clears the timer
      before it fires, and the re-run effect returns at once. So a timeout
      reports nothing. */
  function ReportAsWritten(s: Session): (r: Option<bool>)
    requires ValidSession(s)
    ensures r.Some? ==> s.answered && s.scheduled == r
    ensures s.answered && s.selected == None ==> r == None
  {
    if s.answered && s.selected.Some? then s.scheduled else None
  }

  /** The tick that times a quiz out changes `isAnswered`, so the effect run
      that armed the timeout's result timer is cleaned up; as written, 45
      ticks without a click lock the quiz with result false and yet report
      nothing, so the game screen never learns that the turn is over. */
  lemma {:induction false} TimeoutReportIsCancelled(ci: int)
    ensures var s := Run(Start(ci), Ticks(44));
            !s.answered && OnTick(s).answered
    ensures var s := Run(Start(ci), Ticks(45));
            s.scheduled == Some(false) && ReportAsWritten(s) == None
  {
    UnansweredCountdown(ci, 44);
    UnansweredCountdown(ci, 45);
    assert Ticks(45) == Ticks(44) + [TickEvent];
    RunSnoc(Start(ci), Ticks(44), TickEvent);
  }

  /** Running one event more is one step after the run. */
  lemma {:induction false} RunSnoc(s: Session, es: seq<Event>, e: Event)
    requires ValidSession(s)
    ensures Run(s, es + [e]) == Step(Run(s, es), e)
    decreases |es|
  {
    if es == [] {
      assert [e][1..] == [];
    } else {
      assert (es + [e])[1..] == es[1..] + [e];
      RunSnoc(Step(s, es[0]), es[1..], e);
    }
  }

  /** The report the modal evidently intends: every answered quiz, by a click
      or by the timeout, delivers its scheduled result. */
  function Report(s: Session): (r: Option<bool>)
    requires ValidSession(s)
    ensures r.Some? <==> s.answered
    ensures r.Some? ==> r == s.scheduled && (r.value <==> s.selected == Some(s.correctIndex))
  {
    if s.answered then s.scheduled else None
  }

  /** With the intended report, 45 ticks without a click deliver false, and
      the delivered result agrees with the feedback line on every answered
      quiz. */
  lemma {:induction false} TimeoutReportsFalse(ci: int, s: Session)
    ensures Report(Run(Start(ci), Ticks(45))) == Some(false)
    ensures ValidSession(s) && s.answered ==> Report(s) == Some(FeedbackFor(s) == Correct)
  {
    UnansweredCountdown(ci, 45);
    FeedbackMatchesResult(s);
  }

  /** The QuizModal component's state for one question. */
  class QuizModal {
    const question: Question
    var selectedIdx: Option<int>
    var isAnswered: bool
    var timeLeft: int
    /** The result the modal schedules for `onResult`. */
    var scheduledResult: Option<bool>

    function State(): Session
      reads this
    {
      Session(question.correctIndex, selectedIdx, isAnswered, timeLeft, scheduledResult)
    }

    ghost predicate Valid()
      reads this
    {
      ValidSession(State())
    }

    constructor (q: Question)
      ensures Valid() && question == q
      ensures State() == Start(q.correctIndex)
    {
      question := q;
      selectedIdx := None;
      isAnswered := false;
      timeLeft := TimeLimit;
      scheduledResult := None;
    }

    /** A second passes. */
    method Tick()
      requires Valid()
      modifies this
      ensures Valid()
      ensures State() == OnTick(old(State()))
      ensures old(isAnswered) ==> isAnswered
    {
      if isAnswered || timeLeft <= 0 {
        return;
      }
      timeLeft := timeLeft - 1;
      if timeLeft <= 0 {
        isAnswered := true;
        scheduledResult := Some(false);
      }
    }

    /** The option `idx` is clicked. */
    method Click(idx: nat)
      requires Valid()
      modifies this
      ensures Valid()
      ensures State() == OnClick(old(State()), idx)
      ensures old(isAnswered) ==> selectedIdx == old(selectedIdx) && scheduledResult == old(scheduledResult)
    {
      if isAnswered {
        return;
      }
      selectedIdx := Some(idx);
      isAnswered := true;
      scheduledResult := Some(idx == question.correctIndex);
    }

    /** The feedback line for the current state. */
    function FeedbackLine(): (f: Feedback)
      reads this
      requires Valid() && isAnswered
      ensures f == Correct <==> scheduledResult == Some(true)
      ensures f == TimeUp <==> selectedIdx == None
    {
      FeedbackMatchesResult(State());
      FeedbackFor(State())
    }
  }
}

/**
 * The widget's session: the expanded Q&A entry, the recorded quiz answers
 * and whether results have been revealed. `Step` is the state each user
 * gesture leads to; `Session` is the mutable object the handlers update.
 */
module Session {
  import opened Wrappers
  import Disclosure
  import AnswerTracker
  import Scoring

  /** The three pieces of session state, as a value. */
  datatype Snapshot = Snapshot(openQuestion: Option<nat>, quizAnswers: map<nat, bool>, showResults: bool)

  /** The user gestures the rendering surface turns into handler calls. */
  datatype Event = ToggleItem(index: nat) | SelectAnswer(index: nat, answer: bool) | RevealResults

  /** The state on mount: nothing expanded, nothing answered, results hidden. */
  const Initial: Snapshot := Snapshot(None, map[], false)

  /** Handlers are only called with indices of existing Q&A entries and quiz questions. */
  predicate ValidEvent(e: Event)
  {
    match e
    case ToggleItem(i) => i < Disclosure.QaItemCount
    case SelectAnswer(i, _) => i < |Scoring.QuizKey|
    case RevealResults => true
  }

  predicate ValidTrace(t: seq<Event>)
  {
    forall k :: 0 <= k < |t| ==> ValidEvent(t[k])
  }

  /** Every index the state mentions refers to an existing entry or question. */
  predicate Wellformed(s: Snapshot)
  {
    (s.openQuestion.Some? ==> s.openQuestion.value < Disclosure.QaItemCount) &&
    (forall i :: i in s.quizAnswers ==> i < |Scoring.QuizKey|)
  }

  /** The state after one handler call; each event touches only its own field. */
  function Step(s: Snapshot, e: Event): (r: Snapshot)
    requires ValidEvent(e)
    ensures !e.ToggleItem? ==> r.openQuestion == s.openQuestion
    ensures !e.SelectAnswer? ==> r.quizAnswers == s.quizAnswers
    ensures r.showResults == (s.showResults || e.RevealResults?)
    ensures s.quizAnswers.Keys <= r.quizAnswers.Keys
  {
    match e
    case ToggleItem(i) => s.(openQuestion := Disclosure.Toggle(s.openQuestion, i))
    case SelectAnswer(i, b) => s.(quizAnswers := AnswerTracker.Record(s.quizAnswers, i, b))
    case RevealResults => s.(showResults := true)
  }

  /** The state after a sequence of gestures, processed one at a time. */
  function Run(s: Snapshot, t: seq<Event>): (r: Snapshot)
    requires ValidTrace(t)
    decreases |t|
  {
    if t == [] then s else Run(Step(s, t[0]), t[1..])
  }

  /** One step keeps every index in range. */
  lemma StepWellformed(s: Snapshot, e: Event)
    requires Wellformed(s) && ValidEvent(e)
    ensures Wellformed(Step(s, e))
  {
    if e.ToggleItem? {
      Disclosure.ToggleInRange(s.openQuestion, e.index);
    }
  }

  /** Any sequence of gestures keeps every index in range. */
  lemma {:induction false} RunWellformed(s: Snapshot, t: seq<Event>)
    requires Wellformed(s) && ValidTrace(t)
    ensures Wellformed(Run(s, t))
    decreases |t|
  {
    if t != [] {
      StepWellformed(s, t[0]);
      RunWellformed(Step(s, t[0]), t[1..]);
    }
  }

  /**
   * Results are shown after a sequence of gestures exactly when they were
   * shown before or the sequence contains a reveal: reveal is one-way.
   */
  lemma {:induction false} RevealSticky(s: Snapshot, t: seq<Event>)
    requires ValidTrace(t)
    ensures Run(s, t).showResults == (s.showResults || RevealResults in t)
    decreases |t|
  {
    if t != [] {
      RevealSticky(Step(s, t[0]), t[1..]);
      assert t == [t[0]] + t[1..];
    }
  }

  /** No gesture removes a recorded answer: the answered questions only grow. */
  lemma {:induction false} AnswersNeverRemoved(s: Snapshot, t: seq<Event>)
    requires ValidTrace(t)
    ensures s.quizAnswers.Keys <= Run(s, t).quizAnswers.Keys
    decreases |t|
  {
    if t != [] {
      AnswersNeverRemoved(Step(s, t[0]), t[1..]);
    }
  }

  /** Gestures that never select an answer for question `i` leave its answer alone. */
  lemma {:induction false} UntouchedAnswerKept(s: Snapshot, t: seq<Event>, i: nat)
    requires ValidTrace(t) && i in s.quizAnswers
    requires forall k :: 0 <= k < |t| ==> !(t[k].SelectAnswer? && t[k].index == i)
    ensures i in Run(s, t).quizAnswers && Run(s, t).quizAnswers[i] == s.quizAnswers[i]
    decreases |t|
  {
    if t != [] {
      assert !(t[0].SelectAnswer? && t[0].index == i);
      UntouchedAnswerKept(Step(s, t[0]), t[1..], i);
    }
  }

  /** The last answer selected for a question is the one recorded, whatever happens after. */
  lemma LastSelectionWins(s: Snapshot, i: nat, b: bool, rest: seq<Event>)
    requires i < |Scoring.QuizKey| && ValidTrace(rest)
    requires forall k :: 0 <= k < |rest| ==> !(rest[k].SelectAnswer? && rest[k].index == i)
    ensures ValidTrace([SelectAnswer(i, b)] + rest)
    ensures var r := Run(s, [SelectAnswer(i, b)] + rest).quizAnswers; i in r && r[i] == b
  {
    var t := [SelectAnswer(i, b)] + rest;
    assert t[0] == SelectAnswer(i, b) && t[1..] == rest;
    UntouchedAnswerKept(Step(s, SelectAnswer(i, b)), rest, i);
  }

  /** The worked example as gestures: the fixture answers, then reveal, score 60. */
  lemma FixtureRun()
    ensures var t := [SelectAnswer(0, true), SelectAnswer(1, true), SelectAnswer(2, true),
                      SelectAnswer(3, false), SelectAnswer(4, false), RevealResults];
      ValidTrace(t) && Run(Initial, t).showResults &&
      Scoring.Score(Scoring.QuizKey, Run(Initial, t).quizAnswers) == 60.0
  {
    var t := [SelectAnswer(0, true), SelectAnswer(1, true), SelectAnswer(2, true),
              SelectAnswer(3, false), SelectAnswer(4, false), RevealResults];
    var answers := map[0 := true, 1 := true, 2 := true, 3 := false, 4 := false];
    assert Run(Initial, t).quizAnswers == answers;
    Scoring.FixtureExample();
  }

  /** The live session object whose fields the handlers set. */
  class Session {
    var openQuestion: Option<nat>
    var quizAnswers: map<nat, bool>
    var showResults: bool

    /** The fields as a value. */
    function State(): (r: Snapshot)
      reads this
    {
      Snapshot(openQuestion, quizAnswers, showResults)
    }

    ghost predicate Valid()
      reads this
    {
      Wellformed(State())
    }

    /** Mounting the widget. */
    constructor ()
      ensures Valid() && State() == Initial
    {
      openQuestion := None;
      quizAnswers := map[];
      showResults := false;
    }

    /** Expand entry `index`, or collapse it if it is the one already expanded. */
    method ToggleQuestion(index: nat)
      requires Valid() && index < Disclosure.QaItemCount
      modifies this`openQuestion
      ensures Valid() && State() == Step(old(State()), ToggleItem(index))
      ensures openQuestion == (if old(openQuestion) == Some(index) then None else Some(index))
    {
      Disclosure.ToggleInRange(openQuestion, index);
      openQuestion := if openQuestion == Some(index) then None else Some(index);
    }

    /** Record `answer` for quiz question `index`, replacing any earlier choice. */
    method HandleQuizAnswer(index: nat, answer: bool)
      requires Valid() && index < |Scoring.QuizKey|
      modifies this`quizAnswers
      ensures Valid() && State() == Step(old(State()), SelectAnswer(index, answer))
      ensures quizAnswers == old(quizAnswers)[index := answer]
    {
      quizAnswers := quizAnswers[index := answer];
    }

    /** The "Check Results" button: reveal the score. */
    method RevealResults()
      requires Valid()
      modifies this`showResults
      ensures Valid() && State() == Step(old(State()), Event.RevealResults)
      ensures showResults
    {
      showResults := true;
    }

    /** Count the correctly answered questions and give the percentage of all questions. */
    method CalculateScore() returns (score: real)
      ensures score == Scoring.Score(Scoring.QuizKey, quizAnswers)
      ensures 0.0 <= score <= 100.0
    {
      var correct := 0;
      var i := 0;
      while i < |Scoring.QuizKey|
        invariant i <= |Scoring.QuizKey|
        invariant correct == Scoring.CorrectUpTo(Scoring.QuizKey, quizAnswers, i)
      {
        if i in quizAnswers && quizAnswers[i] == Scoring.QuizKey[i] {
          correct := correct + 1;
        }
        i := i + 1;
      }
      score := (correct as real / |Scoring.QuizKey| as real) * 100.0;
    }

    /** The score the results panel shows: present only once results are revealed. */
    method ShownScore() returns (shown: Option<real>)
      ensures shown.Some? <==> showResults
      ensures shown.Some? ==> shown.value == Scoring.Score(Scoring.QuizKey, quizAnswers)
    {
      if showResults {
        var score := CalculateScore();
        shown := Some(score);
      } else {
        shown := None;
      }
    }
  }

  /** The worked example driven through the session object's handlers. */
  method FixtureSession() returns (score: real)
    ensures score == 60.0
  {
    var s := new Session();
    s.HandleQuizAnswer(0, true);
    s.HandleQuizAnswer(1, true);
    s.HandleQuizAnswer(2, true);
    s.HandleQuizAnswer(3, false);
    s.HandleQuizAnswer(4, false);
    s.RevealResults();
    assert s.quizAnswers == map[0 := true, 1 := true, 2 := true, 3 := false, 4 := false];
    Scoring.FixtureExample();
    var shown := s.ShownScore();
    score := shown.value;
  }
}

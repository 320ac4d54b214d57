/**
 * The score evaluator: how many quiz questions carry a recorded answer equal
 * to the answer key, and the percentage of the full question count that is.
 */
module Scoring {
  import AnswerTracker

  /** The correct answers of the five quiz questions, in order. */
  const QuizKey: seq<bool> := [true, false, true, false, true]

  /**
   * Question `i` is answered correctly: an answer is recorded and strictly
   * equals the key. A missing answer is never equal to a boolean.
   */
  predicate IsCorrect(key: seq<bool>, answers: map<nat, bool>, i: nat)
    requires i < |key|
  {
    i in answers && answers[i] == key[i]
  }

  /** Number of correctly answered questions among the first `k`. */
  function CorrectUpTo(key: seq<bool>, answers: map<nat, bool>, k: nat): (c: nat)
    requires k <= |key|
    ensures c <= k
    ensures k > 0 && !IsCorrect(key, answers, k - 1) ==> c < k
  {
    if k == 0 then 0
    else CorrectUpTo(key, answers, k - 1) + (if IsCorrect(key, answers, k - 1) then 1 else 0)
  }

  /** Number of correctly answered questions of the whole quiz. */
  function CorrectCount(key: seq<bool>, answers: map<nat, bool>): (c: nat)
    ensures c <= |key|
  {
    CorrectUpTo(key, answers, |key|)
  }

  /** The percentage score, exactly: the correct count over ALL questions, times 100. */
  function Score(key: seq<bool>, answers: map<nat, bool>): (r: real)
    requires |key| > 0
    ensures 0.0 <= r <= 100.0
  {
    (CorrectCount(key, answers) as real / |key| as real) * 100.0
  }

  /** Independent reference definition: the set of correctly answered indices. */
  function CorrectSet(key: seq<bool>, answers: map<nat, bool>, k: nat): (s: set<nat>)
    requires k <= |key|
  {
    set i: nat | i < k && IsCorrect(key, answers, i)
  }

  /** The set of questions that have any recorded answer. */
  function AnsweredSet(key: seq<bool>, answers: map<nat, bool>): (s: set<nat>)
  {
    set i: nat | i < |key| && i in answers
  }

  /** The counted value is the size of the set of correctly answered questions. */
  lemma {:induction false} CorrectUpToIsCardinality(key: seq<bool>, answers: map<nat, bool>, k: nat)
    requires k <= |key|
    ensures CorrectUpTo(key, answers, k) == |CorrectSet(key, answers, k)|
  {
    if k == 0 {
      assert CorrectSet(key, answers, 0) == {};
    } else {
      CorrectUpToIsCardinality(key, answers, k - 1);
      var prev := CorrectSet(key, answers, k - 1);
      if IsCorrect(key, answers, k - 1) {
        assert CorrectSet(key, answers, k) == prev + {k - 1};
        assert k - 1 !in prev;
      } else {
        assert CorrectSet(key, answers, k) == prev;
      }
    }
  }

  /**
   * Unanswered questions count as wrong: the correct count never exceeds
   * the number of questions answered, while the score always divides by
   * the full question count.
   */
  lemma CorrectAtMostAnswered(key: seq<bool>, answers: map<nat, bool>)
    requires |key| > 0
    ensures CorrectCount(key, answers) <= |AnsweredSet(key, answers)|
    ensures Score(key, answers) <= 100.0 * |AnsweredSet(key, answers)| as real / |key| as real
  {
    CorrectUpToIsCardinality(key, answers, |key|);
    var hits := CorrectSet(key, answers, |key|);
    var answered := AnsweredSet(key, answers);
    assert hits <= answered;
    SubsetCardinality(hits, answered);
    var c := CorrectCount(key, answers) as real;
    var n := |key| as real;
    assert c <= |answered| as real;
    assert (c / n) * 100.0 == 100.0 * c / n;
  }

  lemma {:induction false} SubsetCardinality(a: set<nat>, b: set<nat>)
    requires a <= b
    ensures |a| <= |b|
    decreases b
  {
    if a != {} {
      var x :| x in a;
      SubsetCardinality(a - {x}, b - {x});
    }
  }

  /** With nothing answered, the first `k` questions have no correct answer. */
  lemma {:induction false} NoAnswersUpTo(key: seq<bool>, k: nat)
    requires k <= |key|
    ensures CorrectUpTo(key, map[], k) == 0
  {
    if k > 0 {
      NoAnswersUpTo(key, k - 1);
    }
  }

  /** Revealing with no answers recorded scores zero. */
  lemma NoAnswersScoreZero(key: seq<bool>)
    requires |key| > 0
    ensures CorrectCount(key, map[]) == 0
    ensures Score(key, map[]) == 0.0
  {
    NoAnswersUpTo(key, |key|);
  }

  /** All of the first `k` are counted exactly when each of them is answered correctly. */
  lemma {:induction false} AllCorrectUpTo(key: seq<bool>, answers: map<nat, bool>, k: nat)
    requires k <= |key|
    ensures CorrectUpTo(key, answers, k) == k <==> forall i: nat :: i < k ==> IsCorrect(key, answers, i)
  {
    if k > 0 {
      AllCorrectUpTo(key, answers, k - 1);
    }
  }

  /** The score is 100 exactly when every question is answered, and answered correctly. */
  lemma PerfectScoreIff(key: seq<bool>, answers: map<nat, bool>)
    requires |key| > 0
    ensures Score(key, answers) == 100.0 <==> forall i: nat :: i < |key| ==> IsCorrect(key, answers, i)
  {
    AllCorrectUpTo(key, answers, |key|);
    PercentIsHundredIff(CorrectCount(key, answers) as real, |key| as real);
  }

  lemma PercentIsHundredIff(c: real, n: real)
    requires n > 0.0
    ensures (c / n) * 100.0 == 100.0 <==> c == n
  {
    var q := c / n;
    assert q * n == c;
    if q == 1.0 {
      assert c == 1.0 * n;
    }
    if c == n {
      assert (q - 1.0) * n == 0.0;
    }
  }

  /**
   * Effect of one recorded answer on the count of the first `k` questions:
   * only question `index` can change its contribution.
   */
  lemma {:induction false} RecordEffectUpTo(key: seq<bool>, answers: map<nat, bool>, index: nat, answer: bool, k: nat)
    requires k <= |key| && index < |key|
    ensures var after := AnswerTracker.Record(answers, index, answer);
      CorrectUpTo(key, after, k) ==
        CorrectUpTo(key, answers, k)
        - (if index < k && IsCorrect(key, answers, index) then 1 else 0)
        + (if index < k && answer == key[index] then 1 else 0)
  {
    if k > 0 {
      RecordEffectUpTo(key, answers, index, answer, k - 1);
    }
  }

  /**
   * Recording an answer changes the correct count by at most one: it drops
   * the old answer's contribution and adds the new one's.
   */
  lemma RecordEffect(key: seq<bool>, answers: map<nat, bool>, index: nat, answer: bool)
    requires index < |key|
    ensures var after := AnswerTracker.Record(answers, index, answer);
      CorrectCount(key, after) ==
        CorrectCount(key, answers)
        - (if IsCorrect(key, answers, index) then 1 else 0)
        + (if answer == key[index] then 1 else 0)
  {
    RecordEffectUpTo(key, answers, index, answer, |key|);
  }

  /** The worked example: key T,F,T,F,T answered T,T,T,F,F gives 3 correct and 60%. */
  lemma FixtureExample()
    ensures var answers := map[0 := true, 1 := true, 2 := true, 3 := false, 4 := false];
      CorrectCount(QuizKey, answers) == 3 && Score(QuizKey, answers) == 60.0
  {
    var answers := map[0 := true, 1 := true, 2 := true, 3 := false, 4 := false];
    assert IsCorrect(QuizKey, answers, 0) && !IsCorrect(QuizKey, answers, 1);
    assert IsCorrect(QuizKey, answers, 2) && IsCorrect(QuizKey, answers, 3);
    assert !IsCorrect(QuizKey, answers, 4);
    assert CorrectUpTo(QuizKey, answers, 2) == 1;
    assert CorrectUpTo(QuizKey, answers, 4) == 3;
    assert CorrectCount(QuizKey, answers) == 3;
  }
}

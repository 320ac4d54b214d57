/**
 * The quiz answer tracker: a partial map from question index to the chosen
 * boolean, written key by key with last-write-wins and never shrunk.
 */
module AnswerTracker {

  /** The map `handleQuizAnswer(index, answer)` leaves: a copy with one key (re)written. */
  function Record(answers: map<nat, bool>, index: nat, answer: bool): (r: map<nat, bool>)
    ensures index in r && r[index] == answer
    ensures r.Keys == answers.Keys + {index}
    ensures forall j :: j in answers && j != index ==> r[j] == answers[j]
  {
    answers[index := answer]
  }

  /** A later choice for the same question replaces the earlier one entirely. */
  lemma LastWriteWins(answers: map<nat, bool>, index: nat, first: bool, second: bool)
    ensures Record(Record(answers, index, first), index, second) == Record(answers, index, second)
  {
  }

  /** Answers to different questions do not interfere: the writes commute. */
  lemma IndependentQuestions(answers: map<nat, bool>, i: nat, a: bool, j: nat, b: bool)
    requires i != j
    ensures Record(Record(answers, i, a), j, b) == Record(Record(answers, j, b), i, a)
  {
  }

  /** Re-selecting the answer already recorded changes nothing. */
  lemma RecordSameIsNoOp(answers: map<nat, bool>, index: nat)
    requires index in answers
    ensures Record(answers, index, answers[index]) == answers
  {
  }
}

# Session state of the calling-conventions learning widget

This project models the interaction state of the single-page learning widget in
`src/App.tsx`. The widget shows an expandable Q&A list about calling conventions and a
five-question true/false quiz with a score. Its behaviour lies in three pieces of session
state and the handlers that set them:

- **Exclusive accordion** (`openQuestion`): `toggleQuestion(index)` collapses the entry
  if it is the one already expanded. Otherwise it expands that entry, which closes any
  other. A single nullable index means at most one entry is ever expanded.
- **Quiz answer tracker** (`quizAnswers`): `handleQuizAnswer(index, answer)` writes one
  key of a partial map. The last write wins, other keys are untouched and no key is removed.
- **Score evaluator** (`calculateScore`, `showResults`): the score counts the questions
  whose recorded answer strictly equals the answer key. It divides that count by the full
  number of questions, so an unanswered question counts as wrong. "Check Results" only ever
  sets `showResults` to true.

Modules:

- `Wrappers`: the `Option` type that models the source's `number | null`.
- `Disclosure`: the toggle, as a pure function, with its lemmas.
- `AnswerTracker`: the one-key map write, with its lemmas.
- `Scoring`: the answer key `[true, false, true, false, true]`, the recursive correct
  count and the exact percentage over reals. Two reference definitions, `CorrectSet` (the
  questions answered correctly) and `AnsweredSet` (the questions with any answer), are sets
  given by comprehension. The lemmas relate the count to their cardinalities.
- `Session`: a `Snapshot` value, the gesture `Event`s and the transition function `Step`.
  `Run` folds `Step` over a sequence of gestures. The `Session` class holds the three
  fields, and each handler is proved to produce `Step` of the old state. Each handler's
  `modifies` names only its own field.

Toggling the same entry twice restores the previous state only when nothing, or that same
entry, was expanded. If another entry `j` was expanded, the first toggle closes `j` and
expands the entry, and the second toggle leaves nothing expanded. `Disclosure.ToggleTwice`
states both directions of this condition.

## Model

| member | source | states |
|---|---|---|
| `Disclosure.Toggle` | src/App.tsx:117-119 | if the entry was expanded, the result has nothing expanded; otherwise exactly that entry is expanded |
| `Disclosure.ToggleTwice` | src/App.tsx:118 | two toggles of one entry restore the state if and only if nothing else was expanded before; if another entry was open, nothing is expanded afterwards |
| `Disclosure.AtMostOneExpanded` | src/App.tsx:234 | no two distinct entries are expanded at the same time |
| `Disclosure.ToggleExpandsOnlyTarget` | src/App.tsx:118 | after a toggle no other entry is expanded, and the toggled entry is expanded exactly when it was not before |
| `Disclosure.ToggleInRange` | src/App.tsx:118 | toggling an existing entry keeps the expanded index inside the Q&A list |
| `AnswerTracker.Record` | src/App.tsx:121-123 | the written question holds the new answer, the key set gains only that index, and every other recorded answer is unchanged |
| `AnswerTracker.LastWriteWins` | src/App.tsx:122 | two writes to the same question equal the second write alone |
| `AnswerTracker.IndependentQuestions` | src/App.tsx:122 | writes to different questions commute |
| `AnswerTracker.RecordSameIsNoOp` | src/App.tsx:122 | re-selecting the answer already recorded leaves the answers unchanged |
| `Scoring.CorrectUpTo` | src/App.tsx:126-129 | the count over the first k questions is at most k, and below k when question k-1 is wrong or unanswered |
| `Scoring.CorrectCount` | src/App.tsx:125-129 | the number of correct answers is at most the number of questions |
| `Scoring.Score` | src/App.tsx:130 | the percentage (count / all questions) * 100 lies in [0, 100] |
| `Scoring.CorrectUpToIsCardinality` | src/App.tsx:126-129 | the loop's counter equals the size of the set of correctly answered questions |
| `Scoring.CorrectAtMostAnswered` | src/App.tsx:128-130 | the correct count is at most the number of questions answered, and the score is at most 100 * answered / all questions: the denominator is never the answered count |
| `Scoring.NoAnswersUpTo` | src/App.tsx:128 | with nothing answered, no question among the first k is counted |
| `Scoring.NoAnswersScoreZero` | src/App.tsx:125-130 | with nothing answered, the count is 0 and the score is 0 |
| `Scoring.AllCorrectUpTo` | src/App.tsx:126-129 | all of the first k questions are counted if and only if each of them is answered correctly |
| `Scoring.PerfectScoreIff` | src/App.tsx:125-130 | the score is 100 if and only if every question is answered and answered correctly |
| `Scoring.RecordEffectUpTo` | src/App.tsx:122-129 | one recorded answer changes the count over the first k questions only through question `index` |
| `Scoring.RecordEffect` | src/App.tsx:122-129 | recording an answer removes the old answer's contribution to the count and adds the new one's |
| `Scoring.FixtureExample` | src/App.tsx:94-115 | with the answer key T,F,T,F,T and answers T,T,T,F,F, the count is 3 and the score is 60 |
| `Session.Step` | src/App.tsx:118-122 | each gesture changes only its own field; results are shown afterwards exactly when they were before or the gesture is a reveal; no recorded answer disappears |
| `Session.StepWellformed` | src/App.tsx:19-21 | one gesture keeps every index in the state within its list |
| `Session.RunWellformed` | src/App.tsx:19-21 | any sequence of gestures keeps every index in the state within its list |
| `Session.RevealSticky` | src/App.tsx:347 | after a sequence of gestures, results are shown exactly when they were shown before or the sequence contains a reveal |
| `Session.AnswersNeverRemoved` | src/App.tsx:121-123 | the set of answered questions only grows |
| `Session.UntouchedAnswerKept` | src/App.tsx:122 | gestures that never select an answer for question i keep its recorded answer |
| `Session.LastSelectionWins` | src/App.tsx:121-123 | the last answer selected for a question stays recorded, whatever other gestures follow |
| `Session.FixtureRun` | src/App.tsx:94-131 | selecting T,T,T,F,F from the initial state and then revealing shows results with score 60 |
| `Session.Session.constructor` | src/App.tsx:19-21 | on mount nothing is expanded, nothing is answered and results are hidden |
| `Session.Session.ToggleQuestion` | src/App.tsx:117-119 | sets `openQuestion` to the toggle of its old value, changes no other field and keeps the state well-formed |
| `Session.Session.HandleQuizAnswer` | src/App.tsx:121-123 | writes one key of `quizAnswers`, changes no other field and keeps the state well-formed |
| `Session.Session.RevealResults` | src/App.tsx:347 | sets `showResults` to true and changes no other field |
| `Session.Session.CalculateScore` | src/App.tsx:125-131 | the loop's result is the exact percentage of correctly answered questions out of all questions, in [0, 100] |
| `Session.Session.ShownScore` | src/App.tsx:352-367 | a score is shown if and only if results were revealed, and it is the current score |
| `Session.FixtureSession` | src/App.tsx:94-131 | driving the session object with the answers T,T,T,F,F and a reveal shows the score 60 |

## Left out

- Rendering is not modelled: JSX, framer-motion animations, icons, CSS classes, image
  URLs, and the text and assembly listings of the Q&A entries (src/App.tsx:23-92, 133-377).
  The one exception is the condition under which the score is displayed
  (src/App.tsx:352-367), modelled by `Session.Session.ShownScore`.
  Only the number of Q&A entries, 8, is kept, so that toggle indices can be bounded.
- The quiz statement texts are not modelled. Only their answer key is kept.
- Session.Session.CalculateScore: states the percentage exactly over reals, while the
  source uses floating-point division. With the five-question key the difference never
  shows: for 0 to 5 correct answers the double result is exactly 0, 20, 40, 60, 80 or 100,
  the same as the real one. Rounding would matter only for a key of another length.
- Scoring.Score: requires at least one question. The source's key always has five; with
  an empty key the source would divide zero by zero and yield NaN.
- React's asynchronous, batched setters are not modelled, nor is the stale-closure read of
  `openQuestion` in `toggleQuestion`. Each handler is an atomic, immediate update, and
  gestures are processed one at a time.
- Out-of-range indices are a precondition of the handlers. The source does not guard
  them, and its only callers pass indices of existing entries.
- The `null` member of the answer map's value type is not modelled. No handler ever
  writes it, so answers are `map<nat, bool>`.

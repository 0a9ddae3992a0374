# Quiz TGE — a Dafny model of the quiz core

This project models the logic under the Streamlit quiz app `quizLit.py`. The app builds a
multiple-choice quiz from two question banks: a "specific" bank and a "general" bank. It
walks the user through the quiz one question at a time and then rates the score. The model has
five modules:

- `Questions` (`questions.dfy`): the question record and its alternatives labelled `a`–`d`.
- `Selection` (`selection.dfy`): `QuestionManager.prepare_questions`. It takes int(N·0.6)
  questions from the specific bank and tops up from the general bank. If the quiz is still
  short of N, it draws from both banks concatenated. Finally it shuffles. `random.shuffle` is
  the method `Shuffle`, which returns *some* permutation. It moves an arbitrarily chosen
  element at each step, so every permutation can come out, and callers may rely only on its
  postcondition.
- `Scoring` (`scoring.dfy`): `PerformanceEvaluator.evaluate_performance`. It computes the
  percentage and one of three tiers (excellent ≥ 70, good ≥ 50, otherwise needs improvement).
- `QuizSession` (`session.dfy`): the session state as an immutable datatype, and the
  transitions `start_quiz`, `answer_question`, `next_question` and `reset_quiz` as pure
  functions. `Valid` is the invariant these transitions keep. Its main part is
  "`correctAnswers` equals the number of log entries marked correct".
- `Wrappers` (`wrappers.dfy`): `Option` and `Result`.

Points of the code the model keeps as written:

- The code never deduplicates. If the banks share a question, the selection can hold it twice,
  from the first draw or from the fallback. The model therefore promises a multiset bound: no
  question appears more often than in the two banks together.
- The quiz finishes once the index reaches or passes the number of questions (`>=`,
  quizLit.py:239). `next_question` never clears `quiz_finished`.
- `reset_quiz` and `start_quiz` have no guard, and neither do their models.

## Model

| member | source | states |
|---|---|---|
| Questions.Alternatives | quizLit.py:46-53 | the alternatives are keyed by exactly the labels a, b, c, d, and each label maps to its own field: a to alternativa_a, b to alternativa_b, c to alternativa_c, d to alternativa_d |
| Questions.AlternativeText | quizLit.py:46-53 | looking up a label gives a text exactly when the label is one of a–d, and each label gives its own alternative |
| Questions.KeyHasText | quizLit.py:408-410 | the answer key of a well-formed question (key one of a–d) always has an alternative text, so the results screen's lookup of the correct answer succeeds |
| Selection.Take | quizLit.py:111 | Python's `s[:k]` is a prefix of `s` of length min(k, len(s)) |
| Selection.Shuffle | quizLit.py:125 | `random.shuffle` keeps the length and the multiset of elements, so the output is a permutation of the input |
| Selection.SpecificQuota | quizLit.py:108-111 | the specific share is at most the bank size, at most int(N·0.6) and at most N, and equals one of the first two |
| Selection.SpecificPart | quizLit.py:108-111 | the first step takes exactly the specific quota from the specific bank and never holds a question more often than the bank does |
| Selection.GeneralPart | quizLit.py:113-117 | the top-up takes min(len(G), N − taken) questions from the general bank, and nothing it does not hold |
| Selection.FirstDraw | quizLit.py:107-117 | the draw before the fallback test reaches N exactly when the general bank covers N minus the specific quota; it never exceeds N or the two banks' multiset |
| Selection.FirstDrawSplit | quizLit.py:107-120 | when no fallback is needed, the draw is the specific quota plus exactly N − quota general questions, and N ≤ len(S) + len(G) |
| Selection.DrawFromBoth | quizLit.py:120-123 | the fallback returns min(N, len(S) + len(G)) questions, all drawn from the two banks together |
| Selection.PrepareQuestions | quizLit.py:97-126 | returns exactly min(N, len(S) + len(G)) questions, so for N > 0 it is empty iff both banks are empty; the result's multiset is within multiset(S) + multiset(G), and within one bank's multiset when the other is empty; the fallback is taken iff at least one bank is non-empty and len(G) < N − quota (two empty banks return early, before the fallback); when len(G) ≥ N − quota, the result is a permutation of the quota drawn from S plus N − quota drawn from G |
| Scoring.EvaluatePerformance | quizLit.py:133-150 | T = 0 gives (0, needs improvement, "Nenhuma questão respondida"); otherwise percentage·T = 100·C, and the tier is excellent iff 100·C ≥ 70·T, good iff 50·T ≤ 100·C < 70·T, needs improvement iff 100·C < 50·T, each with its tier's message |
| Scoring.PercentageAtLeast | quizLit.py:138-143 | the ratio C/T·100 reaches a threshold exactly when 100·C ≥ threshold·T |
| Scoring.TierMonotone | quizLit.py:140-148 | with the same total, more correct answers never give a lower tier |
| Scoring.TenQuestionBoundaries | quizLit.py:140-148 | 7/10 is excellent at 70, 5/10 is good at 50, 4/10 needs improvement at 40 |
| QuizSession.CountCorrectAppend | quizLit.py:217-225 | appending a log entry adds one to the count of correct entries exactly when that entry is correct |
| QuizSession.Initial | quizLit.py:154-173 | a new session is not started, holds no questions and an empty log, has index 0 and count 0, and satisfies the invariant |
| QuizSession.ResetQuiz | quizLit.py:176-186 | from any session, reset clears started, finished and answered, empties the questions and the log, zeroes index and count, clears the last answer, and gives a valid session |
| QuizSession.StartQuiz | quizLit.py:194-206 | an empty selection leaves every field unchanged; otherwise the result is a new session that is started on the selected questions, and it is valid |
| QuizSession.StartQuizFromBanks | quizLit.py:189-206 | with both banks empty (or N = 0) the session is unchanged; otherwise it starts at index 0 with count 0, an empty log, not finished and not answered, on min(N, len(S) + len(G)) questions drawn from the banks |
| QuizSession.AnswerQuestion | quizLit.py:209-229 | a finished quiz or an answered question leaves the session unchanged; otherwise indexing past the end is an error, and a successful answer appends exactly one entry whose key is the question's gabarito and whose correctness is (letter == gabarito), adds 1 to the count iff correct, sets the last answer, and changes nothing else |
| QuizSession.AnswerIdempotent | quizLit.py:211-212 | answering twice in a row equals answering once: at most one log entry and at most one increment |
| QuizSession.AnswerPreservesValid | quizLit.py:214-229 | answering keeps the invariant that the count equals the number of correct log entries, together with the rest of `Valid` |
| QuizSession.RunningSessionAnswers | quizLit.py:463-468 | on a valid session that is started and not finished, the question screen's answer cannot index past the end |
| QuizSession.NextQuestion | quizLit.py:232-240 | the index grows by exactly 1, the answered flag and last answer are cleared, the log and the count are unchanged, and finished is set iff it was set or the new index is ≥ the number of questions |
| QuizSession.NextPreservesValid | quizLit.py:232-240 | `next_question` keeps the invariant; on a valid session, finished is set exactly when the new index is ≥ the number of questions |
| QuizSession.Play | quizLit.py:342-353 | the answer-then-next loop ends, when no answer errs, with the index advanced by one per letter, the questions and started flag unchanged, and the old log a prefix of the new one with at most one entry added per letter; PlayToEnd and PlayToEndLog state where a full run ends |
| QuizSession.PlayToEnd | quizLit.py:342-353 | answering every remaining question, then pressing next each time, finishes the quiz at index len(questions) with the count increased by the number of letters matching their keys |
| QuizSession.PlayToEndLog | quizLit.py:220-225 | after playing to the end, the log holds exactly one entry per remaining question, in order |
| QuizSession.Log | quizLit.py:220-225 | the entries have one per answer, name their question and submitted letter, and are consistent with the question's key |
| QuizSession.FinalEvaluation | quizLit.py:360-364 | the results screen scores correct answers over len(questions): with no questions it is 0 and needs improvement; otherwise percentage·len(questions) = 100·correct, excellent iff 100·correct ≥ 70·len(questions), good iff 50·len(questions) ≤ 100·correct < 70·len(questions), needs improvement iff 100·correct < 50·len(questions) |
| QuizSession.ThreeQuestionWalkthrough | quizLit.py:209-240 | three questions keyed a, b, c and answered a, b, d end finished with 2 correct, rated good at 200/3 percent, and the third entry is incorrect with key c |

## Left out

- `DatabaseManager.load_questions` (quizLit.py:68-88) is sqlite I/O. Both banks are parameters, and a missing or unreadable database is an empty bank. The `st.error` warnings are not modelled.
- The Streamlit rendering is not modelled: `show_initial_screen`, `show_question_screen`, `show_final_results`, `main`, the CSS, `st.rerun` and `st.error`. The exception is the question screen's answer-then-next loop, which `Play` models.
- `get_button_style` (quizLit.py:268-282) and the button-label branching (quizLit.py:325-340) are presentation only, and `get_button_style` is never called.
- The progress-bar fraction (quizLit.py:293) is floating-point display only.
- The distribution of `random.shuffle` is not modelled. `Shuffle` promises only "some permutation".
- Selection.SpecificTarget: `int(N * 0.6)` is modelled as the integer `N * 3 / 5`. This agrees for the sizes the app offers (10 to 50, quizLit.py:256). Float rounding for other N is not modelled.
- Selection.PrepareQuestions: N is a natural number. Python's behaviour for a negative N (negative slice bounds) is not modelled, because the app only offers 10 to 50.
- Selection.PrepareQuestions: the app shuffles a bank only when it is non-empty. The model shuffles both banks unconditionally, because shuffling an empty bank returns it unchanged.
- Scoring.EvaluatePerformance: the percentage is an exact rational (`real`), not a float. Rounding near a tier boundary is not modelled. The tiers are stated through integer cross-multiplication.
- QuizSession.AnswerQuestion: the `IndexError` Python raises when the index is past the end is returned as `Err(IndexOutOfRange)`. It is not propagated as an exception.
- QuizSession.Initial: `initialize_session_state` sets only the keys that are missing. The model shows only the first run, where every key is missing. Later runs leave the session unchanged.

/**
  The quiz session: the state the application keeps between page runs and the
  four transitions the buttons trigger (start, answer, next, reset). Each
  transition is a pure function from the old session to the new one.
 */
module QuizSession {

  import opened Wrappers
  import opened Questions
  import opened Scoring
  import Selection

  /** One entry of the answer log reviewed on the results screen. */
  datatype AnswerRecord = AnswerRecord(
    question: Question,
    userAnswer: string,
    correctAnswer: string,
    isCorrect: bool)

  datatype Session = Session(
    started: bool,
    questions: seq<Question>,
    current: nat,
    correctAnswers: nat,
    userAnswers: seq<AnswerRecord>,
    finished: bool,
    answered: bool,
    lastUserAnswer: Option<string>,
    lastAnswerCorrect: Option<bool>)

  /** Indexing the question list past its end raises in the application. */
  datatype SessionError = IndexOutOfRange

  /** Number of log entries marked correct. */
  function CountCorrect(log: seq<AnswerRecord>): (k: nat)
    ensures k <= |log|
  {
    if |log| == 0 then 0
    else (if log[0].isCorrect then 1 else 0) + CountCorrect(log[1..])
  }

  lemma {:induction false} CountCorrectAppend(log: seq<AnswerRecord>, rec: AnswerRecord)
    ensures CountCorrect(log + [rec]) == CountCorrect(log) + (if rec.isCorrect then 1 else 0)
  {
    if |log| > 0 {
      assert (log + [rec])[1..] == log[1..] + [rec];
      CountCorrectAppend(log[1..], rec);
    }
  }

  /** A log entry names its question's key and is correct exactly when the answer is that key. */
  predicate RecordConsistent(rec: AnswerRecord) {
    && rec.correctAnswer == rec.question.gabarito
    && rec.isCorrect == (rec.userAnswer == rec.correctAnswer)
  }

  /**
    The invariant every session reachable through the transitions keeps: the
    correct count agrees with the log, a finished quiz is past its last
    question, a running one is on a question, and the "last answer" fields
    are set exactly while the current question is answered.
   */
  predicate Valid(s: Session) {
    && s.correctAnswers == CountCorrect(s.userAnswers)
    && (forall i :: 0 <= i < |s.userAnswers| ==> RecordConsistent(s.userAnswers[i]))
    && |s.userAnswers| <= s.current + (if s.answered then 1 else 0)
    && (s.started ==> |s.questions| > 0)
    && (s.finished ==> s.current >= |s.questions|)
    && (s.started && !s.finished ==> s.current < |s.questions|)
    && (s.answered <==> s.lastUserAnswer.Some?)
    && (s.answered <==> s.lastAnswerCorrect.Some?)
    && (s.answered ==>
          && |s.userAnswers| > 0
          && s.userAnswers[|s.userAnswers| - 1].userAnswer == s.lastUserAnswer.value
          && s.userAnswers[|s.userAnswers| - 1].isCorrect == s.lastAnswerCorrect.value)
  }

  /** The session of a new visitor, before any quiz was started. */
  function Initial(): (s: Session)
    ensures Valid(s)
    ensures !s.started && !s.finished && !s.answered
    ensures s.questions == [] && s.userAnswers == [] && s.current == 0 && s.correctAnswers == 0
  {
    Session(false, [], 0, 0, [], false, false, None, None)
  }

  /** `reset_quiz`: back to the state of a new visitor, whatever the session held. */
  function ResetQuiz(s: Session): (r: Session)
    ensures Valid(r)
    ensures !r.started && !r.finished && !r.answered
    ensures r.questions == [] && r.userAnswers == [] && r.current == 0 && r.correctAnswers == 0
    ensures r.lastUserAnswer.None? && r.lastAnswerCorrect.None?
  {
    Initial()
  }

  /**
    `start_quiz` once the selection is made: an empty selection leaves the
    session as it was; otherwise the session is a fresh one running the
    selected questions from the first.
   */
  function StartQuiz(s: Session, selected: seq<Question>): (r: Session)
    ensures |selected| == 0 ==> r == s
    ensures |selected| > 0 ==> r == Initial().(started := true, questions := selected)
    ensures |selected| > 0 || Valid(s) ==> Valid(r)
  {
    if |selected| == 0 then s
    else Session(true, selected, 0, 0, [], false, false, None, None)
  }

  /**
    `start_quiz(total_questions)` with the two question banks passed in:
    select the questions, then start.
   */
  method StartQuizFromBanks(s: Session, n: nat, specific: seq<Question>, general: seq<Question>)
    returns (r: Session)
    ensures n == 0 || |specific| + |general| == 0 ==> r == s
    ensures n > 0 && |specific| + |general| > 0 ==>
              && Valid(r) && r.started && !r.finished && !r.answered
              && r.current == 0 && r.correctAnswers == 0 && r.userAnswers == []
              && |r.questions| == Selection.Min(n, |specific| + |general|)
              && multiset(r.questions) <= multiset(specific) + multiset(general)
  {
    var selected, _, _, _ := Selection.PrepareQuestions(n, specific, general);
    r := StartQuiz(s, selected);
  }

  /**
    `answer_question(letter)`. A finished quiz or an already answered
    question ignores the call; otherwise the answer to the current question
    is logged and scored, and the question becomes answered.
   */
  function AnswerQuestion(s: Session, letter: string): (r: Result<Session, SessionError>)
    ensures s.finished || s.answered ==> r == Ok(s)
    ensures !s.finished && !s.answered ==> (r.Ok? <==> s.current < |s.questions|)
    ensures !s.finished && !s.answered && r.Ok? ==>
              var t := r.value;
              var q := s.questions[s.current];
              && t.userAnswers == s.userAnswers + [AnswerRecord(q, letter, q.gabarito, letter == q.gabarito)]
              && t.correctAnswers == s.correctAnswers + (if letter == q.gabarito then 1 else 0)
              && t.answered && t.lastUserAnswer == Some(letter) && t.lastAnswerCorrect == Some(letter == q.gabarito)
              && t.started == s.started && t.questions == s.questions
              && t.current == s.current && t.finished == s.finished
  {
    if s.finished || s.answered then Ok(s)
    else if s.current >= |s.questions| then Err(IndexOutOfRange)
    else
      var q := s.questions[s.current];
      var isCorrect := letter == q.gabarito;
      Ok(s.(correctAnswers := s.correctAnswers + (if isCorrect then 1 else 0),
            userAnswers := s.userAnswers + [AnswerRecord(q, letter, q.gabarito, isCorrect)],
            answered := true,
            lastUserAnswer := Some(letter),
            lastAnswerCorrect := Some(isCorrect)))
  }

  /**
    `next_question`: move one question on and clear the answered state; the
    quiz finishes once the index passes the last question. A finished quiz
    stays finished.
   */
  function NextQuestion(s: Session): (r: Session)
    ensures r.current == s.current + 1
    ensures !r.answered && r.lastUserAnswer.None? && r.lastAnswerCorrect.None?
    ensures r.finished <==> s.finished || r.current >= |s.questions|
    ensures r.userAnswers == s.userAnswers && r.correctAnswers == s.correctAnswers
    ensures r.started == s.started && r.questions == s.questions
  {
    var next := s.current + 1;
    s.(current := next,
       answered := false,
       lastUserAnswer := None,
       lastAnswerCorrect := None,
       finished := s.finished || next >= |s.questions|)
  }

  /** An answered question refuses a second answer: answering twice is answering once. */
  lemma AnswerIdempotent(s: Session, first: string, second: string)
    requires AnswerQuestion(s, first).Ok?
    ensures AnswerQuestion(AnswerQuestion(s, first).value, second) == AnswerQuestion(s, first)
    ensures |AnswerQuestion(s, first).value.userAnswers| <= |s.userAnswers| + 1
    ensures AnswerQuestion(s, first).value.correctAnswers <= s.correctAnswers + 1
  {
  }

  /** Answering keeps the correct count equal to the number of correct log entries. */
  lemma AnswerPreservesValid(s: Session, letter: string)
    requires Valid(s)
    requires AnswerQuestion(s, letter).Ok?
    ensures Valid(AnswerQuestion(s, letter).value)
  {
    if !s.finished && !s.answered {
      var q := s.questions[s.current];
      CountCorrectAppend(s.userAnswers, AnswerRecord(q, letter, q.gabarito, letter == q.gabarito));
    }
  }

  /** A valid session on the question screen (started, not finished) can always take an answer. */
  lemma RunningSessionAnswers(s: Session, letter: string)
    requires Valid(s) && s.started && !s.finished
    ensures AnswerQuestion(s, letter).Ok?
  {
  }

  /** On a valid session the quiz is finished after `next_question` exactly when the new index is past the end. */
  lemma NextPreservesValid(s: Session)
    requires Valid(s)
    ensures Valid(NextQuestion(s))
    ensures NextQuestion(s).finished <==> s.current + 1 >= |s.questions|
  {
  }

  /** Questions whose key is `letters[i]`, counted over the pairs `(questions[i], letters[i])`. */
  function Matches(questions: seq<Question>, letters: seq<string>): (k: nat)
    requires |questions| == |letters|
    ensures k <= |letters|
  {
    if |letters| == 0 then 0
    else (if letters[0] == questions[0].gabarito then 1 else 0) + Matches(questions[1..], letters[1..])
  }

  /**
    The question screen's loop: answer the current question with the next
    letter, then press "next", until the letters run out.
   */
  function Play(s: Session, letters: seq<string>): (r: Result<Session, SessionError>)
    ensures r.Ok? ==> r.value.current == s.current + |letters|
    ensures r.Ok? ==> r.value.questions == s.questions && r.value.started == s.started
    ensures r.Ok? ==> s.userAnswers <= r.value.userAnswers
    ensures r.Ok? ==> |r.value.userAnswers| <= |s.userAnswers| + |letters|
    decreases |letters|
  {
    if |letters| == 0 then Ok(s)
    else
      match AnswerQuestion(s, letters[0])
      case Err(e) => Err(e)
      case Ok(t) => Play(NextQuestion(t), letters[1..])
  }

  /** One round of the loop: answer with the first letter, press "next", play the rest. */
  lemma PlayStep(s: Session, letters: seq<string>)
    requires |letters| > 0 && AnswerQuestion(s, letters[0]).Ok?
    ensures Play(s, letters) == Play(NextQuestion(AnswerQuestion(s, letters[0]).value), letters[1..])
  {
  }

  lemma MatchesAndLogStep(questions: seq<Question>, letters: seq<string>)
    requires |questions| == |letters| > 0
    ensures Matches(questions, letters)
              == (if letters[0] == questions[0].gabarito then 1 else 0) + Matches(questions[1..], letters[1..])
    ensures Log(questions, letters)
              == [AnswerRecord(questions[0], letters[0], questions[0].gabarito, letters[0] == questions[0].gabarito)]
                 + Log(questions[1..], letters[1..])
  {
  }

  /**
    Answering every remaining question of a running quiz and pressing "next"
    after each one finishes the quiz, logs one entry per question and scores
    exactly the letters that match their question's key.
   */
  lemma {:induction false} PlayToEnd(s: Session, letters: seq<string>)
    requires s.started && !s.finished && !s.answered
    requires |letters| > 0 && s.current + |letters| == |s.questions|
    ensures Play(s, letters).Ok?
    ensures Play(s, letters).value.finished
    ensures Play(s, letters).value.current == |s.questions|
    ensures Play(s, letters).value.correctAnswers
              == s.correctAnswers + Matches(s.questions[s.current..], letters)
    decreases |letters|
  {
    var rest := s.questions[s.current..];
    var q := rest[0];
    var entry := AnswerRecord(q, letters[0], q.gabarito, letters[0] == q.gabarito);
    var u := Session(s.started, s.questions, s.current + 1,
                     s.correctAnswers + (if entry.isCorrect then 1 else 0),
                     s.userAnswers + [entry], s.current + 1 >= |s.questions|, false, None, None);
    assert NextQuestion(AnswerQuestion(s, letters[0]).value) == u;
    PlayStep(s, letters);
    MatchesAndLogStep(rest, letters);
    assert rest[1..] == u.questions[u.current..];
    if |letters| > 1 {
      PlayToEnd(u, letters[1..]);
    } else {
      assert Play(u, letters[1..]) == Ok(u);
    }
  }

  /** The log of a quiz played to the end holds one entry per remaining question, in order. */
  lemma {:induction false} PlayToEndLog(s: Session, letters: seq<string>)
    requires s.started && !s.finished && !s.answered
    requires |letters| > 0 && s.current + |letters| == |s.questions|
    ensures Play(s, letters).Ok?
    ensures Play(s, letters).value.userAnswers == s.userAnswers + Log(s.questions[s.current..], letters)
    decreases |letters|
  {
    PlayToEnd(s, letters);
    var rest := s.questions[s.current..];
    var q := rest[0];
    var entry := AnswerRecord(q, letters[0], q.gabarito, letters[0] == q.gabarito);
    var u := NextQuestion(AnswerQuestion(s, letters[0]).value);
    assert u.userAnswers == s.userAnswers + [entry];
    assert u.started && !u.answered && u.questions == s.questions && u.current == s.current + 1;
    PlayStep(s, letters);
    MatchesAndLogStep(rest, letters);
    assert rest[1..] == u.questions[u.current..];
    if |letters| > 1 {
      PlayToEndLog(u, letters[1..]);
      AppendAssociative(s.userAnswers, [entry], Log(rest[1..], letters[1..]));
    } else {
      assert Play(u, letters[1..]) == Ok(u);
    }
  }

  lemma AppendAssociative<T>(a: seq<T>, b: seq<T>, c: seq<T>)
    ensures a + b + c == a + (b + c)
  {
  }

  /** The log entries answering `questions[i]` with `letters[i]`, in order. */
  function Log(questions: seq<Question>, letters: seq<string>): (log: seq<AnswerRecord>)
    requires |questions| == |letters|
    ensures |log| == |letters|
    ensures forall i :: 0 <= i < |log| ==> log[i].question == questions[i] && log[i].userAnswer == letters[i]
    ensures forall i :: 0 <= i < |log| ==> RecordConsistent(log[i])
  {
    if |letters| == 0 then []
    else
      var q := questions[0];
      [AnswerRecord(q, letters[0], q.gabarito, letters[0] == q.gabarito)] + Log(questions[1..], letters[1..])
  }

  /** The score shown on the results screen. */
  function FinalEvaluation(s: Session): (e: Evaluation)
    ensures |s.questions| == 0 ==> e.level == NeedsImprovement && e.percentage == 0.0
    ensures |s.questions| > 0 ==> e.percentage * |s.questions| as real == 100.0 * s.correctAnswers as real
    ensures |s.questions| > 0 ==> (e.level == Excellent <==> 100 * s.correctAnswers >= 70 * |s.questions|)
    ensures |s.questions| > 0 ==>
              (e.level == Good <==> 50 * |s.questions| <= 100 * s.correctAnswers < 70 * |s.questions|)
    ensures |s.questions| > 0 ==> (e.level == NeedsImprovement <==> 100 * s.correctAnswers < 50 * |s.questions|)
  {
    EvaluatePerformance(s.correctAnswers, |s.questions|)
  }

  /**
    Three questions keyed a, b and c answered a, b and d: two correct, rated
    good at 200/3 percent, and the third log entry is wrong with key c.
   */
  lemma ThreeQuestionWalkthrough(q1: Question, q2: Question, q3: Question)
    requires q1.gabarito == "a" && q2.gabarito == "b" && q3.gabarito == "c"
    ensures Play(StartQuiz(Initial(), [q1, q2, q3]), ["a", "b", "d"]).Ok?
    ensures var t := Play(StartQuiz(Initial(), [q1, q2, q3]), ["a", "b", "d"]).value;
            && t.finished && t.correctAnswers == 2 && |t.userAnswers| == 3
            && !t.userAnswers[2].isCorrect && t.userAnswers[2].correctAnswer == "c"
            && FinalEvaluation(t).level == Good
            && FinalEvaluation(t).percentage * 3.0 == 200.0
  {
  }
}

/**
 * The quiz creator page: the default question it adds, the check it runs
 * before a game may start, and the bookkeeping of which question is
 * selected in the sidebar. The page edits the quiz held by the provider
 * and starts the game through it.
 */
module QuizCreator {
  import opened JsArray
  import opened JsString
  import opened QuizTypes
  import QuizContext

  /** The default time limit and point value of a new question. */
  const DefaultTimeLimit := 20
  const DefaultPoints := 1000

  /**
   * `createNewQuestion`: a blank multiple-choice question with two blank,
   * not-correct answers numbered 1 and 2; the three ids stand for the
   * `crypto.randomUUID()` values.
   */
  function NewQuestion(questionId: string, answerId1: string, answerId2: string): (q: Question)
  {
    Question(questionId, MultipleChoice, "", None,
             [Answer(answerId1, "", false, 1), Answer(answerId2, "", false, 2)],
             DefaultTimeLimit, DefaultPoints)
  }

  // ---------------------------------------------------------------------
  // Validation

  predicate HasText(q: Question)
  {
    |Trim(q.text)| > 0
  }

  /** An answer whose trimmed text is non-empty. */
  predicate Filled(a: Answer)
  {
    |Trim(a.text)| > 0
  }

  /** The answers whose trimmed text is non-empty. */
  function FilledAnswers(answers: seq<Answer>): (r: seq<Answer>)
    ensures forall i :: 0 <= i < |r| ==> r[i] in answers && Filled(r[i])
  {
    Filter(answers, Filled)
  }

  predicate HasAnswers(q: Question)
  {
    |FilledAnswers(q.answers)| >= 2
  }

  /** Ordering questions skip the check for a marked answer. */
  predicate HasCorrect(q: Question)
  {
    q.kind == MultipleChoice ==> Some_(q.answers, (a: Answer) => a.isCorrect)
  }

  /** The per-question rule the start button enforces. */
  predicate QuestionValid(q: Question)
  {
    HasText(q) && HasAnswers(q) && HasCorrect(q)
  }

  /** An answer is filled exactly when its text is not blank throughout. */
  lemma FilledIff(a: Answer)
    ensures Filled(a) <==> !AllSpace(a.text)
  {
    TrimEmptyIff(a.text);
  }

  /** Two answers survive the filter exactly when two different answers have non-blank text. */
  lemma HasAnswersIff(answers: seq<Answer>)
    ensures |FilledAnswers(answers)| >= 2 <==>
            exists i, j :: 0 <= i < j < |answers| && !AllSpace(answers[i].text) && !AllSpace(answers[j].text)
  {
    FilterAtLeastTwo(answers, Filled);
    forall i | 0 <= i < |answers| ensures Filled(answers[i]) <==> !AllSpace(answers[i].text) {
      FilledIff(answers[i]);
    }
  }

  /**
   * The validity rule in plain terms: the question text is not blank, two
   * different answers have non-blank text, and a multiple-choice question
   * has an answer marked correct.
   */
  lemma QuestionValidIff(q: Question)
    ensures QuestionValid(q) <==>
              && !AllSpace(q.text)
              && (exists i, j :: 0 <= i < j < |q.answers| && !AllSpace(q.answers[i].text) && !AllSpace(q.answers[j].text))
              && (q.kind == MultipleChoice ==> exists i :: 0 <= i < |q.answers| && q.answers[i].isCorrect)
  {
    TrimEmptyIff(q.text);
    assert HasText(q) <==> !AllSpace(q.text);
    HasAnswersIff(q.answers);
    assert HasCorrect(q) <==> (q.kind == MultipleChoice ==> exists i :: 0 <= i < |q.answers| && q.answers[i].isCorrect);
  }

  /** A freshly added question blocks the start until its text is filled in. */
  lemma NewQuestionInvalid(questionId: string, answerId1: string, answerId2: string)
    ensures var q := NewQuestion(questionId, answerId1, answerId2);
            !QuestionValid(q) && !HasAnswers(q) && !HasCorrect(q)
            && |q.answers| == 2 && q.kind == MultipleChoice
            && q.timeLimit == 20 && q.points == 1000
  {
    var q := NewQuestion(questionId, answerId1, answerId2);
    assert !Filled(q.answers[0]) && !Filled(q.answers[1]);
    assert forall a :: a in q.answers ==> !Filled(a);
    assert !q.answers[0].isCorrect && !q.answers[1].isCorrect;
  }

  /** What the start button decides. */
  datatype StartOutcome = NoQuestions | InvalidQuestions | Start

  /**
   * `handleStartGame`'s checks: an empty quiz is refused first, then a quiz
   * with any invalid question; only a quiz of valid questions starts.
   */
  function StartDecision(questions: seq<Question>): (r: StartOutcome)
    ensures r == NoQuestions <==> |questions| == 0
    ensures r == InvalidQuestions <==> |questions| > 0 && exists i :: 0 <= i < |questions| && !QuestionValid(questions[i])
    ensures r == Start <==> |questions| > 0 && forall i :: 0 <= i < |questions| ==> QuestionValid(questions[i])
  {
    if |questions| == 0 then NoQuestions
    else
      var invalid := Filter(questions, (q: Question) => !QuestionValid(q));
      if |invalid| > 0 then
        assert invalid[0] in questions;
        InvalidQuestions
      else
        Start
  }

  // ---------------------------------------------------------------------
  // Selection bookkeeping

  /** The sidebar's selection after deleting the selected question. */
  function SelectionAfterDelete(selected: int): (r: int)
    ensures r >= 0
    ensures selected >= 1 ==> r == selected - 1
    ensures selected <= 1 ==> r == 0
  {
    if selected - 1 > 0 then selected - 1 else 0
  }

  /** Question ids are pairwise distinct. */
  predicate DistinctQuestionIds(qs: seq<Question>)
  {
    forall i, j :: 0 <= i < j < |qs| ==> qs[i].id != qs[j].id
  }

  /** With distinct ids an id present once is counted once. */
  lemma {:induction false} CountPresentOnce(qs: seq<Question>, k: nat)
    requires DistinctQuestionIds(qs) && k < |qs|
    ensures QuizContext.CountWithId(qs, qs[k].id) == 1
    decreases |qs|
  {
    var rest := qs[1..];
    assert DistinctQuestionIds(rest) by {
      forall i, j | 0 <= i < j < |rest| ensures rest[i].id != rest[j].id {
        assert rest[i] == qs[i + 1] && rest[j] == qs[j + 1];
      }
    }
    if k == 0 {
      CountAbsent(rest, qs[0].id);
    } else {
      assert rest[k - 1] == qs[k];
      CountPresentOnce(rest, k - 1);
    }
  }

  lemma {:induction false} CountAbsent(qs: seq<Question>, questionId: string)
    requires forall i :: 0 <= i < |qs| ==> qs[i].id != questionId
    ensures QuizContext.CountWithId(qs, questionId) == 0
    decreases |qs|
  {
    if |qs| > 0 {
      CountAbsent(qs[1..], questionId);
    }
  }

  /**
   * Deleting the selected question of a quiz with distinct ids removes
   * exactly that question, and the new selection is a question of the
   * shorter quiz unless the quiz became empty.
   */
  lemma DeleteKeepsSelectionInRange(qs: seq<Question>, selected: nat)
    requires DistinctQuestionIds(qs) && selected < |qs|
    ensures |QuizContext.DeletedQuestions(qs, qs[selected].id)| == |qs| - 1
    ensures |qs| > 1 ==> SelectionAfterDelete(selected) < |QuizContext.DeletedQuestions(qs, qs[selected].id)|
  {
    CountPresentOnce(qs, selected);
    QuizContext.DeletedQuestionsExactly(qs, qs[selected].id);
  }

  /** The page's own state: the index of the selected question. */
  class CreatorPage {
    var selectedQuestionIndex: int

    constructor ()
      ensures selectedQuestionIndex == 0
    {
      selectedQuestionIndex := 0;
    }

    /** Clicking a thumbnail selects it. */
    method Select(index: nat)
      modifies this
      ensures selectedQuestionIndex == index
    {
      selectedQuestionIndex := index;
    }

    /**
     * `handleAddQuestion`: append a new default question and select it; the
     * selection is the old question count, the index of the new last question.
     */
    method AddQuestion(provider: QuizContext.QuizProvider, questionId: string, answerId1: string, answerId2: string)
      requires provider.currentQuiz.Some?
      modifies this, provider`currentQuiz
      ensures provider.currentQuiz ==
              Some(old(provider.currentQuiz.value).(questions :=
                old(provider.currentQuiz.value.questions) + [NewQuestion(questionId, answerId1, answerId2)]))
      ensures selectedQuestionIndex == |old(provider.currentQuiz.value.questions)|
      ensures provider.currentQuiz.value.questions[selectedQuestionIndex] == NewQuestion(questionId, answerId1, answerId2)
      ensures selectedQuestionIndex == |provider.currentQuiz.value.questions| - 1
    {
      var count := |provider.currentQuiz.value.questions|;
      provider.AddQuestion(NewQuestion(questionId, answerId1, answerId2));
      selectedQuestionIndex := count;
    }

    /** `handleUpdateQuestion`: merge the editor's update into the selected question, if there is one. */
    method UpdateQuestion(provider: QuizContext.QuizProvider, updates: QuizContext.QuestionUpdate)
      requires provider.currentQuiz.Some?
      modifies provider`currentQuiz
      ensures var qs := old(provider.currentQuiz.value.questions);
              var sel := selectedQuestionIndex;
              provider.currentQuiz == Some(old(provider.currentQuiz.value).(questions :=
                if 0 <= sel < |qs| then QuizContext.UpdatedQuestions(qs, qs[sel].id, updates) else qs))
    {
      var qs := provider.currentQuiz.value.questions;
      if 0 <= selectedQuestionIndex < |qs| {
        provider.UpdateQuestion(qs[selectedQuestionIndex].id, updates);
      }
    }

    /**
     * `handleDeleteQuestion`: nothing for a selection outside the quiz;
     * otherwise delete the selected question and select the one before it
     * (or the first).
     */
    method DeleteQuestion(provider: QuizContext.QuizProvider)
      requires provider.currentQuiz.Some?
      modifies this, provider`currentQuiz
      ensures var qs := old(provider.currentQuiz.value.questions);
              var sel := old(selectedQuestionIndex);
              if 0 <= sel < |qs| then
                && provider.currentQuiz == Some(old(provider.currentQuiz.value).(questions := QuizContext.DeletedQuestions(qs, qs[sel].id)))
                && selectedQuestionIndex == SelectionAfterDelete(sel)
              else
                provider.currentQuiz == old(provider.currentQuiz) && selectedQuestionIndex == sel
    {
      var qs := provider.currentQuiz.value.questions;
      if 0 <= selectedQuestionIndex < |qs| {
        provider.DeleteQuestion(qs[selectedQuestionIndex].id);
        selectedQuestionIndex := SelectionAfterDelete(selectedQuestionIndex);
      }
    }

    /**
     * `handleStartGame`: a game session is opened, under the generated
     * code, only when the quiz passes the checks; otherwise nothing changes.
     */
    method StartGame(provider: QuizContext.QuizProvider, generatedCode: string) returns (outcome: StartOutcome)
      requires provider.currentQuiz.Some?
      modifies provider`gameState
      ensures outcome == StartDecision(provider.currentQuiz.value.questions)
      ensures outcome == Start ==>
                provider.gameState == Some(GameState(provider.currentQuiz, -1, [], true, generatedCode, 0))
      ensures outcome != Start ==> provider.gameState == old(provider.gameState)
    {
      outcome := StartDecision(provider.currentQuiz.value.questions);
      if outcome == Start {
        var _ := provider.StartGame(provider.currentQuiz.value, generatedCode);
      }
    }
  }
}

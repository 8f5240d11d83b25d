/**
 * The quiz screen as a state machine: the loaded questions, the question on show, the recorded
 * answers, the running score and whether the results are on show, with the handlers that move it on
 * and the colouring of options on the results screen.
 */
module QuizComponent {
  import opened Wrappers

  /** One quiz entry as the screen reads it. */
  datatype Question = Question(question: string, options: seq<string>, correctAnswer: string)

  /** The recorded answer to question `k` is its correct answer (`===` on the two texts). */
  predicate AnsweredCorrectly(quiz: seq<Question>, answers: map<nat, string>, k: nat)
    requires k < |quiz|
  {
    k in answers && answers[k] == quiz[k].correctAnswer
  }

  /** How many of the first `n` questions carry a correct recorded answer. */
  function CorrectCount(quiz: seq<Question>, answers: map<nat, string>, n: nat): nat
    requires n <= |quiz|
  {
    if n == 0 then 0
    else CorrectCount(quiz, answers, n - 1) + (if AnsweredCorrectly(quiz, answers, n - 1) then 1 else 0)
  }

  /** The count never exceeds the number of questions counted, and reaches it only when all are correct. */
  lemma {:induction false} CorrectCountBounds(quiz: seq<Question>, answers: map<nat, string>, n: nat)
    requires n <= |quiz|
    ensures CorrectCount(quiz, answers, n) <= n
    ensures CorrectCount(quiz, answers, n) == n <==> forall k :: 0 <= k < n ==> AnsweredCorrectly(quiz, answers, k)
    ensures CorrectCount(quiz, answers, n) == 0 <==> forall k :: 0 <= k < n ==> !AnsweredCorrectly(quiz, answers, k)
  {
    if n > 0 {
      CorrectCountBounds(quiz, answers, n - 1);
    }
  }

  /** Answers recorded for questions at `n` or later do not affect the count of the first `n`. */
  lemma {:induction false} CorrectCountIgnoresLater(quiz: seq<Question>, answers: map<nat, string>, n: nat, k: nat, answer: string)
    requires n <= |quiz| && n <= k
    ensures CorrectCount(quiz, answers[k := answer], n) == CorrectCount(quiz, answers, n)
  {
    if n > 0 {
      CorrectCountIgnoresLater(quiz, answers, n - 1, k, answer);
      assert AnsweredCorrectly(quiz, answers[k := answer], n - 1) == AnsweredCorrectly(quiz, answers, n - 1);
    }
  }

  const CorrectOptionClass := "bg-green-600/90 border-2 border-green-400 text-white shadow-lg shadow-green-500/20"
  const WrongChoiceClass := "bg-red-600/90 border-2 border-red-400 text-white shadow-lg shadow-red-500/20"
  const NeutralOptionClass := "bg-gray-700/50 border border-gray-600 text-gray-300"

  class QuizSession {
    var quiz: Option<seq<Question>>
    var currentQuestion: nat
    var selectedAnswers: map<nat, string>
    var score: nat
    var showResults: bool
    var showQuiz: bool
    var error: Option<string>
    var studyingConcept: Option<nat>
    var conceptExplanation: string

    /** Nothing has started: no quiz, the first question, no answers, no score, nothing on show. */
    predicate Fresh()
      reads this
    {
      && quiz.None? && currentQuestion == 0 && selectedAnswers == map[] && score == 0
      && !showResults && !showQuiz && error.None? && studyingConcept.None? && conceptExplanation == ""
    }

    /**
     * Until a quiz is on show nothing has been answered; once one is, the question on show is one of
     * its questions and the score counts the correct answers among the questions already left behind
     * (all of them once the results are on show).
     */
    ghost predicate Valid()
      reads this
    {
      && (!showQuiz ==> quiz.None? && currentQuestion == 0 && selectedAnswers == map[] && score == 0 && !showResults)
      && (quiz.None? ==> currentQuestion == 0 && score == 0 && !showResults)
      && (quiz.Some? ==>
            && (quiz.value == [] ==> currentQuestion == 0 && score == 0 && !showResults)
            && (quiz.value != [] ==>
                  && currentQuestion < |quiz.value|
                  && score == CorrectCount(quiz.value, selectedAnswers, currentQuestion + if showResults then 1 else 0)))
    }

    /** The initial state of the component. */
    constructor()
      ensures Fresh() && Valid()
    {
      quiz := None;
      currentQuestion := 0;
      selectedAnswers := map[];
      score := 0;
      showResults := false;
      showQuiz := false;
      error := None;
      studyingConcept := None;
      conceptExplanation := "";
    }

    /** `resetQuiz` (also `handleRetry`): back to the initial state, whatever came before. */
    method ResetQuiz()
      modifies this
      ensures Fresh() && Valid()
    {
      quiz := None;
      currentQuestion := 0;
      selectedAnswers := map[];
      score := 0;
      showResults := false;
      showQuiz := false;
      error := None;
      studyingConcept := None;
      conceptExplanation := "";
    }

    /**
     * `handleStartQuiz`, offered only while no quiz is on show, with the outcome of generating the quiz
     * as input: the quiz is shown, or the error is shown with the prefix 'Error generating quiz: '.
     */
    method StartQuiz(outcome: Result<seq<Question>, string>)
      requires Valid() && !showQuiz
      modifies this
      ensures Valid()
      ensures outcome.Success? ==> quiz == Some(outcome.value) && showQuiz && error.None?
      ensures outcome.Failure? ==> quiz == old(quiz) && !showQuiz && error == Some("Error generating quiz: " + outcome.error)
      ensures currentQuestion == old(currentQuestion) && selectedAnswers == old(selectedAnswers)
      ensures score == old(score) && showResults == old(showResults)
      ensures studyingConcept == old(studyingConcept) && conceptExplanation == old(conceptExplanation)
    {
      error := None;
      showQuiz := true;
      match outcome {
        case Success(quizData) =>
          quiz := Some(quizData);
        case Failure(message) =>
          error := Some("Error generating quiz: " + message);
          showQuiz := false;
      }
    }

    /** `handleAnswerSelect`, offered on the question screen: records the answer to the question on show. */
    method HandleAnswerSelect(answer: string)
      requires Valid() && showQuiz && !showResults
      modifies this
      ensures Valid()
      ensures selectedAnswers == old(selectedAnswers)[old(currentQuestion) := answer]
      ensures quiz == old(quiz) && currentQuestion == old(currentQuestion) && score == old(score)
      ensures showResults == old(showResults) && showQuiz == old(showQuiz) && error == old(error)
      ensures studyingConcept == old(studyingConcept) && conceptExplanation == old(conceptExplanation)
    {
      if quiz.Some? && quiz.value != [] {
        CorrectCountIgnoresLater(quiz.value, selectedAnswers, currentQuestion, currentQuestion, answer);
      }
      selectedAnswers := selectedAnswers[currentQuestion := answer];
    }

    /** The next button is enabled: the question on show has a (non-empty) recorded answer. */
    predicate CanAdvance()
      reads this
    {
      && quiz.Some? && currentQuestion < |quiz.value| && !showResults
      && currentQuestion in selectedAnswers && selectedAnswers[currentQuestion] != ""
    }

    /**
     * `handleNextQuestion`: a correct answer adds one to the score; then the next question is shown, or,
     * on the last question, the results.
     */
    method HandleNextQuestion()
      requires Valid() && showQuiz && CanAdvance()
      modifies this
      ensures Valid()
      ensures quiz == old(quiz) && selectedAnswers == old(selectedAnswers) && showQuiz == old(showQuiz)
      ensures score == old(score) + if AnsweredCorrectly(quiz.value, selectedAnswers, old(currentQuestion)) then 1 else 0
      ensures old(currentQuestion) < |quiz.value| - 1 ==> currentQuestion == old(currentQuestion) + 1 && !showResults
      ensures old(currentQuestion) == |quiz.value| - 1 ==> currentQuestion == old(currentQuestion) && showResults
      ensures showResults ==> score == CorrectCount(quiz.value, selectedAnswers, |quiz.value|)
      ensures error == old(error) && studyingConcept == old(studyingConcept)
      ensures conceptExplanation == old(conceptExplanation)
    {
      var questions := quiz.value;
      if selectedAnswers[currentQuestion] == questions[currentQuestion].correctAnswer {
        score := score + 1;
      }
      if currentQuestion < |questions| - 1 {
        currentQuestion := currentQuestion + 1;
      } else {
        showResults := true;
      }
    }

    /** The score on show never exceeds the number of questions. */
    lemma ScoreBounded()
      requires Valid() && quiz.Some?
      ensures score <= |quiz.value|
    {
      if quiz.value != [] {
        CorrectCountBounds(quiz.value, selectedAnswers, currentQuestion + if showResults then 1 else 0);
      }
    }

    /**
     * `getOptionClassName`: no class before the results; afterwards the correct option is green, a wrong
     * option that was chosen is red, and every other option is neutral.
     */
    function OptionClassName(questionIndex: nat, option: string): (c: string)
      reads this
      requires showResults ==> quiz.Some? && questionIndex < |quiz.value|
      ensures !showResults ==> c == ""
      ensures c == CorrectOptionClass <==> showResults && quiz.value[questionIndex].correctAnswer == option
      ensures c == WrongChoiceClass <==>
                showResults && quiz.value[questionIndex].correctAnswer != option
                && questionIndex in selectedAnswers && selectedAnswers[questionIndex] == option
      ensures c == NeutralOptionClass <==>
                showResults && quiz.value[questionIndex].correctAnswer != option
                && !(questionIndex in selectedAnswers && selectedAnswers[questionIndex] == option)
    {
      if !showResults then ""
      else
        var isSelected := questionIndex in selectedAnswers && selectedAnswers[questionIndex] == option;
        var isCorrect := quiz.value[questionIndex].correctAnswer == option;
        if isCorrect then CorrectOptionClass
        else if isSelected && !isCorrect then WrongChoiceClass
        else NeutralOptionClass
    }

    /** At most one option of a question is marked as a wrong choice: the one that was chosen. */
    lemma OneWrongChoice(questionIndex: nat, a: string, b: string)
      requires showResults && quiz.Some? && questionIndex < |quiz.value|
      requires OptionClassName(questionIndex, a) == WrongChoiceClass
      requires OptionClassName(questionIndex, b) == WrongChoiceClass
      ensures a == b
    {
    }
  }
}

/**
 * The multiple-choice quiz: one answer slot per question, filled in by
 * clicking an option, clamped previous/next navigation, a progress bar that
 * jumps to any question, and a submit that freezes the answers and shows
 * the score.
 */
module Quiz {
  import opened Types

  // ---------------------------------------------------------------------------
  // Score and completeness
  // ---------------------------------------------------------------------------

  /** Slot `i` holds the right answer to question `i`. */
  predicate Hit(answers: seq<Option<string>>, quiz: seq<QuizQuestion>, i: nat)
    requires i < |answers| == |quiz|
  {
    answers[i] == Some(quiz[i].answer)
  }

  /** `score`: the reduce over the first `n` slots, adding one per right answer. */
  function ScoreUpTo(answers: seq<Option<string>>, quiz: seq<QuizQuestion>, n: nat): (r: nat)
    requires n <= |answers| == |quiz|
    ensures r <= n
  {
    if n == 0 then 0 else ScoreUpTo(answers, quiz, n - 1) + (if Hit(answers, quiz, n - 1) then 1 else 0)
  }

  function Score(answers: seq<Option<string>>, quiz: seq<QuizQuestion>): nat
    requires |answers| == |quiz|
  {
    ScoreUpTo(answers, quiz, |quiz|)
  }

  /** The questions answered right. */
  function Hits(answers: seq<Option<string>>, quiz: seq<QuizQuestion>, n: nat): set<nat>
    requires n <= |answers| == |quiz|
  {
    set i: nat | i < n && Hit(answers, quiz, i)
  }

  /** The score is the number of questions whose slot holds the right answer. */
  lemma {:induction false} ScoreCountsHits(answers: seq<Option<string>>, quiz: seq<QuizQuestion>, n: nat)
    requires n <= |answers| == |quiz|
    ensures ScoreUpTo(answers, quiz, n) == |Hits(answers, quiz, n)|
  {
    if n > 0 {
      ScoreCountsHits(answers, quiz, n - 1);
      if Hit(answers, quiz, n - 1) {
        assert Hits(answers, quiz, n) == Hits(answers, quiz, n - 1) + {n - 1};
      } else {
        assert Hits(answers, quiz, n) == Hits(answers, quiz, n - 1);
      }
    }
  }

  /** An empty slot never scores, so the score is at most the number of filled slots. */
  lemma {:induction false} ScoreAtMostAnswered(answers: seq<Option<string>>, quiz: seq<QuizQuestion>, n: nat)
    requires n <= |answers| == |quiz|
    ensures ScoreUpTo(answers, quiz, n) <= |set i: nat | i < n && answers[i].Some?|
  {
    ScoreCountsHits(answers, quiz, n);
    var filled := set i: nat | i < n && answers[i].Some?;
    assert Hits(answers, quiz, n) <= filled;
    SubsetCardinality(Hits(answers, quiz, n), filled);
  }

  lemma SubsetCardinality(a: set<nat>, b: set<nat>)
    requires a <= b
    ensures |a| <= |b|
  {
    assert b == a + (b - a);
  }

  /** Changing one slot moves the score by that slot's contribution only. */
  lemma {:induction false} ScoreAfterUpdate(answers: seq<Option<string>>, quiz: seq<QuizQuestion>, i: nat, a: Option<string>, n: nat)
    requires i < |answers| == |quiz| && n <= |quiz|
    ensures var after := answers[i := a];
            ScoreUpTo(after, quiz, n) + (if i < n && Hit(answers, quiz, i) then 1 else 0)
            == ScoreUpTo(answers, quiz, n) + (if i < n && Hit(after, quiz, i) then 1 else 0)
  {
    if n > 0 {
      ScoreAfterUpdate(answers, quiz, i, a, n - 1);
    }
  }

  /** Nothing answered yet: every slot `null`. */
  function NoAnswers(n: nat): (r: seq<Option<string>>)
    ensures |r| == n && forall i :: 0 <= i < n ==> r[i] == None
  {
    seq(n, i => None)
  }

  /** `selectedAnswers.every(answer => answer !== null)`. */
  predicate AllAnswered(answers: seq<Option<string>>) {
    forall i :: 0 <= i < |answers| ==> answers[i].Some?
  }

  /** An empty answer sheet scores nothing, and is complete only for an empty quiz. */
  lemma {:induction false} NoAnswersScoreZero(quiz: seq<QuizQuestion>, n: nat)
    requires n <= |quiz|
    ensures ScoreUpTo(NoAnswers(|quiz|), quiz, n) == 0
    ensures AllAnswered(NoAnswers(|quiz|)) <==> |quiz| == 0
  {
    if n > 0 {
      NoAnswersScoreZero(quiz, n - 1);
    }
    if |quiz| > 0 {
      assert NoAnswers(|quiz|)[0] == None;
    }
  }

  // ---------------------------------------------------------------------------
  // The session
  // ---------------------------------------------------------------------------

  class QuizSession {
    const quiz: seq<QuizQuestion>
    var currentQuestion: nat
    var selectedAnswers: seq<Option<string>>
    var showResults: bool
    var submitted: bool

    /**
     * One slot per question; the index is on a question (or 0 for an empty
     * quiz); results show exactly after a submit, which needs every slot filled.
     */
    ghost predicate Valid()
      reads this
    {
      && |selectedAnswers| == |quiz|
      && (currentQuestion < |quiz| || currentQuestion == 0)
      && showResults == submitted
      && (submitted ==> AllAnswered(selectedAnswers))
    }

    constructor (quiz: seq<QuizQuestion>)
      ensures Valid() && this.quiz == quiz
      ensures currentQuestion == 0 && selectedAnswers == NoAnswers(|quiz|)
      ensures !showResults && !submitted
    {
      this.quiz := quiz;
      currentQuestion := 0;
      selectedAnswers := NoAnswers(|quiz|);
      showResults := false;
      submitted := false;
    }

    /** `handleSelectAnswer`: fill the current question's slot, unless the quiz was submitted. */
    method SelectAnswer(answer: string)
      requires Valid() && |quiz| > 0
      modifies this`selectedAnswers
      ensures Valid()
      ensures old(submitted) ==> selectedAnswers == old(selectedAnswers)
      ensures !old(submitted) ==> selectedAnswers == old(selectedAnswers)[currentQuestion := Some(answer)]
    {
      if submitted {
        return;
      }
      selectedAnswers := selectedAnswers[currentQuestion := Some(answer)];
    }

    /** `handleNext`: one question on, stopping at the last. */
    method Next()
      requires Valid() && |quiz| > 0
      modifies this`currentQuestion
      ensures Valid()
      ensures old(currentQuestion) < |quiz| - 1 ==> currentQuestion == old(currentQuestion) + 1
      ensures old(currentQuestion) == |quiz| - 1 ==> currentQuestion == old(currentQuestion)
    {
      if currentQuestion < |quiz| - 1 {
        currentQuestion := currentQuestion + 1;
      }
    }

    /** `handlePrev`: one question back, stopping at the first. */
    method Prev()
      requires Valid() && |quiz| > 0
      modifies this`currentQuestion
      ensures Valid()
      ensures old(currentQuestion) > 0 ==> currentQuestion == old(currentQuestion) - 1
      ensures old(currentQuestion) == 0 ==> currentQuestion == 0
    {
      if currentQuestion > 0 {
        currentQuestion := currentQuestion - 1;
      }
    }

    /** A click on the progress bar segment of question `index`. */
    method JumpTo(index: nat)
      requires Valid() && index < |quiz|
      modifies this`currentQuestion
      ensures Valid() && currentQuestion == index
    {
      currentQuestion := index;
    }

    /** `handleSubmit`, reachable only while the submit button is enabled, that is, with every slot filled. */
    method Submit()
      requires Valid() && |quiz| > 0 && AllAnswered(selectedAnswers)
      modifies this`submitted, this`showResults
      ensures Valid() && submitted && showResults
    {
      submitted := true;
      showResults := true;
    }

    /** `handleReset`: empty slots, no results, back to the first question. */
    method Reset()
      requires Valid() && |quiz| > 0
      modifies this
      ensures Valid()
      ensures selectedAnswers == NoAnswers(|quiz|) && !submitted && !showResults && currentQuestion == 0
    {
      selectedAnswers := NoAnswers(|quiz|);
      submitted := false;
      showResults := false;
      currentQuestion := 0;
    }
  }
}

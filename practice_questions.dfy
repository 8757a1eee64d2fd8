/** The practice-question pager: one open question at a time, with hint and sample answer. */
module PracticeQuestions {
  import opened Types
  import opened Cyclic

  class Pager {
    const questions: seq<PracticeQuestion>
    var currentIndex: nat
    var showHint: bool
    var showAnswer: bool
    var userAnswer: string

    /** The pager is drawn only for a non-empty list of questions. */
    ghost predicate Valid()
      reads this
    {
      |questions| > 0 && currentIndex < |questions|
    }

    /** The view of a question as first shown: no hint, no sample answer, an empty answer box. */
    ghost predicate FreshView()
      reads this
    {
      !showHint && !showAnswer && userAnswer == ""
    }

    constructor (questions: seq<PracticeQuestion>)
      ensures this.questions == questions
      ensures currentIndex == 0 && FreshView()
    {
      this.questions := questions;
      currentIndex := 0;
      showHint, showAnswer, userAnswer := false, false, "";
    }

    method HandleNext()
      requires Valid()
      modifies this
      ensures Valid() && FreshView()
      ensures currentIndex == NextIndex(old(currentIndex), |questions|)
    {
      currentIndex := NextIndex(currentIndex, |questions|);
      showHint, showAnswer, userAnswer := false, false, "";
    }

    method HandlePrev()
      requires Valid()
      modifies this
      ensures Valid() && FreshView()
      ensures currentIndex == PrevIndex(old(currentIndex), |questions|)
    {
      currentIndex := PrevIndex(currentIndex, |questions|);
      showHint, showAnswer, userAnswer := false, false, "";
    }

    /** Clicking the progress dot of question `index`. */
    method JumpTo(index: nat)
      requires Valid() && index < |questions|
      modifies this
      ensures Valid() && FreshView()
      ensures currentIndex == index
    {
      currentIndex := index;
      showHint, showAnswer, userAnswer := false, false, "";
    }

    method RevealHint()
      modifies this`showHint
      ensures showHint
    {
      showHint := true;
    }

    method RevealAnswer()
      modifies this`showAnswer
      ensures showAnswer
    {
      showAnswer := true;
    }

    method SetUserAnswer(text: string)
      modifies this`userAnswer
      ensures userAnswer == text
    {
      userAnswer := text;
    }
  }
}

/** The flashcard carousel: one card at a time, flipped between question and answer. */
module FlashcardList {
  import opened Types
  import opened Cyclic

  datatype ViewMode = Single | Grid

  class Carousel {
    const flashcards: seq<Flashcard>
    var currentIndex: nat
    var isFlipped: bool
    var viewMode: ViewMode

    /** The navigation buttons are drawn only for a non-empty deck. */
    ghost predicate Valid()
      reads this
    {
      |flashcards| > 0 && currentIndex < |flashcards|
    }

    constructor (flashcards: seq<Flashcard>)
      ensures this.flashcards == flashcards
      ensures currentIndex == 0 && !isFlipped && viewMode == Single
    {
      this.flashcards := flashcards;
      currentIndex := 0;
      isFlipped := false;
      viewMode := Single;
    }

    method HandleNext()
      requires Valid()
      modifies this
      ensures Valid()
      ensures currentIndex == NextIndex(old(currentIndex), |flashcards|)
      ensures !isFlipped && viewMode == old(viewMode)
    {
      isFlipped := false;
      currentIndex := NextIndex(currentIndex, |flashcards|);
    }

    method HandlePrev()
      requires Valid()
      modifies this
      ensures Valid()
      ensures currentIndex == PrevIndex(old(currentIndex), |flashcards|)
      ensures !isFlipped && viewMode == old(viewMode)
    {
      isFlipped := false;
      currentIndex := PrevIndex(currentIndex, |flashcards|);
    }

    /** Clicking the card turns it over. */
    method Flip()
      modifies this`isFlipped
      ensures isFlipped == !old(isFlipped)
    {
      isFlipped := !isFlipped;
    }

    method SetViewMode(mode: ViewMode)
      modifies this`viewMode
      ensures viewMode == mode
    {
      viewMode := mode;
    }
  }
}

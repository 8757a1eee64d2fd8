/**
 * Learn mode: an adaptive flashcard scheduler. Every card carries a mastery
 * score in [0, 100]; the learner rates each presented card, which moves its
 * mastery up by 25 or down by 15, and the next card is the unmastered one
 * with the largest weight (100 - mastery) + jitter. The session ends once
 * every card has been seen and the average mastery is at least 80.
 *
 * Cards are identified by their position in the deck. The random jitter and
 * the clock are parameters: `jitter[k]` is the value `Math.random() * 20`
 * took for the card at position k, and `now` the value of `Date.now()`.
 */
module LearnMode {
  import opened Types

  // ---------------------------------------------------------------------------
  // Card state and a response
  // ---------------------------------------------------------------------------

  /** The scheduler's record for one card; `lastSeen == 0` means never answered. */
  datatype CardState = CardState(card: Flashcard, mastery: int, timesCorrect: nat, timesIncorrect: nat, lastSeen: int)

  /** The record every card starts from, on mount and on restart. */
  function Fresh(card: Flashcard): (s: CardState)
    ensures s.card == card && s.mastery == 0 && s.lastSeen == 0
    ensures s.timesCorrect == 0 && s.timesIncorrect == 0
  {
    CardState(card, 0, 0, 0, 0)
  }

  /** `flashcards.map(...)`: one fresh record per card, in deck order. */
  function InitialStates(cards: seq<Flashcard>): (r: seq<CardState>)
    ensures |r| == |cards|
    ensures forall i :: 0 <= i < |cards| ==> r[i] == Fresh(cards[i])
  {
    seq(|cards|, i requires 0 <= i < |cards| => Fresh(cards[i]))
  }

  /** The mastery after a response: +25 capped at 100, or -15 floored at 0. */
  function NewMastery(m: int, knew: bool): int {
    if knew then (if m + 25 < 100 then m + 25 else 100)
    else (if m - 15 > 0 then m - 15 else 0)
  }

  /** A response keeps mastery in [0, 100], never lowers it when known and never raises it when not. */
  lemma NewMasteryInRange(m: int, knew: bool)
    requires 0 <= m <= 100
    ensures 0 <= NewMastery(m, knew) <= 100
    ensures knew ==> m <= NewMastery(m, knew) && (m < 100 ==> m < NewMastery(m, knew))
    ensures !knew ==> NewMastery(m, knew) <= m && (m > 0 ==> NewMastery(m, knew) < m)
  {
  }

  /** The record of the presented card after the learner's rating at time `now`. */
  function Respond(s: CardState, knew: bool, now: int): (r: CardState)
    ensures r.card == s.card && r.lastSeen == now
    ensures r.timesCorrect + r.timesIncorrect == s.timesCorrect + s.timesIncorrect + 1
    ensures knew <==> r.timesCorrect == s.timesCorrect + 1
    ensures !knew <==> r.timesIncorrect == s.timesIncorrect + 1
  {
    CardState(s.card, NewMastery(s.mastery, knew),
              if knew then s.timesCorrect + 1 else s.timesCorrect,
              if knew then s.timesIncorrect else s.timesIncorrect + 1,
              now)
  }

  /**
   * A well-formed record: mastery in [0, 100], and a card never answered
   * still has its fresh mastery and counters.
   */
  predicate WellFormed(s: CardState) {
    && 0 <= s.mastery <= 100
    && s.lastSeen >= 0
    && (s.lastSeen == 0 ==> s.mastery == 0 && s.timesCorrect == 0 && s.timesIncorrect == 0)
  }

  /** Fresh records are well-formed, and a response at a positive time keeps a record well-formed. */
  lemma RespondWellFormed(s: CardState, knew: bool, now: int)
    requires WellFormed(s) && now > 0
    ensures WellFormed(Fresh(s.card))
    ensures WellFormed(Respond(s, knew, now)) && Respond(s, knew, now).lastSeen > 0
  {
    NewMasteryInRange(s.mastery, knew);
  }

  /** `k` correct answers in a row add 25 each, up to the cap: four take a new card to full mastery. */
  lemma {:induction false} RepeatedKnowledgeMasters(m: int, k: nat)
    requires 0 <= m <= 100
    ensures RepeatKnew(m, k) == (if m + 25 * k < 100 then m + 25 * k else 100)
  {
    if k > 0 {
      RepeatedKnowledgeMasters(m, k - 1);
    }
  }

  /** Mastery after `k` correct answers in a row. */
  function RepeatKnew(m: int, k: nat): int {
    if k == 0 then m else NewMastery(RepeatKnew(m, k - 1), true)
  }

  // ---------------------------------------------------------------------------
  // Choosing the next card
  // ---------------------------------------------------------------------------

  predicate Unmastered(s: CardState) {
    s.mastery < 100
  }

  /** `(100 - s.mastery) + Math.random() * 20`, with the random part given as `j`. */
  function Weight(s: CardState, j: real): real {
    (100 - s.mastery) as real + j
  }

  /** Jitter values as `Math.random() * 20` produces them, one per card. */
  predicate ValidJitter(jitter: seq<real>, n: nat) {
    |jitter| == n && forall k :: 0 <= k < n ==> 0.0 <= jitter[k] < 20.0
  }

  /**
   * `k` is the card a stable descending sort by weight puts first among the
   * unmastered cards at positions below `n`: it is unmastered, no unmastered
   * card outweighs it, and every unmastered card before it weighs strictly less.
   */
  predicate IsFirstHeaviest(states: seq<CardState>, jitter: seq<real>, n: nat, k: nat)
    requires n <= |states| == |jitter|
  {
    && k < n && Unmastered(states[k])
    && (forall i :: 0 <= i < n && Unmastered(states[i]) ==> Weight(states[i], jitter[i]) <= Weight(states[k], jitter[k]))
    && (forall i :: 0 <= i < k && Unmastered(states[i]) ==> Weight(states[i], jitter[i]) < Weight(states[k], jitter[k]))
  }

  /**
   * The filter, weigh, sort and take-first of `pickNextCard`, over the cards
   * at positions below `n`: none when every one of them is mastered,
   * otherwise the first heaviest unmastered card.
   */
  function Heaviest(states: seq<CardState>, jitter: seq<real>, n: nat): (r: Option<nat>)
    requires n <= |states| == |jitter|
    ensures r.None? <==> forall i :: 0 <= i < n ==> !Unmastered(states[i])
    ensures r.Some? ==> IsFirstHeaviest(states, jitter, n, r.value)
  {
    if n == 0 then None
    else
      var best := Heaviest(states, jitter, n - 1);
      if !Unmastered(states[n - 1]) then best
      else if best.None? || Weight(states[n - 1], jitter[n - 1]) > Weight(states[best.value], jitter[best.value]) then Some(n - 1)
      else best
  }

  /** The card `pickNextCard` presents next, if any. */
  function PickNext(states: seq<CardState>, jitter: seq<real>): Option<nat>
    requires |states| == |jitter|
  {
    Heaviest(states, jitter, |states|)
  }

  /** The choice is determined: any first heaviest card is the one picked. */
  lemma FirstHeaviestIsPicked(states: seq<CardState>, jitter: seq<real>, k: nat)
    requires |states| == |jitter| && IsFirstHeaviest(states, jitter, |states|, k)
    ensures PickNext(states, jitter) == Some(k)
  {
  }

  /**
   * With jitter in [0, 20) the picked card is within 20 mastery points of
   * every unmastered card: mastery still dominates the random part.
   */
  lemma PickNearLeastMastered(states: seq<CardState>, jitter: seq<real>, k: nat)
    requires ValidJitter(jitter, |states|)
    requires k < |states| && Unmastered(states[k])
    ensures PickNext(states, jitter).Some?
    ensures states[PickNext(states, jitter).value].mastery < states[k].mastery + 20
  {
    var c := PickNext(states, jitter).value;
    assert Weight(states[k], jitter[k]) <= Weight(states[c], jitter[c]);
  }

  /** A card whose mastery is lower by at least 20 than another's always outranks it. */
  lemma LowerMasteryOutranks(states: seq<CardState>, jitter: seq<real>, k: nat, h: nat)
    requires ValidJitter(jitter, |states|)
    requires k < |states| && h < |states|
    requires Unmastered(states[k]) && states[k].mastery + 20 <= states[h].mastery
    ensures PickNext(states, jitter) != Some(h)
  {
    PickNearLeastMastered(states, jitter, k);
  }

  // ---------------------------------------------------------------------------
  // Totals and completion
  // ---------------------------------------------------------------------------

  function Mastery(s: CardState): int { s.mastery }
  function Correct(s: CardState): int { s.timesCorrect }
  function Answered(s: CardState): int { s.timesCorrect + s.timesIncorrect }

  /** `reduce((sum, s) => sum + f(s), 0)`. */
  function SumBy(states: seq<CardState>, f: CardState -> int): int {
    if states == [] then 0 else SumBy(states[..|states| - 1], f) + f(states[|states| - 1])
  }

  /** Replacing one record changes a total by the difference of the two records. */
  lemma {:induction false} SumByUpdate(states: seq<CardState>, i: nat, x: CardState, f: CardState -> int)
    requires i < |states|
    ensures SumBy(states[i := x], f) == SumBy(states, f) - f(states[i]) + f(x)
    decreases |states|
  {
    var n := |states| - 1;
    var u := states[i := x];
    assert u[..n] == if i == n then states[..n] else states[..n][i := x];
    if i < n {
      SumByUpdate(states[..n], i, x, f);
    }
  }

  /** A total over fresh records is zero. */
  lemma {:induction false} SumByFresh(cards: seq<Flashcard>, f: CardState -> int)
    requires forall c :: f(Fresh(c)) == 0
    ensures SumBy(InitialStates(cards), f) == 0
    decreases |cards|
  {
    if cards != [] {
      var n := |cards| - 1;
      assert InitialStates(cards)[..n] == InitialStates(cards[..n]);
      SumByFresh(cards[..n], f);
    }
  }

  /** Summed mastery lies between 0 and 100 per card. */
  lemma {:induction false} MasterySumBounds(states: seq<CardState>)
    requires forall i :: 0 <= i < |states| ==> 0 <= states[i].mastery <= 100
    ensures 0 <= SumBy(states, Mastery) <= 100 * |states|
    decreases |states|
  {
    if states != [] {
      MasterySumBounds(states[..|states| - 1]);
    }
  }

  predicate AllSeen(states: seq<CardState>) {
    forall i :: 0 <= i < |states| ==> states[i].lastSeen > 0
  }

  /** `avgMastery`, defined for a non-empty deck. */
  function Average(states: seq<CardState>): real
    requires |states| > 0
  {
    SumBy(states, Mastery) as real / |states| as real
  }

  /** The average reaches 80 exactly when the mastery total reaches 80 per card. */
  lemma AverageThreshold(states: seq<CardState>)
    requires |states| > 0
    ensures Average(states) >= 80.0 <==> SumBy(states, Mastery) >= 80 * |states|
  {
    var n := |states| as real;
    var s := SumBy(states, Mastery) as real;
    assert Average(states) * n == s;
    if Average(states) >= 80.0 {
      assert Average(states) * n >= 80.0 * n;
    }
    if s >= 80.0 * n {
      assert Average(states) >= 80.0;
    }
  }

  /** `allSeen && avgMastery >= 80`: the session's end condition. */
  predicate Completes(states: seq<CardState>) {
    |states| > 0 && AllSeen(states) && Average(states) >= 80.0
  }

  /** A deck whose every card is mastered (and hence seen) meets the end condition. */
  lemma AllMasteredCompletes(states: seq<CardState>)
    requires |states| > 0
    requires forall i :: 0 <= i < |states| ==> states[i].mastery == 100 && states[i].lastSeen > 0
    ensures Completes(states)
  {
    AllMasteredSum(states);
    AverageThreshold(states);
  }

  lemma {:induction false} AllMasteredSum(states: seq<CardState>)
    requires forall i :: 0 <= i < |states| ==> states[i].mastery == 100
    ensures SumBy(states, Mastery) == 100 * |states|
    decreases |states|
  {
    if states != [] {
      AllMasteredSum(states[..|states| - 1]);
    }
  }

  // ---------------------------------------------------------------------------
  // The session
  // ---------------------------------------------------------------------------

  class LearnSession {
    const flashcards: seq<Flashcard>
    var states: seq<CardState>
    var current: Option<nat>
    var showAnswer: bool
    var sessionComplete: bool
    var cardsStudied: nat
    var correctCount: nat
    var streak: nat

    /** One well-formed record per card, in deck order, and counters that agree with the records. */
    ghost predicate Consistent()
      reads this
    {
      && |states| == |flashcards|
      && (forall i :: 0 <= i < |states| ==> states[i].card == flashcards[i] && WellFormed(states[i]))
      && cardsStudied == SumBy(states, Answered)
      && correctCount == SumBy(states, Correct)
      && streak <= correctCount <= cardsStudied
    }

    /**
     * The records are consistent; an unfinished session shows an unmastered
     * card; a finished one met the end condition or has no cards.
     */
    ghost predicate Valid()
      reads this
    {
      && Consistent()
      && (current.Some? ==> current.value < |states|)
      && (!sessionComplete ==> current.Some? && Unmastered(states[current.value]))
      && (sessionComplete ==> |states| == 0 || Completes(states))
    }

    /** The initial effect: fresh records for the deck, then the first pick. */
    constructor (flashcards: seq<Flashcard>, jitter: seq<real>)
      requires ValidJitter(jitter, |flashcards|)
      ensures Valid() && this.flashcards == flashcards
      ensures states == InitialStates(flashcards)
      ensures cardsStudied == 0 && correctCount == 0 && streak == 0
      ensures sessionComplete <==> |flashcards| == 0
      ensures !sessionComplete ==> current == PickNext(states, jitter) && !showAnswer
    {
      this.flashcards := flashcards;
      states := InitialStates(flashcards);
      current := None;
      showAnswer := false;
      sessionComplete := false;
      cardsStudied := 0;
      correctCount := 0;
      streak := 0;
      new;
      SumByFresh(flashcards, Answered);
      SumByFresh(flashcards, Correct);
      PickNextCard(jitter);
    }

    /**
     * `pickNextCard`: present the first heaviest unmastered card and hide its
     * answer, or mark the session complete when there is none.
     */
    method PickNextCard(jitter: seq<real>)
      requires |jitter| == |states|
      modifies this`current, this`showAnswer, this`sessionComplete
      ensures PickNext(states, jitter).None? ==>
                sessionComplete && current == old(current) && showAnswer == old(showAnswer)
      ensures PickNext(states, jitter).Some? ==>
                current == PickNext(states, jitter) && !showAnswer && sessionComplete == old(sessionComplete)
    {
      var next := PickNext(states, jitter);
      if next.None? {
        sessionComplete := true;
        return;
      }
      current := next;
      showAnswer := false;
    }

    /** A click on the card reveals its answer. */
    method RevealAnswer()
      modifies this`showAnswer
      ensures showAnswer
    {
      showAnswer := true;
    }

    /**
     * `handleResponse(knew)`: rate the presented card, update the counters,
     * then finish when every card is seen with average mastery at least 80,
     * and pick the next card otherwise.
     */
    method HandleResponse(knew: bool, now: int, jitter: seq<real>)
      requires Valid() && !sessionComplete
      requires now > 0 && ValidJitter(jitter, |flashcards|)
      modifies this
      ensures Valid()
      ensures var c := old(current).value;
              states == old(states)[c := Respond(old(states)[c], knew, now)]
      ensures forall k :: 0 <= k < |states| && !Unmastered(old(states)[k]) ==> states[k] == old(states)[k]
      ensures cardsStudied == old(cardsStudied) + 1
      ensures knew ==> correctCount == old(correctCount) + 1 && streak == old(streak) + 1
      ensures !knew ==> correctCount == old(correctCount) && streak == 0
      ensures sessionComplete <==> Completes(states)
      ensures sessionComplete ==> current == old(current) && showAnswer == old(showAnswer)
      ensures !sessionComplete ==> current == PickNext(states, jitter) && !showAnswer
    {
      RecordResponse(knew, now);
      if Completes(states) {
        sessionComplete := true;
      } else {
        NextCardExists(states);
        PickNextCard(jitter);
      }
    }

    /** The bookkeeping half of `handleResponse`: the presented card's record and the counters. */
    method RecordResponse(knew: bool, now: int)
      requires Consistent() && current.Some? && current.value < |states| && now > 0
      modifies this`states, this`cardsStudied, this`correctCount, this`streak
      ensures Consistent()
      ensures var c := current.value;
              states == old(states)[c := Respond(old(states)[c], knew, now)]
      ensures cardsStudied == old(cardsStudied) + 1
      ensures knew ==> correctCount == old(correctCount) + 1 && streak == old(streak) + 1
      ensures !knew ==> correctCount == old(correctCount) && streak == 0
    {
      var c := current.value;
      var updated := Respond(states[c], knew, now);
      RespondWellFormed(states[c], knew, now);
      SumByUpdate(states, c, updated, Answered);
      SumByUpdate(states, c, updated, Correct);
      states := states[c := updated];
      cardsStudied := cardsStudied + 1;
      if knew {
        correctCount := correctCount + 1;
        streak := streak + 1;
      } else {
        streak := 0;
      }
    }

    /** A deck that does not meet the end condition still has an unmastered card. */
    static lemma NextCardExists(states: seq<CardState>)
      requires |states| > 0 && !Completes(states)
      requires forall i :: 0 <= i < |states| ==> WellFormed(states[i])
      ensures exists i :: 0 <= i < |states| && Unmastered(states[i])
    {
      if forall i :: 0 <= i < |states| ==> !Unmastered(states[i]) {
        AllMasteredCompletes(states);
      }
    }

    /** `handleRestart`: fresh records, zeroed counters, and a new first pick. */
    method HandleRestart(jitter: seq<real>)
      requires Valid() && ValidJitter(jitter, |flashcards|)
      modifies this
      ensures Valid()
      ensures states == InitialStates(flashcards)
      ensures cardsStudied == 0 && correctCount == 0 && streak == 0
      ensures sessionComplete <==> |flashcards| == 0
      ensures !sessionComplete ==> current == PickNext(states, jitter) && !showAnswer
    {
      ResetRecords();
      sessionComplete := false;
      PickNextCard(jitter);
    }

    /** Fresh records for every card and zeroed counters. */
    method ResetRecords()
      modifies this`states, this`cardsStudied, this`correctCount, this`streak
      ensures Consistent() && states == InitialStates(flashcards)
      ensures cardsStudied == 0 && correctCount == 0 && streak == 0
    {
      states := InitialStates(flashcards);
      cardsStudied := 0;
      correctCount := 0;
      streak := 0;
      SumByFresh(flashcards, Answered);
      SumByFresh(flashcards, Correct);
    }
  }
}

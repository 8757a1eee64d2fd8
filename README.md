# UniBrain study modes in Dafny

UniBrain turns notes into a study course: flashcards, a quiz, key terms and
practice questions. The course is studied through several interactive
modes. This project models the logic of those modes and proves what each
one promises:

- **Learn mode** (`learn_mode.dfy`): an adaptive flashcard scheduler. Every
  card has a mastery score in [0, 100] that moves by +25 or −15 on each
  rating. The next card is the unmastered card with the largest weight,
  (100 − mastery) + a random jitter in [0, 20). The session ends once every
  card has been seen and the average mastery is at least 80.
- **Write mode** (`write_mode.dfy`): typed answers. Both answers are
  normalised (lower-case, trim, strip punctuation, collapse white space),
  then compared by equality, containment either way, or a Levenshtein
  similarity above 0.8. The Levenshtein matrix is filled in place and
  proved equal to the recursive edit distance.
- **Match game** (`match_game.dfy`): the first six cards become question and
  answer tiles, shuffled in place by Fisher–Yates. A click state machine
  handles selecting, deselecting, matching and mismatching, and keeps the
  score, move and completion bookkeeping.
- **Quiz** (`quiz.dfy`): one answer slot per question, clamped navigation,
  answers frozen after submit, and the score as a count of right answers.
- **Key terms** (`key_terms.dfy`): a case-insensitive substring filter and a
  single expanded entry.
- **Flashcard carousel and practice-question pager** (`flashcard_list.dfy`,
  `practice_questions.dfy`, with the wrap-around index arithmetic in
  `cyclic.dfy`).
- **Code-fence clean-up** (`fence.dfy`): generated course text loses its
  surrounding "```json" / "```" fences before it is parsed as JSON.
- `text.dfy` holds the JavaScript string operations these rely on, over
  `seq<char>`. `types.dfy` holds the record shapes.

Components are classes whose fields are the component state. Every handler
is a method that makes one atomic state transition. Pure computations (the
card pick, the score, the filter, the normalisation, the similarity) are
functions with lemmas about them. Randomness and time are parameters:

- `jitter[k]` is the value `Math.random() * 20` took for the card at
  position k;
- `js[i]` is the swap index the shuffle drew at position i;
- `now` is the value of `Date.now()`.

The 800 ms timeout after a wrong pair is the separate step
`MatchBoard.TimeoutClear`.

Learn mode identifies cards by their position in the deck, where the source
compares card objects by identity. The two agree as long as no card object
appears twice in a deck.

The comment at `src/components/LearnMode.tsx:90` gives the end condition as
an average above 70. The code at line 94 tests `avgMastery >= 80`. The model
follows the code.

Notable consequences the proofs make precise:

- The similarity test `(L − d) / L > 0.8` is exactly the integer test
  `L > 5·d`. So "pariz" against "paris" (d = 1, L = 5, similarity exactly
  0.8) is rejected by the strict comparison.
- An answer that normalises to the empty string, such as "!!!", passes the
  non-blank check and is accepted against any card, because every string
  contains "".
- Trimming runs before punctuation is stripped, so "paris !" normalises to
  "paris ", with a trailing space.

## Model

| member | source | states |
|---|---|---|
| Text.LowerChar | src/components/WriteMode.tsx:41 | an ASCII capital becomes the small letter 32 code points on; every other character is kept; the result is never an ASCII capital |
| Text.ToLower | src/components/KeyTerms.tsx:24-25 | `toLowerCase` keeps the length and lower-cases each character at its own position |
| Text.IsWhitespace | src/components/WriteMode.tsx:44 | the class `\s` matches and `trim` removes: space, tab, line feed, vertical tab, form feed, carriage return, no-break space, the Unicode space separators U+1680, U+2000–U+200A, U+202F, U+205F, U+3000, the line and paragraph separators and the byte-order mark |
| Text.IsWordChar | src/components/WriteMode.tsx:43 | the class `\w` without the `u` flag: ASCII letters, digits and `_`; `LowerChar` keeps membership in it both ways |
| Text.SkipForward | src/components/WriteMode.tsx:42 | the scan for `trim`'s start stops at the first character that is not white space, and everything it passed is white space |
| Text.SkipBackward | src/components/WriteMode.tsx:42 | the scan for `trim`'s end stops after the last character that is not white space, and everything it passed is white space |
| Text.TrimStart | src/components/WriteMode.tsx:42 | the result is a suffix of the input that does not start with white space, and every character cut is white space |
| Text.Trim | src/lib/gemini.ts:121 | `trim` leaves no white space at either end and returns a contiguous slice of its input, starting at the first character that is not white space; every character outside the slice is white space |
| Text.TrimStartSkips | src/components/WriteMode.tsx:42-44 | start-trimming text that begins with white space is start-trimming the rest |
| Text.TrimStartUnique | src/components/WriteMode.tsx:42 | the start-trimmed suffix is the only suffix preceded by white space alone and not beginning with white space |
| Text.IncludesEmptyAndSelf | src/components/WriteMode.tsx:53-54 | every string includes "" and itself |
| Text.SliceIncluded | src/lib/gemini.ts:123-129 | any slice of a string is included in it |
| Text.IncludesTransitive | src/lib/gemini.ts:121-131 | a substring of a substring is a substring |
| Text.TrimIncluded | src/lib/gemini.ts:121 | the trimmed string is a substring of the original |
| Text.TrimNoEdge | src/lib/gemini.ts:131 | trimming a string with no white space at its ends changes nothing |
| Text.Includes | src/components/WriteMode.tsx:53-54 | `s.includes(p)`: some index i with 0 ≤ i ≤ |s| − |p| at which p occurs in s; characterised by IncludesEmptyAndSelf, SliceIncluded and IncludesTransitive |
| Text.StartsWith | src/lib/gemini.ts:122-125 | `s.startsWith(p)`: p is no longer than s and equals its first |p| characters |
| Text.EndsWith | src/lib/gemini.ts:128 | `s.endsWith(p)`: p is no longer than s and equals its last |p| characters |
| Cyclic.NextIndex | src/components/FlashcardList.tsx:17 | `(i + 1) % n` stays in [0, n): it is i + 1 before the last slide and 0 on the last |
| Cyclic.PrevIndex | src/components/FlashcardList.tsx:22 | `(i - 1 + n) % n` stays in [0, n): it is i − 1 after the first slide and n − 1 on the first |
| Cyclic.PrevNextInverse | src/components/PracticeQuestions.tsx:27-34 | previous after next, and next after previous, return to the starting index |
| Cyclic.Advance | src/components/FlashcardList.tsx:17 | any number of next presses keeps the index in [0, n) |
| Cyclic.AdvanceNoWrap | src/components/FlashcardList.tsx:17 | before reaching the end, k presses move exactly k slides on |
| Cyclic.AdvanceSplit | src/components/FlashcardList.tsx:17 | a + b presses are a presses followed by b presses |
| Cyclic.FullCycle | src/components/FlashcardList.tsx:17 | n presses of next return to the starting slide |
| FlashcardList.Carousel.constructor | src/components/FlashcardList.tsx:11-13 | the carousel starts on the first card, unflipped, in single view |
| FlashcardList.Carousel.HandleNext | src/components/FlashcardList.tsx:15-18 | the index moves to the wrapped next card and stays in range; the card is unflipped; the view mode is kept |
| FlashcardList.Carousel.HandlePrev | src/components/FlashcardList.tsx:20-23 | the index moves to the wrapped previous card and stays in range; the card is unflipped; the view mode is kept |
| FlashcardList.Carousel.Flip | src/components/FlashcardList.tsx:68 | a click turns the card over |
| FlashcardList.Carousel.SetViewMode | src/components/FlashcardList.tsx:38-50 | the view toggle sets the chosen mode |
| PracticeQuestions.Pager.constructor | src/components/PracticeQuestions.tsx:11-14 | the pager starts on the first question with no hint, no sample answer and an empty answer box |
| PracticeQuestions.Pager.HandleNext | src/components/PracticeQuestions.tsx:26-31 | the index moves to the wrapped next question and stays in range; hint, sample answer and typed answer are reset |
| PracticeQuestions.Pager.HandlePrev | src/components/PracticeQuestions.tsx:33-38 | the index moves to the wrapped previous question and stays in range; the view is reset |
| PracticeQuestions.Pager.JumpTo | src/components/PracticeQuestions.tsx:49-54 | a dot click goes to that question and resets the view |
| PracticeQuestions.Pager.RevealHint | src/components/PracticeQuestions.tsx:81 | the hint becomes visible |
| PracticeQuestions.Pager.RevealAnswer | src/components/PracticeQuestions.tsx:111 | the sample answer becomes visible |
| PracticeQuestions.Pager.SetUserAnswer | src/components/PracticeQuestions.tsx:103 | the answer box holds the typed text |
| Fence.CleanJsonString | src/lib/gemini.ts:121-131 | the result has no white space at its ends; it is a substring of the input and no longer than it; a reply without fences is only trimmed; "```json" + X + "```" gives trim(X) when X does not start with "```"; before the final trim at most 10 leading and 3 trailing characters are cut |
| Fence.DropFences | src/lib/gemini.ts:122-130 | the three conditional cuts between the two trims, in the source's order: CutJsonOpen, then CutOpen, then CutClose; DropFencesCuts bounds what they remove and PlainReply shows they keep an unfenced reply |
| Fence.CutJsonOpen | src/lib/gemini.ts:122-124 | drops the first 7 characters exactly when the text starts with "```json", otherwise keeps it |
| Fence.CutOpen | src/lib/gemini.ts:125-127 | drops the first 3 characters exactly when the text starts with "```", otherwise keeps it |
| Fence.CutClose | src/lib/gemini.ts:128-130 | drops the last 3 characters exactly when the text ends with "```", otherwise keeps it |
| Fence.CleanedReply | src/lib/gemini.ts:121-131 | the same properties, proved for the trim-cut-trim composition the method computes |
| Fence.DropFencesCuts | src/lib/gemini.ts:122-130 | the three conditional cuts remove at most 10 leading and 3 trailing characters |
| Fence.PlainReply | src/lib/gemini.ts:122-130 | a reply that neither starts nor ends with "```" goes through the cuts unchanged |
| Fence.JsonFenceOpensFence | src/lib/gemini.ts:122-125 | a reply starting with "```json" also starts with "```" |
| Fence.CutIsSlice | src/lib/gemini.ts:121-131 | what the clean-up keeps is a contiguous piece of the reply and no longer than it |
| Fence.WrappedTrimmed | src/lib/gemini.ts:121 | a fenced block has no white space at its ends, so the first trim leaves it alone |
| Fence.WrappedSteps | src/lib/gemini.ts:122-130 | after "```json" is cut, a second opening fence is found only for a body of backticks, and cutting it still yields the body |
| Fence.WrappedBody | src/lib/gemini.ts:122-130 | "```json" + X + "```" is cut down to X when X does not start with "```" |
| KeyTerms.FilterUpTo | src/components/KeyTerms.tsx:22-26 | the filter keeps no more terms than it scans, and every kept term contains the lower-cased query in its lower-cased name or definition |
| KeyTerms.KeptPositions | src/components/KeyTerms.tsx:22-26 | the positions that meet the search condition, strictly increasing, including every such position |
| KeyTerms.Matches | src/components/KeyTerms.tsx:23-25 | the search condition: the lower-cased query is included in the lower-cased term or in the lower-cased definition |
| KeyTerms.Filter | src/components/KeyTerms.tsx:22-26 | `filteredTerms`: the filter over the whole list; FilterIsSubsequence and FilterComplete show it is exactly the matching terms in order |
| KeyTerms.FilterIsSubsequence | src/components/KeyTerms.tsx:22 | the filtered list is exactly the terms at those positions, in order |
| KeyTerms.FilterComplete | src/components/KeyTerms.tsx:22-26 | every term that meets the search condition is shown |
| KeyTerms.EmptyQueryKeepsAll | src/components/KeyTerms.tsx:24-25 | the empty query keeps every term, in order |
| KeyTerms.QueryCaseIgnored | src/components/KeyTerms.tsx:24-25 | the query's letter case does not change the result |
| KeyTerms.FilterSameCondition | src/components/KeyTerms.tsx:24-25 | queries that lower-case alike filter alike |
| KeyTerms.KeyTermsView.constructor | src/components/KeyTerms.tsx:11-12 | the view starts with an empty query and nothing expanded |
| KeyTerms.KeyTermsView.Shown | src/components/KeyTerms.tsx:22-26 | the terms rendered for the current query: Filter(terms, searchQuery), recomputed from the view's state on every render |
| KeyTerms.KeyTermsView.SetSearchQuery | src/components/KeyTerms.tsx:48 | typing replaces the query and leaves the expanded position as it was |
| KeyTerms.KeyTermsView.ToggleTerm | src/components/KeyTerms.tsx:62 | a header click collapses the expanded term, or expands the clicked one |
| Quiz.ScoreUpTo | src/components/QuizList.tsx:57-59 | the score over n slots is at most n |
| Quiz.Hit | src/components/QuizList.tsx:58 | slot i holds exactly the right answer of question i (`answer === quiz[index].answer`; a null slot never hits) |
| Quiz.Score | src/components/QuizList.tsx:57-59 | `score`: the reduce over every slot, at most the number of questions; ScoreCountsHits shows it is the number of slots that hit |
| Quiz.ScoreCountsHits | src/components/QuizList.tsx:57-59 | the score is the number of questions whose slot holds the right answer |
| Quiz.ScoreAtMostAnswered | src/components/QuizList.tsx:57-59 | empty slots never score: the score is at most the number of filled slots |
| Quiz.ScoreAfterUpdate | src/components/QuizList.tsx:26-31 | changing one slot moves the score by that slot's contribution only |
| Quiz.NoAnswers | src/components/QuizList.tsx:12-14 | the initial answer sheet has one empty slot per question |
| Quiz.AllAnswered | src/components/QuizList.tsx:61 | `every(answer => answer !== null)`: no slot is empty; NoAnswersScoreZero shows a fresh sheet is all-answered only for an empty quiz |
| Quiz.NoAnswersScoreZero | src/components/QuizList.tsx:51 | an empty answer sheet scores 0 and counts as all answered only for an empty quiz |
| Quiz.QuizSession.constructor | src/components/QuizList.tsx:11-16 | the quiz starts on question 0 with all slots empty and no results |
| Quiz.QuizSession.SelectAnswer | src/components/QuizList.tsx:26-31 | before submit, only the current slot is written; after submit, nothing changes; one slot per question is kept |
| Quiz.QuizSession.Next | src/components/QuizList.tsx:33-37 | one question on, stopping at the last, never out of range |
| Quiz.QuizSession.Prev | src/components/QuizList.tsx:39-43 | one question back, stopping at the first |
| Quiz.QuizSession.JumpTo | src/components/QuizList.tsx:156 | a progress-bar click goes to any valid question |
| Quiz.QuizSession.Submit | src/components/QuizList.tsx:45-48 | with every slot filled, submit marks the quiz submitted and shows the results; from then on `SelectAnswer` changes no slot |
| Quiz.QuizSession.Reset | src/components/QuizList.tsx:50-55 | all slots empty, no results, back to question 0 |
| LearnMode.Fresh | src/components/LearnMode.tsx:29-35 | a new record has mastery 0, both counters 0 and `lastSeen` 0 |
| LearnMode.InitialStates | src/components/LearnMode.tsx:29-35 | one fresh record per card, in deck order |
| LearnMode.NewMastery | src/components/LearnMode.tsx:65-67 | `Math.min(100, m + 25)` when the card was known, `Math.max(0, m - 15)` otherwise; NewMasteryInRange and RepeatedKnowledgeMasters state its range, direction and iterate |
| LearnMode.NewMasteryInRange | src/components/LearnMode.tsx:65-67 | mastery stays in [0, 100]; a known card never loses mastery and gains unless already at 100; an unknown card never gains and loses unless at 0 |
| LearnMode.Respond | src/components/LearnMode.tsx:69-75 | the response keeps the card, stamps `lastSeen`, and raises exactly one of the two counters by 1 |
| LearnMode.RespondWellFormed | src/components/LearnMode.tsx:63-78 | fresh records are well-formed, and a response at a positive time keeps a record well-formed and marks it seen |
| LearnMode.RepeatedKnowledgeMasters | src/components/LearnMode.tsx:65-66 | k correct answers add 25 each up to 100, so four take a new card to full mastery |
| LearnMode.Weight | src/components/LearnMode.tsx:52 | `(100 - mastery) + Math.random() * 20`, with the random part a parameter in [0, 20); PickNearLeastMastered and LowerMasteryOutranks state its effect on the pick |
| LearnMode.Heaviest | src/components/LearnMode.tsx:42-56 | no card is picked exactly when every card is mastered; otherwise the pick is unmastered, of maximal weight, and the first such card in deck order (the stable sort) |
| LearnMode.PickNext | src/components/LearnMode.tsx:40-56 | the card `pickNextCard` presents: none when no card is below 100 mastery, otherwise the first heaviest unmastered card (FirstHeaviestIsPicked) |
| LearnMode.FirstHeaviestIsPicked | src/components/LearnMode.tsx:55-56 | any first heaviest unmastered card is the one picked |
| LearnMode.PickNearLeastMastered | src/components/LearnMode.tsx:50-56 | with jitter in [0, 20), a card is picked whenever one is unmastered, and its mastery is below any unmastered card's mastery + 20 |
| LearnMode.LowerMasteryOutranks | src/components/LearnMode.tsx:50-56 | a card 20 or more mastery points above some unmastered card is never picked |
| LearnMode.SumByUpdate | src/components/LearnMode.tsx:91 | replacing one record changes a total by the difference of the two records |
| LearnMode.SumBy | src/components/LearnMode.tsx:91 | the reduce `(sum, s) => sum + f(s)` from 0 over the records in order; SumByUpdate, SumByFresh and MasterySumBounds characterise it |
| LearnMode.AllSeen | src/components/LearnMode.tsx:92 | `every(s => s.lastSeen > 0)`: every card has been answered at a positive time |
| LearnMode.Average | src/components/LearnMode.tsx:91 | `avgMastery` on a non-empty deck: the mastery total over the number of cards, as a real quotient; AverageThreshold ties it to the total |
| LearnMode.SumByFresh | src/components/LearnMode.tsx:101-113 | totals over fresh records are zero |
| LearnMode.MasterySumBounds | src/components/LearnMode.tsx:91 | summed mastery lies between 0 and 100 per card |
| LearnMode.AverageThreshold | src/components/LearnMode.tsx:91-94 | the average reaches 80 exactly when the mastery total reaches 80 per card |
| LearnMode.Completes | src/components/LearnMode.tsx:91-94 | `allSeen && avgMastery >= 80` on a non-empty deck; AllMasteredCompletes shows an all-mastered deck meets it |
| LearnMode.AllMasteredCompletes | src/components/LearnMode.tsx:91-95 | a deck whose cards are all mastered and seen meets the end condition |
| LearnMode.AllMasteredSum | src/components/LearnMode.tsx:91 | all-mastered cards sum to 100 per card |
| LearnMode.LearnSession.constructor | src/components/LearnMode.tsx:28-38 | fresh records, zeroed counters, and the first pick; an empty deck is complete at once |
| LearnMode.LearnSession.PickNextCard | src/components/LearnMode.tsx:40-58 | with no unmastered card the session is marked complete and nothing is chosen; otherwise the first heaviest card is presented with its answer hidden |
| LearnMode.LearnSession.RevealAnswer | src/components/LearnMode.tsx:227 | a click on the card reveals its answer |
| LearnMode.LearnSession.HandleResponse | src/components/LearnMode.tsx:60-99 | only the presented card's record changes, and mastered cards stay untouched; `cardsStudied` +1, and `correctCount`/`streak` +1 or `streak` reset to 0; the session completes exactly when all cards are seen with average mastery ≥ 80, otherwise the next card is picked; the counters always equal the totals over the records |
| LearnMode.LearnSession.RecordResponse | src/components/LearnMode.tsx:63-88 | the bookkeeping half: the presented card's record is replaced by the response and the counters move as above, staying equal to the totals |
| LearnMode.LearnSession.NextCardExists | src/components/LearnMode.tsx:94-97 | a deck that does not meet the end condition still has an unmastered card, so the next pick succeeds |
| LearnMode.LearnSession.HandleRestart | src/components/LearnMode.tsx:101-115 | fresh records, zeroed counters, the session reopened, and a new first pick |
| LearnMode.LearnSession.ResetRecords | src/components/LearnMode.tsx:102-113 | fresh records and zeroed counters that agree with them |
| WriteMode.StripPunctuation | src/components/WriteMode.tsx:43 | stripping keeps only word characters and white space, never lengthens, and leaves text with nothing to strip unchanged |
| WriteMode.StripConcat | src/components/WriteMode.tsx:43 | stripping works character by character: the strip of a concatenation is the concatenation of the strips |
| WriteMode.StripSnoc | src/components/WriteMode.tsx:43 | one more character adds exactly that character when it is a word character or white space, and nothing otherwise; so the result is exactly the kept characters in order |
| WriteMode.StripLower | src/components/WriteMode.tsx:41-43 | text without upper-case letters keeps none after stripping |
| WriteMode.CollapseWhitespace | src/components/WriteMode.tsx:44 | collapsing never lengthens, keeps empty exactly the empty string, turns a leading white-space run into one space, and leaves no two adjacent spaces |
| WriteMode.ScanSkipsRun | src/components/WriteMode.tsx:44 | inside a white-space run the rest of the run produces nothing |
| WriteMode.CollapseIsScan | src/components/WriteMode.tsx:44 | collapsing equals the character-by-character scan: every non-space character is copied in order, the first character of each white-space run becomes one space and the rest of the run is dropped |
| WriteMode.CollapsedChars | src/components/WriteMode.tsx:43-44 | collapsing lower-case, punctuation-free text leaves only lower-case word characters and spaces |
| WriteMode.NormalizeShape | src/components/WriteMode.tsx:39-45 | a normalised answer holds only lower-case ASCII word characters and spaces, never two spaces in a row |
| WriteMode.Normalize | src/components/WriteMode.tsx:39-45 | `normalizeAnswer`: lower-case, trim, strip punctuation, collapse white space, in that order; NormalizeShape, NormalWordFixed and NormalizeIgnoresCase characterise it |
| WriteMode.TrimmedLower | src/components/WriteMode.tsx:41-42 | trimming lower-cased text leaves no upper-case letter |
| WriteMode.TrimNoUpper | src/components/WriteMode.tsx:42 | trimming text without upper-case letters adds none |
| WriteMode.Min3 | src/components/WriteMode.tsx:88-92 | `Math.min` of three values is one of them and at most each |
| WriteMode.EditDistance | src/components/WriteMode.tsx:72-98 | the Levenshtein recurrence the matrix fills in (unit insertion, deletion and substitution on prefixes); symmetric, bounded by the length difference and the longer length, and 0 exactly on equal strings (the three lemmas below); LevenshteinDistance computes it |
| WriteMode.EditDistanceSymmetric | src/components/WriteMode.tsx:72-98 | the edit distance does not depend on the order of its arguments |
| WriteMode.EditDistanceBounds | src/components/WriteMode.tsx:72-98 | the distance lies between the difference of the lengths and the longer length |
| WriteMode.EditDistanceZeroIff | src/components/WriteMode.tsx:72-98 | the distance is 0 exactly when the strings are equal |
| WriteMode.LevenshteinDistance | src/components/WriteMode.tsx:72-98 | the matrix computation returns the edit distance of its arguments |
| WriteMode.FillRow | src/components/WriteMode.tsx:84-94 | one pass of the inner loop makes row i hold the distances from the first i characters of one string to every prefix of the other, keeping the rows above |
| WriteMode.EditDistancePrefixStep | src/components/WriteMode.tsx:75-92 | the edge cells and the inner-cell recurrence of the matrix, stated for prefixes |
| WriteMode.RatioAboveFourFifths | src/components/WriteMode.tsx:55-69 | for a positive length L, (L − d) / L > 0.8 exactly when L > 5·d |
| WriteMode.FractionOfLength | src/components/WriteMode.tsx:69 | a count out of a positive length is in [0, 1] and is 1 exactly when the count is the whole length |
| WriteMode.Similarity | src/components/WriteMode.tsx:62-70 | `calculateSimilarity`: always in [0, 1], and 1 exactly when the two strings are equal; 1 for two empty strings, otherwise (L − d)/L (SimilarityIsRatio) |
| WriteMode.SimilarityIsRatio | src/components/WriteMode.tsx:62-70 | for non-empty input the similarity is (L − d) / L, with d the distance in either order |
| WriteMode.SimilarityAboveIff | src/components/WriteMode.tsx:55-69 | for non-empty input the similarity exceeds 0.8 exactly when L > 5·d |
| WriteMode.SimilarityThreshold | src/components/WriteMode.tsx:55-70 | the similarity test passes exactly when both strings are empty or L > 5·d |
| WriteMode.SimilaritySymmetric | src/components/WriteMode.tsx:62-69 | similarity does not depend on the order of its arguments, including at equal lengths |
| WriteMode.GradeSymmetric | src/components/WriteMode.tsx:52-55 | grading (u, r) gives the same verdict as grading (r, u) |
| WriteMode.IsCorrect | src/components/WriteMode.tsx:52-55 | the verdict on two normalised answers: equal, either includes the other, or similarity above 0.8 |
| WriteMode.Grade | src/components/WriteMode.tsx:48-55 | `checkAnswer`'s verdict: IsCorrect on the normalised typed answer and the normalised card answer; GradeBySimilarity, GradeSymmetric and GradeIgnoresCase characterise it |
| WriteMode.ContainmentAccepted | src/components/WriteMode.tsx:52-54 | equal normalised answers, or one containing the other, are accepted |
| WriteMode.EmptyAnswerAccepted | src/components/WriteMode.tsx:52-54 | an answer that normalises to "" is accepted against any reference |
| WriteMode.GradeBySimilarity | src/components/WriteMode.tsx:52-55 | the verdict is equality, containment either way, both empty, or L > 5·d on the normalised answers |
| WriteMode.ToLowerNoUpper | src/components/WriteMode.tsx:41 | lower-casing leaves text without upper-case letters unchanged |
| WriteMode.CollapseNoWhitespace | src/components/WriteMode.tsx:44 | collapsing leaves text without white space unchanged |
| WriteMode.LowerWordCharClass | src/components/WriteMode.tsx:43 | a lower-case word character is not white space, is kept, and is not upper-case |
| WriteMode.LowerWordUnchangedByToLower | src/components/WriteMode.tsx:41 | a lower-case word survives lower-casing |
| WriteMode.LowerWordUnchangedByTrim | src/components/WriteMode.tsx:42 | a lower-case word survives trimming |
| WriteMode.LowerWordUnchangedByStrip | src/components/WriteMode.tsx:43 | a lower-case word survives punctuation stripping |
| WriteMode.LowerWordUnchangedByCollapse | src/components/WriteMode.tsx:44 | a lower-case word survives white-space collapsing |
| WriteMode.NormalWordFixed | src/components/WriteMode.tsx:39-45 | a single lower-case word is its own normal form |
| WriteMode.StripWordBang | src/components/WriteMode.tsx:43 | stripping a word followed by " !" drops only the "!" |
| WriteMode.CollapseWordSpace | src/components/WriteMode.tsx:44 | a word followed by one space is unchanged by collapsing |
| WriteMode.TrailingSpaceSurvives | src/components/WriteMode.tsx:39-45 | because trimming precedes stripping, a word followed by " !" normalises to the word plus a trailing space |
| WriteMode.LowerTrimWordBang | src/components/WriteMode.tsx:41-42 | a lower-case word followed by " !" is unchanged by lower-casing and trimming |
| WriteMode.ToLowerIdempotent | src/components/WriteMode.tsx:41 | lower-casing twice is lower-casing once |
| WriteMode.NormalizeIgnoresCase | src/components/WriteMode.tsx:39-45 | an answer and its lower-cased form normalise alike |
| WriteMode.GradeIgnoresCase | src/components/WriteMode.tsx:47-55 | letter case in either answer does not change the verdict |
| WriteMode.ParizDistance | src/components/WriteMode.tsx:72-98 | "pariz" and "paris" are at distance 1 |
| WriteMode.ParizNotContained | src/components/WriteMode.tsx:53-54 | neither of "pariz" and "paris" contains the other |
| WriteMode.ParizRejected | src/components/WriteMode.tsx:52-55 | "pariz" against "paris" has similarity exactly 0.8 and is rejected by the strict test |
| WriteMode.CalculateSimilarity | src/components/WriteMode.tsx:62-70 | `calculateSimilarity` computed through the matrix returns the similarity: 1 for two empty strings, (L − d) / L otherwise |
| WriteMode.CheckVerdict | src/components/WriteMode.tsx:47-55 | the verdict `checkAnswer` computes is the grade of the typed answer against the card's answer |
| WriteMode.WriteSession.constructor | src/components/WriteMode.tsx:17-22 | the session starts on the first card with no answer, no results and not complete |
| WriteMode.WriteSession.SetUserAnswer | src/components/WriteMode.tsx:233 | the answer box holds the typed text |
| WriteMode.WriteSession.CheckAnswer | src/components/WriteMode.tsx:47-60 | the verdict is shown, it is the grade of the typed answer, and exactly one result is appended with the earlier ones unchanged |
| WriteMode.WriteSession.ShowVerdict | src/components/WriteMode.tsx:57-59 | the given verdict is shown and recorded as one new result |
| WriteMode.WriteSession.HandleNext | src/components/WriteMode.tsx:100-108 | before the last card: next card, answer cleared, verdict hidden; on the last card: the game completes; results and the shown verdict are kept |
| WriteMode.WriteSession.HandleKeyDown | src/components/WriteMode.tsx:110-118 | Enter after a verdict moves to the next card or completes the game on the last, as HandleNext does; Enter on a non-blank answer grades it with Grade and records exactly one result; any other key, or Enter on a blank answer, changes nothing |
| WriteMode.WriteSession.HandleRestart | src/components/WriteMode.tsx:120-126 | back to the first card, answer cleared, no results, verdict hidden, not complete |
| WriteMode.WriteSession.OverrideCorrect | src/components/WriteMode.tsx:128-133 | the last result becomes correct and the verdict shows correct; earlier results, the card, the typed answer and the completion flag are unchanged |
| WriteMode.MarkLastCorrect | src/components/WriteMode.tsx:129-130 | the override keeps the length, makes the last result correct while keeping its card and typed answer, and leaves the others as they were |
| WriteMode.MarkLastCorrectIdempotent | src/components/WriteMode.tsx:128-133 | overriding twice is overriding once |
| MatchGame.PairCount | src/components/MatchGame.tsx:30 | `slice(0, 6)` keeps min(n, 6) cards |
| MatchGame.BuiltItem | src/components/MatchGame.tsx:33-47 | the tile pushed at position i: the question of card i/2, kind question, at even i, its answer at odd i, unmatched, with the card's index |
| MatchGame.Built | src/components/MatchGame.tsx:30-48 | 2·min(n, 6) unmatched tiles: for each card k, the question tile `q-k` with its question at 2k and the answer tile `a-k` with its answer at 2k + 1 |
| MatchGame.BuiltDistinct | src/components/MatchGame.tsx:35-42 | the built tiles have distinct ids |
| MatchGame.Swap | src/components/MatchGame.tsx:53 | the destructuring swap exchanges two positions and keeps the rest |
| MatchGame.ShuffleFrom | src/components/MatchGame.tsx:51-54 | the swaps of the shuffle loop from position i down to 1, with the drawn index for each; ShuffleFromPermutes and ShuffleFromDistinct characterise it |
| MatchGame.Shuffle | src/components/MatchGame.tsx:51-54 | the whole Fisher–Yates loop from the last position down; ShufflePermutes and ShuffleDistinct show it permutes and keeps ids distinct, ShuffleItems that the in-place loop computes it |
| MatchGame.SwapPermutes | src/components/MatchGame.tsx:53 | a swap is a permutation |
| MatchGame.ShuffleFromPermutes | src/components/MatchGame.tsx:51-54 | the remaining swaps of the loop yield a permutation of the same length |
| MatchGame.ShufflePermutes | src/components/MatchGame.tsx:51-54 | for any swap indices with j ≤ i, the shuffle yields a permutation of its input |
| MatchGame.SwapDistinct | src/components/MatchGame.tsx:53 | a swap keeps the ids distinct |
| MatchGame.ShuffleFromDistinct | src/components/MatchGame.tsx:51-54 | the remaining swaps keep the ids distinct |
| MatchGame.ShuffleDistinct | src/components/MatchGame.tsx:51-54 | the shuffle keeps the ids distinct |
| MatchGame.DealtTiles | src/components/MatchGame.tsx:29-56 | the dealt tiles are a permutation of the built ones, with distinct ids and none matched |
| MatchGame.PermutationUnmatched | src/components/MatchGame.tsx:38-45 | a permutation of unmatched tiles has none matched |
| MatchGame.CountMatched | src/components/MatchGame.tsx:101 | the matched count is at most the number of tiles |
| MatchGame.NoneMatched | src/components/MatchGame.tsx:101 | with no tile matched the count is 0 |
| MatchGame.AllMatchedIff | src/components/MatchGame.tsx:101-102 | the count equals the number of tiles exactly when every tile is matched |
| MatchGame.MarkMatched | src/components/MatchGame.tsx:94-96 | exactly the tiles of the given card become matched; the others are unchanged |
| MatchGame.UnmatchedOf | src/components/MatchGame.tsx:94-101 | how many tiles of card k are still unmatched: what marking that card adds to the matched count (MarkMatchedCount) |
| MatchGame.MarkMatchedCount | src/components/MatchGame.tsx:94-101 | marking a card adds its unmatched tiles to the count |
| MatchGame.MarkMatchedIds | src/components/MatchGame.tsx:94-96 | marking keeps the ids distinct |
| MatchGame.UnmatchedOfPair | src/components/MatchGame.tsx:94-101 | when the two unmatched tiles of a card are its only tiles, it has two unmatched tiles |
| MatchGame.OnlyPair | src/components/MatchGame.tsx:92 | with distinct ids, a question and an answer of one card are that card's only tiles |
| MatchGame.IsMatch | src/components/MatchGame.tsx:92 | two tiles match when they have the same card index and different kinds |
| MatchGame.MatchCounts | src/components/MatchGame.tsx:94-104 | a match adds exactly two to the count, keeps ids distinct, and the count reaches the tile count exactly when every tile is matched |
| MatchGame.MatchBoard.constructor | src/components/MatchGame.tsx:66-68 | the board mounts with a first deal |
| MatchGame.MatchBoard.InitGame | src/components/MatchGame.tsx:29-64 | the tiles are the built tiles shuffled by the given indices; selection, wrong pair, score, moves and completion are reset |
| MatchGame.MatchBoard.HandleClick | src/components/MatchGame.tsx:81-114 | a click on a matched or wrong-pair tile changes nothing; with nothing selected it selects; on the selected tile it deselects without a move; neither touches the tiles, the score, the wrong pair or the completion flag; otherwise one move is counted, and a match (same card, different kind) marks exactly that card's tiles, scores 1, clears the selection and completes the game exactly when every tile is matched, while a mismatch records both ids as the wrong pair; the board keeps two tiles per dealt card, and score ≤ moves and score ≤ the number of pairs always |
| MatchGame.MatchBoard.ApplyMatch | src/components/MatchGame.tsx:94-104 | the match branch: that card's tiles are matched, score +1, selection cleared, completion exactly when every tile is matched |
| MatchGame.MatchBoard.TimeoutClear | src/components/MatchGame.tsx:108-111 | the delayed step clears the wrong pair and the selection |
| MatchGame.Deal | src/components/MatchGame.tsx:31-54 | building and shuffling in place deals exactly the shuffled built tiles |
| MatchGame.BuildItems | src/components/MatchGame.tsx:31-48 | the push loop fills a fresh array with the built tiles |
| MatchGame.ShuffleItems | src/components/MatchGame.tsx:51-54 | the in-place loop leaves the array holding the shuffle of its old contents |

## Left out

- Text.ToLower: lower-cases only the ASCII letters. JavaScript's `toLowerCase` also maps other Unicode letters, so an answer with such letters can normalise differently. `\w` is the ASCII class of a regular expression without the `u` flag. `\s` and `trim` use one fixed set of white-space characters (space, tab, the line terminators, no-break space and the Unicode space separators).
- `Math.random`, `Date.now` and `setTimeout` are parameters (jitter, swap indices, the response time) or an explicit step (`MatchBoard.TimeoutClear`). Nothing constrains the jitter beyond [0, 20), or the swap indices beyond `j ≤ i`.
- Floating-point arithmetic: the similarity and the average mastery are exact real numbers. Double rounding is not modelled; for strings of realistic length it does not change the outcome of `> 0.8` or `>= 80`.
- Display arithmetic: accuracy percentages, progress bars and the elapsed-time clock of the match game.
- LearnMode.LearnSession.HandleResponse: matches the presented card by its position, where the source compares card objects by identity. A deck holding the same card object twice would update both copies in the source.
- The init effects that re-run when the deck prop changes are modelled only as the constructors. React batching, stale closures and re-rendering are not modelled: each handler is one atomic transition on the current state.
- The `!terms` / `!questions` null checks: the lists are always present here.
- The speech components, the AI tutor, the pages, the API routes, and the Gemini, Stripe and Supabase clients are not part of this model. Only the fence clean-up of the Gemini reply is modelled, not the request or the JSON parse.

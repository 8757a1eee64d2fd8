/** The record shapes the study components receive from a generated course. */
module Types {

  /** A flashcard: a question `q` and its answer `a`. */
  datatype Flashcard = Flashcard(q: string, a: string)

  /** A multiple-choice question; `answer` is the text of the right option. */
  datatype QuizQuestion = QuizQuestion(q: string, options: seq<string>, answer: string)

  /** A glossary entry. */
  datatype KeyTerm = KeyTerm(term: string, definition: string)

  /** An open practice question with an optional hint. */
  datatype PracticeQuestion = PracticeQuestion(question: string, hint: Option<string>, sampleAnswer: string)

  datatype Option<T> = None | Some(value: T)
}

/** The record shapes of the study application (types.ts), as Dafny values. */
module Types {

  datatype Option<+T> = None | Some(value: T)

  datatype Result<+R, +E> = Success(value: R) | Failure(error: E)

  /** A position in document space: screen offset divided by the zoom. */
  datatype Point = Point(x: real, y: real)

  /** `Annotation.type`: only 'draw' or 'highlight'. */
  datatype AnnotationKind = Draw | Highlight

  /** One committed freehand stroke; `width` is in document units (unscaled). */
  datatype Annotation = Annotation(
    id: string,
    kind: AnnotationKind,
    points: seq<Point>,
    color: string,
    width: real,
    opacity: real)

  datatype DocumentKind = Pdf | Image

  datatype DocumentData = DocumentData(
    id: string,
    name: string,
    kind: DocumentKind,
    url: string,
    annotations: seq<Annotation>)

  datatype Mastery = New | Learning | Mastered

  datatype Flashcard = Flashcard(
    id: string,
    question: string,
    answer: string,
    notebookId: string,
    createdAt: int,
    masteryLevel: Mastery)

  datatype Notebook = Notebook(
    id: string,
    name: string,
    documents: seq<DocumentData>,
    flashcards: seq<Flashcard>)

  /** A generated multiple-choice question; `opcoes` maps option keys to their text. */
  datatype QuizQuestion = QuizQuestion(
    banca: string,
    tema: string,
    enunciado: string,
    opcoes: map<string, string>,
    respostaCorreta: string,
    explicacao: string)

  /** One entry of a session snapshot: a copy of the question, the answer given
      (None stands for JavaScript's `undefined`), and whether it was right. */
  datatype QuestionResult = QuestionResult(
    question: QuizQuestion,
    userAnswer: Option<string>,
    isCorrect: bool)

  datatype QuizSessionResult = QuizSessionResult(
    id: string,
    notebookId: string,
    timestamp: int,
    totalQuestions: nat,
    correctAnswers: nat,
    questions: seq<QuestionResult>)

  datatype UserStats = UserStats(
    dailyGoal: int,
    dailyQuestionGoal: int,
    goalsBySubject: map<string, int>,
    cardsReviewedToday: int,
    questionsAnsweredToday: int,
    reviewsBySubject: map<string, int>,
    streak: int,
    lastStudyTimestamp: int,
    totalReviews: int,
    quizHistory: seq<QuizSessionResult>)

  datatype ViewState =
    | Home | Stats | Notebooks | Flashcards | Study | Quiz | NotebooksList | QuizHistory | QuizReview

  /** The four annotation tools; there is no 'select' tool. */
  datatype Tool = Pen | Highlighter | Eraser | Scroll
}

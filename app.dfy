/** The application state of App.tsx: the notebooks, the user's statistics,
    the quiz session (`currentQuiz`, `quizIndex`, `quizAnswers`,
    `showQuizResult`) with its scoring, and the handlers that insert
    notebooks, flashcards and documents. */
module App {
  import opened Types
  import opened JsString
  import GeminiService
  import StudyAnalytics

  const GlobalNotebookId: string := "global"
  const SeedNotebookId: string := "seed-nb-1"
  const SeedNotebookName: string := "Direito Constitucional"
  const LineBreakMarkup: string := "<br>"
  const PdfMimeType: string := "application/pdf"

  /** The statistics a first run starts from; `now` stands for `Date.now()`. */
  function InitialStats(now: int): UserStats {
    UserStats(20, 10, map[SeedNotebookId := 10], 0, 0, map[], 0, now, 0, [])
  }

  /** On a first run the per-subject goal (10 cards) takes precedence over the global 20. */
  lemma InitialCardGoal(now: int)
    ensures StudyAnalytics.TotalCardsGoal(InitialStats(now)) == 10
  {
    var m := InitialStats(now).goalsBySubject;
    StudyAnalytics.SumOverRemove(m, m.Keys, SeedNotebookId);
    assert m.Keys - {SeedNotebookId} == {};
  }

  /** The flashcard of the seed notebook; `now` stands for `Date.now()`. */
  const SeedQuestion: string := "<b>Quais são os fundamentos da República Federativa do Brasil?</b>"
  const SeedAnswer: string :=
    "I - a soberania; " + "II - a cidadania; " + "III - a dignidade da pessoa humana; "
    + "IV - os valores sociais do trabalho e da livre iniciativa; " + "V - o pluralismo político."

  function SeedFlashcard(now: int): Flashcard {
    Flashcard("seed-1", SeedQuestion, SeedAnswer, SeedNotebookId, now, New)
  }

  /** What an empty store is seeded with: one notebook holding the seed card. */
  function SeedNotebooks(now: int): seq<Notebook> {
    [Notebook(SeedNotebookId, SeedNotebookName, [], [SeedFlashcard(now)])]
  }

  /** The seed card belongs to the seed notebook, and a quiz started on a
      fresh store draws on it. */
  lemma SeedNotebooksHoldSeedCard(now: int)
    ensures var nbs := SeedNotebooks(now);
      && |nbs| == 1 && nbs[0].id == SeedNotebookId
      && nbs[0].flashcards == [SeedFlashcard(now)]
      && SeedFlashcard(now).notebookId == nbs[0].id
      && TargetCards(nbs, Some(SeedNotebookId)) == [SeedFlashcard(now)]
      && TargetCards(nbs, None) == [SeedFlashcard(now)]
  {
    var nbs := SeedNotebooks(now);
    assert AllFlashcards(nbs) == AllFlashcards(nbs[..0]) + nbs[0].flashcards;
  }

  // ---------------------------------------------------------------------------
  // Lookups

  /** `activeNotebookId || 'global'`: a missing or empty id files under "global". */
  function NotebookIdOrGlobal(active: Option<string>): (r: string)
    ensures r != []
    ensures active.Some? && active.value != [] ==> r == active.value
    ensures active.None? || active.value == [] ==> r == GlobalNotebookId
  {
    if active.Some? && active.value != [] then active.value else GlobalNotebookId
  }

  /** `notebooks.find(nb => nb.id === activeNotebookId)`. */
  function FindNotebook(notebooks: seq<Notebook>, id: Option<string>): Option<Notebook> {
    if id.None? || notebooks == [] then None
    else if notebooks[0].id == id.value then Some(notebooks[0])
    else FindNotebook(notebooks[1..], id)
  }

  /** The lookup finds nothing exactly when no notebook carries the id, and
      otherwise returns the first notebook that does. */
  lemma {:induction false} FindNotebookSpec(notebooks: seq<Notebook>, id: Option<string>)
    ensures var r := FindNotebook(notebooks, id);
      && (r.None? <==> id.None? || forall i :: 0 <= i < |notebooks| ==> notebooks[i].id != id.value)
      && (r.Some? ==> exists i :: (0 <= i < |notebooks| && notebooks[i] == r.value &&
            r.value.id == id.value && forall j :: 0 <= j < i ==> notebooks[j].id != id.value))
  {
    if id.Some? && notebooks != [] && notebooks[0].id != id.value {
      var tail := notebooks[1..];
      FindNotebookSpec(tail, id);
      var r := FindNotebook(tail, id);
      assert forall i :: 1 <= i < |notebooks| ==> notebooks[i] == tail[i - 1];
      if r.Some? {
        var i :| 0 <= i < |tail| && tail[i] == r.value &&
          r.value.id == id.value && forall j :: 0 <= j < i ==> tail[j].id != id.value;
        assert notebooks[i + 1] == r.value;
      }
    }
  }

  /** `notebooks.flatMap(nb => nb.flashcards)`. */
  function AllFlashcards(notebooks: seq<Notebook>): seq<Flashcard> {
    if notebooks == [] then []
    else AllFlashcards(notebooks[..|notebooks| - 1]) + notebooks[|notebooks| - 1].flashcards
  }

  /** The flattened list holds exactly the cards of the notebooks. */
  lemma {:induction false} AllFlashcardsMembers(notebooks: seq<Notebook>)
    ensures forall c :: c in AllFlashcards(notebooks) <==>
      exists i :: 0 <= i < |notebooks| && c in notebooks[i].flashcards
  {
    if notebooks != [] {
      var init := notebooks[..|notebooks| - 1];
      AllFlashcardsMembers(init);
      assert forall i :: 0 <= i < |init| ==> init[i] == notebooks[i];
    }
  }

  /** The cards a quiz is generated from: the active notebook's, or every card
      when no notebook with the active id exists. */
  function TargetCards(notebooks: seq<Notebook>, active: Option<string>): seq<Flashcard> {
    match FindNotebook(notebooks, active)
    case Some(nb) => nb.flashcards
    case None => AllFlashcards(notebooks)
  }

  // ---------------------------------------------------------------------------
  // Scoring

  /** An answer counts as given when it is present and not the empty string
      (the source tests `!quizAnswers[i]`). */
  predicate Answered(answers: map<nat, string>, i: nat) {
    i in answers && answers[i] != []
  }

  /** `quizAnswers[idx]`, with None for `undefined`. */
  function AnswerAt(answers: map<nat, string>, i: nat): Option<string> {
    if i in answers then Some(answers[i]) else None
  }

  /** `quizAnswers[idx] === q.respostaCorreta`: an exact string match. */
  predicate IsMatch(quiz: seq<QuizQuestion>, answers: map<nat, string>, i: nat)
    requires i < |quiz|
  {
    i in answers && answers[i] == quiz[i].respostaCorreta
  }

  /** The `reduce` that counts correct answers. */
  function CountCorrect(quiz: seq<QuizQuestion>, answers: map<nat, string>): (r: nat)
    ensures r <= |quiz|
  {
    if quiz == [] then 0
    else
      var n := |quiz| - 1;
      CountCorrect(quiz[..n], answers) + (if IsMatch(quiz, answers, n) then 1 else 0)
  }

  /** The indices whose answer matches. */
  function MatchingIndices(quiz: seq<QuizQuestion>, answers: map<nat, string>): set<nat> {
    set i: nat | i < |quiz| && IsMatch(quiz, answers, i)
  }

  /** The count is the number of matching indices. */
  lemma {:induction false} CountCorrectCountsMatches(quiz: seq<QuizQuestion>, answers: map<nat, string>)
    ensures CountCorrect(quiz, answers) == |MatchingIndices(quiz, answers)|
  {
    if quiz != [] {
      var n := |quiz| - 1;
      CountCorrectCountsMatches(quiz[..n], answers);
      MatchingIndicesSplit(quiz, answers);
      assert n !in MatchingIndices(quiz[..n], answers);
    }
  }

  lemma MatchingIndicesSplit(quiz: seq<QuizQuestion>, answers: map<nat, string>)
    requires quiz != []
    ensures var n := |quiz| - 1;
      MatchingIndices(quiz, answers)
      == MatchingIndices(quiz[..n], answers) + (if IsMatch(quiz, answers, n) then {n} else {})
  {
    var n := |quiz| - 1;
    var extra: set<nat> := if IsMatch(quiz, answers, n) then {n} else {};
    forall i: nat | i < n
      ensures IsMatch(quiz[..n], answers, i) == IsMatch(quiz, answers, i)
    {
      assert quiz[..n][i] == quiz[i];
    }
    assert forall i :: i in MatchingIndices(quiz, answers) <==>
      i in MatchingIndices(quiz[..n], answers) || i in extra;
  }

  /** `currentQuiz.map(...)`: one entry per question, holding a copy of it. */
  function BuildResults(quiz: seq<QuizQuestion>, answers: map<nat, string>): (r: seq<QuestionResult>)
    ensures |r| == |quiz|
    ensures forall i :: 0 <= i < |r| ==>
      r[i] == QuestionResult(quiz[i], AnswerAt(answers, i), IsMatch(quiz, answers, i))
  {
    if quiz == [] then []
    else
      var n := |quiz| - 1;
      var init := BuildResults(quiz[..n], answers);
      assert forall i :: 0 <= i < n ==> (IsMatch(quiz[..n], answers, i) <==> IsMatch(quiz, answers, i));
      init + [QuestionResult(quiz[n], AnswerAt(answers, n), IsMatch(quiz, answers, n))]
  }

  /** When every question was answered, every stored entry holds a non-empty answer. */
  lemma AnsweredResults(quiz: seq<QuizQuestion>, answers: map<nat, string>)
    requires forall i: nat :: i < |quiz| ==> Answered(answers, i)
    ensures forall i :: 0 <= i < |quiz| ==>
      BuildResults(quiz, answers)[i].userAnswer.Some? && BuildResults(quiz, answers)[i].userAnswer.value != []
  {
    var r := BuildResults(quiz, answers);
    forall i | 0 <= i < |quiz|
      ensures r[i].userAnswer.Some? && r[i].userAnswer.value != []
    {
      assert Answered(answers, i);
      assert r[i].userAnswer == AnswerAt(answers, i);
    }
  }

  /** Entries marked correct. */
  function CorrectEntries(results: seq<QuestionResult>): nat {
    if results == [] then 0
    else CorrectEntries(results[..|results| - 1]) + (if results[|results| - 1].isCorrect then 1 else 0)
  }

  /** The stored count agrees with the `isCorrect` flags of the stored entries. */
  lemma {:induction false} CountMatchesEntries(quiz: seq<QuizQuestion>, answers: map<nat, string>)
    ensures CorrectEntries(BuildResults(quiz, answers)) == CountCorrect(quiz, answers)
  {
    if quiz != [] {
      var n := |quiz| - 1;
      var r := BuildResults(quiz, answers);
      CountMatchesEntries(quiz[..n], answers);
      assert r[..n] == BuildResults(quiz[..n], answers);
    }
  }

  /** The session snapshot `finishQuiz` stores. */
  function SessionResult(id: string, notebookId: string, now: int,
                         quiz: seq<QuizQuestion>, answers: map<nat, string>): QuizSessionResult
  {
    QuizSessionResult(id, notebookId, now, |quiz|, CountCorrect(quiz, answers), BuildResults(quiz, answers))
  }

  /** A snapshot is self-consistent: its counts agree with its entries. */
  lemma SessionResultConsistent(id: string, notebookId: string, now: int,
                                quiz: seq<QuizQuestion>, answers: map<nat, string>)
    ensures var s := SessionResult(id, notebookId, now, quiz, answers);
      && s.totalQuestions == |s.questions|
      && s.correctAnswers == CorrectEntries(s.questions)
      && s.correctAnswers <= s.totalQuestions
  {
    CountMatchesEntries(quiz, answers);
  }

  /** Extending the prefix by one question adds one exactly when its answer matches. */
  lemma CountPrefixStep(quiz: seq<QuizQuestion>, answers: map<nat, string>, k: nat)
    requires 0 < k <= |quiz|
    ensures CountCorrect(quiz[..k], answers)
         == CountCorrect(quiz[..k - 1], answers) + (if IsMatch(quiz, answers, k - 1) then 1 else 0)
  {
    assert quiz[..k][..k - 1] == quiz[..k - 1];
    assert IsMatch(quiz[..k], answers, k - 1) == IsMatch(quiz, answers, k - 1);
  }

  /** Three of five answers right, the other two wrong: the score is 3. */
  lemma ThreeOfFive(q0: QuizQuestion, q1: QuizQuestion, q2: QuizQuestion, q3: QuizQuestion,
                    q4: QuizQuestion, wrong1: string, wrong4: string)
    requires wrong1 != q1.respostaCorreta && wrong4 != q4.respostaCorreta
    ensures CountCorrect([q0, q1, q2, q3, q4],
      map[0 := q0.respostaCorreta, 1 := wrong1, 2 := q2.respostaCorreta,
          3 := q3.respostaCorreta, 4 := wrong4]) == 3
  {
    var quiz := [q0, q1, q2, q3, q4];
    var answers := map[0 := q0.respostaCorreta, 1 := wrong1, 2 := q2.respostaCorreta,
                       3 := q3.respostaCorreta, 4 := wrong4];
    assert IsMatch(quiz, answers, 0) && !IsMatch(quiz, answers, 1) && IsMatch(quiz, answers, 2);
    assert IsMatch(quiz, answers, 3) && !IsMatch(quiz, answers, 4);
    assert CountCorrect(quiz[..0], answers) == 0;
    CountPrefixStep(quiz, answers, 1);
    CountPrefixStep(quiz, answers, 2);
    CountPrefixStep(quiz, answers, 3);
    CountPrefixStep(quiz, answers, 4);
    CountPrefixStep(quiz, answers, 5);
    assert quiz[..5] == quiz;
  }

  // ---------------------------------------------------------------------------
  // Notebook updates

  /** `notebooks.map(nb => nb.id === id ? { ...nb, flashcards: [card, ...] } : nb)`. */
  function PrependCard(notebooks: seq<Notebook>, id: string, card: Flashcard): (r: seq<Notebook>)
    ensures |r| == |notebooks|
    ensures forall i :: 0 <= i < |r| ==>
      r[i] == if notebooks[i].id == id then notebooks[i].(flashcards := [card] + notebooks[i].flashcards)
              else notebooks[i]
  {
    if notebooks == [] then []
    else
      var nb := notebooks[0];
      [if nb.id == id then nb.(flashcards := [card] + nb.flashcards) else nb]
      + PrependCard(notebooks[1..], id, card)
  }

  /** `notebooks.map(nb => nb.id === id ? { ...nb, documents: [doc, ...] } : nb)`. */
  function PrependDocument(notebooks: seq<Notebook>, id: string, doc: DocumentData): (r: seq<Notebook>)
    ensures |r| == |notebooks|
    ensures forall i :: 0 <= i < |r| ==>
      r[i] == if notebooks[i].id == id then notebooks[i].(documents := [doc] + notebooks[i].documents)
              else notebooks[i]
  {
    if notebooks == [] then []
    else
      var nb := notebooks[0];
      [if nb.id == id then nb.(documents := [doc] + nb.documents) else nb]
      + PrependDocument(notebooks[1..], id, doc)
  }

  /** Number of notebooks with id `id`. */
  function IdCount(notebooks: seq<Notebook>, id: string): nat {
    if notebooks == [] then 0
    else IdCount(notebooks[..|notebooks| - 1], id) + (if notebooks[|notebooks| - 1].id == id then 1 else 0)
  }

  /** Adding a card to the notebooks with a given id adds one card per such
      notebook to the flattened card list, and the card is then in it exactly
      when some notebook has that id. */
  lemma {:induction false} PrependCardGrowsCards(notebooks: seq<Notebook>, id: string, card: Flashcard)
    ensures |AllFlashcards(PrependCard(notebooks, id, card))| == |AllFlashcards(notebooks)| + IdCount(notebooks, id)
    ensures IdCount(notebooks, id) > 0 ==> card in AllFlashcards(PrependCard(notebooks, id, card))
  {
    if notebooks != [] {
      var n := |notebooks| - 1;
      var r := PrependCard(notebooks, id, card);
      PrependCardGrowsCards(notebooks[..n], id, card);
      assert r[..n] == PrependCard(notebooks[..n], id, card);
      if notebooks[n].id == id {
        assert card in r[n].flashcards;
      }
    }
  }

  // ---------------------------------------------------------------------------
  // The application

  /** Outcome of `startQuiz`: the alert it raises, or success. */
  datatype QuizStart = NoFlashcards | GenerationFailed | Started

  const NoFlashcardsAlert: string := "Crie pelo menos 1 flashcard para o simulado."
  const GenerationFailedAlert: string := "Erro ao gerar simulado pela IA."

  class StudyApp {
    var notebooks: seq<Notebook>
    var stats: UserStats
    var activeNotebookId: Option<string>
    var view: ViewState
    var currentQuiz: seq<QuizQuestion>
    var quizIndex: nat
    var quizAnswers: map<nat, string>
    var showQuizResult: bool
    var quizAnalysis: Option<string>

    /** The index stays on a question, and every question before it has been
        answered (Next is disabled until the current one is). */
    ghost predicate Valid()
      reads this
    {
      && (quizIndex < |currentQuiz| || (currentQuiz == [] && quizIndex == 0))
      && (forall j: nat :: j < quizIndex ==> Answered(quizAnswers, j))
    }

    /** The quiz pane with a question is on screen (its buttons exist). */
    predicate QuestionShown()
      reads this
    {
      view == Quiz && |currentQuiz| > 0 && !showQuizResult
    }

    constructor (now: int)
      ensures Valid()
      ensures notebooks == [] && stats == InitialStats(now) && activeNotebookId == None && view == Home
      ensures currentQuiz == [] && quizIndex == 0 && quizAnswers == map[] && !showQuizResult
      ensures quizAnalysis == None
    {
      notebooks := [];
      stats := InitialStats(now);
      activeNotebookId := None;
      view := Home;
      currentQuiz := [];
      quizIndex := 0;
      quizAnswers := map[];
      showQuizResult := false;
      quizAnalysis := None;
    }

    /** Startup with what storage returned: an empty store is seeded with one
        notebook holding one card; stored statistics replace the defaults. */
    method Init(loaded: seq<Notebook>, loadedStats: Option<UserStats>, now: int)
      modifies this
      ensures loaded == [] ==> notebooks == SeedNotebooks(now)
      ensures loaded != [] ==> notebooks == loaded
      ensures stats == (if loadedStats.Some? then loadedStats.value else old(stats))
      ensures activeNotebookId == old(activeNotebookId) && view == old(view)
      ensures currentQuiz == old(currentQuiz) && quizIndex == old(quizIndex)
      ensures quizAnswers == old(quizAnswers) && showQuizResult == old(showQuizResult)
      ensures quizAnalysis == old(quizAnalysis)
    {
      if loaded == [] {
        notebooks := SeedNotebooks(now);
      } else {
        notebooks := loaded;
      }
      if loadedStats.Some? {
        stats := loadedStats.value;
      }
    }

    /** `navigateTo`: outside the notebook and quiz screens the active notebook is dropped. */
    method NavigateTo(v: ViewState)
      modifies this
      ensures view == v
      ensures v != Notebooks && v != Quiz && v != QuizReview ==> activeNotebookId == None
      ensures v == Notebooks || v == Quiz || v == QuizReview ==> activeNotebookId == old(activeNotebookId)
      ensures notebooks == old(notebooks) && stats == old(stats)
      ensures currentQuiz == old(currentQuiz) && quizIndex == old(quizIndex)
      ensures quizAnswers == old(quizAnswers) && showQuizResult == old(showQuizResult)
      ensures quizAnalysis == old(quizAnalysis)
    {
      view := v;
      if v != Notebooks && v != Quiz && v != QuizReview {
        activeNotebookId := None;
      }
    }

    /** `startQuiz`: needs at least one target card and a non-empty generated
        list; on success a fresh session starts on the first question. */
    method StartQuiz(stripHtml: string -> string,
                     callModel: string -> GeminiService.ModelReply,
                     parseJson: string -> GeminiService.ParsedQuiz) returns (outcome: QuizStart)
      requires Valid()
      modifies this
      ensures Valid()
      ensures var target := TargetCards(old(notebooks), old(activeNotebookId));
        && (target == [] <==> outcome == NoFlashcards)
        && (outcome == Started <==>
              target != [] &&
              var g := GeminiService.GenerateQuizQuestions(target, stripHtml, callModel, parseJson);
              g.Success? && g.value != [])
        && (outcome == Started ==>
              currentQuiz == GeminiService.GenerateQuizQuestions(target, stripHtml, callModel, parseJson).value)
      ensures outcome == Started ==>
        quizIndex == 0 && quizAnswers == map[] && !showQuizResult && view == Quiz
      ensures outcome != Started ==>
        currentQuiz == old(currentQuiz) && quizIndex == old(quizIndex) && quizAnswers == old(quizAnswers) &&
        showQuizResult == old(showQuizResult) && view == old(view)
      ensures notebooks == old(notebooks) && stats == old(stats) && activeNotebookId == old(activeNotebookId)
      ensures quizAnalysis == old(quizAnalysis)
    {
      var target := TargetCards(notebooks, activeNotebookId);
      if |target| < 1 {
        outcome := NoFlashcards;
      } else {
        var generated := GeminiService.GenerateQuizQuestions(target, stripHtml, callModel, parseJson);
        if generated.Failure? || generated.value == [] {
          outcome := GenerationFailed;
        } else {
          BeginSession(generated.value);
          outcome := Started;
        }
      }
    }

    /** A fresh session on the first question of `questions`. */
    method BeginSession(questions: seq<QuizQuestion>)
      requires questions != []
      modifies this
      ensures Valid()
      ensures currentQuiz == questions && quizIndex == 0 && quizAnswers == map[]
      ensures !showQuizResult && view == Quiz
      ensures notebooks == old(notebooks) && stats == old(stats) && activeNotebookId == old(activeNotebookId)
      ensures quizAnalysis == old(quizAnalysis)
    {
      currentQuiz := questions;
      quizIndex := 0;
      quizAnswers := map[];
      showQuizResult := false;
      view := Quiz;
    }

    /** Clicking option `key`: overwrites the answer at the current index only. */
    method SelectOption(key: string)
      requires Valid() && QuestionShown()
      requires key in currentQuiz[quizIndex].opcoes
      modifies this
      ensures Valid() && QuestionShown()
      ensures quizAnswers == old(quizAnswers)[old(quizIndex) := key]
      ensures quizIndex == old(quizIndex) && currentQuiz == old(currentQuiz)
      ensures showQuizResult == old(showQuizResult) && view == old(view)
      ensures notebooks == old(notebooks) && stats == old(stats) && activeNotebookId == old(activeNotebookId)
      ensures quizAnalysis == old(quizAnalysis)
    {
      ghost var prev := quizAnswers;
      quizAnswers := quizAnswers[quizIndex := key];
      assert forall j: nat :: j < quizIndex ==> Answered(prev, j) && Answered(quizAnswers, j);
    }

    /** "Próxima": shown before the last question, disabled while the current
        question is unanswered. */
    method GoNext()
      requires Valid() && QuestionShown()
      requires quizIndex < |currentQuiz| - 1
      modifies this
      ensures Valid() && QuestionShown()
      ensures Answered(quizAnswers, old(quizIndex)) ==> quizIndex == old(quizIndex) + 1
      ensures !Answered(quizAnswers, old(quizIndex)) ==> quizIndex == old(quizIndex)
      ensures quizAnswers == old(quizAnswers) && currentQuiz == old(currentQuiz)
      ensures showQuizResult == old(showQuizResult) && view == old(view)
      ensures notebooks == old(notebooks) && stats == old(stats) && activeNotebookId == old(activeNotebookId)
      ensures quizAnalysis == old(quizAnalysis)
    {
      if Answered(quizAnswers, quizIndex) {
        quizIndex := quizIndex + 1;
      }
    }

    /** "Anterior": disabled on the first question. */
    method GoPrevious()
      requires Valid() && QuestionShown()
      modifies this
      ensures Valid() && QuestionShown()
      ensures old(quizIndex) == 0 ==> quizIndex == 0
      ensures old(quizIndex) > 0 ==> quizIndex == old(quizIndex) - 1
      ensures quizAnswers == old(quizAnswers) && currentQuiz == old(currentQuiz)
      ensures showQuizResult == old(showQuizResult) && view == old(view)
      ensures notebooks == old(notebooks) && stats == old(stats) && activeNotebookId == old(activeNotebookId)
      ensures quizAnalysis == old(quizAnalysis)
    {
      if quizIndex != 0 {
        quizIndex := quizIndex - 1;
      }
    }

    /** "Finalizar Simulado", up to the analysis request: shown on the last
        question and disabled while it is unanswered. Stores the scored
        snapshot at the head of the history and counts the questions towards
        today's total; `results` is what the analysis is then asked about. */
    method FinishQuiz(freshId: string, now: int) returns (finished: bool, results: seq<QuestionResult>)
      requires Valid() && QuestionShown()
      requires quizIndex == |currentQuiz| - 1
      modifies this
      ensures Valid()
      ensures finished <==> Answered(quizAnswers, quizIndex)
      ensures !finished ==> stats == old(stats)
      ensures finished ==>
        var result := SessionResult(freshId, NotebookIdOrGlobal(activeNotebookId), now, currentQuiz, quizAnswers);
        && results == result.questions
        && stats == old(stats).(quizHistory := [result] + old(stats).quizHistory,
                                questionsAnsweredToday := old(stats).questionsAnsweredToday + |currentQuiz|)
      ensures finished ==> |results| == |currentQuiz| && forall i :: 0 <= i < |results| ==>
        results[i].userAnswer.Some? && results[i].userAnswer.value != []
      ensures finished ==>
        StudyAnalytics.DailyQuestionProgress(stats) >= StudyAnalytics.DailyQuestionProgress(old(stats))
      ensures currentQuiz == old(currentQuiz) && quizIndex == old(quizIndex) && quizAnswers == old(quizAnswers)
      ensures notebooks == old(notebooks) && activeNotebookId == old(activeNotebookId) && view == old(view)
      ensures showQuizResult == old(showQuizResult) && quizAnalysis == old(quizAnalysis)
    {
      finished := Answered(quizAnswers, quizIndex);
      results := [];
      if finished {
        assert forall i: nat :: i < |currentQuiz| ==> Answered(quizAnswers, i) by {
          forall i: nat | i < |currentQuiz| ensures Answered(quizAnswers, i) {
            if i < quizIndex {
              assert Answered(quizAnswers, i);
            }
          }
        }
        AnsweredResults(currentQuiz, quizAnswers);
        results := BuildResults(currentQuiz, quizAnswers);
        var result := QuizSessionResult(freshId, NotebookIdOrGlobal(activeNotebookId), now,
                                        |currentQuiz|, CountCorrect(currentQuiz, quizAnswers), results);
        var before := stats;
        stats := stats.(quizHistory := [result] + stats.quizHistory,
                        questionsAnsweredToday := stats.questionsAnsweredToday + |currentQuiz|);
        StudyAnalytics.ProgressMonotone(before.questionsAnsweredToday, stats.questionsAnsweredToday,
                                        stats.dailyQuestionGoal);
      }
    }

    /** The rest of `finishQuiz`, once the analysis request settles: the
        analysis text is stored and the result screen shown. */
    method AnalysisArrived(results: seq<QuestionResult>, callModel: string -> GeminiService.ModelReply)
      modifies this
      ensures quizAnalysis == Some(GeminiService.AnalyzeQuizPerformance(results, callModel))
      ensures quizAnalysis.value != []
      ensures showQuizResult
      ensures notebooks == old(notebooks) && stats == old(stats) && activeNotebookId == old(activeNotebookId)
      ensures view == old(view) && currentQuiz == old(currentQuiz) && quizIndex == old(quizIndex)
      ensures quizAnswers == old(quizAnswers)
    {
      quizAnalysis := Some(GeminiService.AnalyzeQuizPerformance(results, callModel));
      showQuizResult := true;
    }

    /** `handleCreateNotebook`: a blank name is ignored; otherwise a new empty
        notebook (keeping the untrimmed name) is appended and opened. */
    method CreateNotebook(name: string, freshId: string) returns (created: bool)
      modifies this
      ensures created <==> Trim(name) != []
      ensures created ==> notebooks == old(notebooks) + [Notebook(freshId, name, [], [])]
      ensures created ==> activeNotebookId == Some(freshId) && view == Notebooks
      ensures !created ==> notebooks == old(notebooks)
      ensures !created ==> activeNotebookId == old(activeNotebookId) && view == old(view)
      ensures stats == old(stats) && currentQuiz == old(currentQuiz) && quizIndex == old(quizIndex)
      ensures quizAnswers == old(quizAnswers) && showQuizResult == old(showQuizResult)
      ensures quizAnalysis == old(quizAnalysis)
    {
      var trimmed := Trim(name);
      created := trimmed != [];
      if created {
        notebooks := notebooks + [Notebook(freshId, name, [], [])];
        activeNotebookId := Some(freshId);
        view := Notebooks;
      }
    }

    /** `handleQuickCreateFlashcard`: needs a target notebook and non-blank
        question and answer (a lone `<br>` counts as blank); the new card goes
        to the front of that notebook's cards. */
    method QuickCreateFlashcard(targetId: string, question: string, answer: string,
                                freshId: string, now: int) returns (created: bool)
      modifies this
      ensures created <==> (targetId != [] && Trim(question) != [] && Trim(answer) != [] &&
        question != LineBreakMarkup && answer != LineBreakMarkup)
      ensures created ==> notebooks == PrependCard(old(notebooks), targetId,
        Flashcard(freshId, question, answer, targetId, now, New))
      ensures !created ==> notebooks == old(notebooks)
      ensures stats == old(stats) && activeNotebookId == old(activeNotebookId) && view == old(view)
      ensures currentQuiz == old(currentQuiz) && quizIndex == old(quizIndex)
      ensures quizAnswers == old(quizAnswers) && showQuizResult == old(showQuizResult)
      ensures quizAnalysis == old(quizAnalysis)
    {
      var q := Trim(question);
      var a := Trim(answer);
      created := !(targetId == [] || q == [] || a == [] ||
                   question == LineBreakMarkup || answer == LineBreakMarkup);
      if created {
        var card := Flashcard(freshId, question, answer, targetId, now, New);
        notebooks := PrependCard(notebooks, targetId, card);
      }
    }

    /** `addDocument`, once the file has been read as a data URL: the document
        goes to the front of the active notebook's documents, if one is active. */
    method AddDocument(fileName: string, mimeType: string, url: string, freshId: string)
      returns (added: bool)
      modifies this
      ensures added <==> activeNotebookId.Some? && activeNotebookId.value != []
      ensures added ==> notebooks == PrependDocument(old(notebooks), activeNotebookId.value,
        DocumentData(freshId, fileName, if mimeType == PdfMimeType then Pdf else Image, url, []))
      ensures !added ==> notebooks == old(notebooks)
      ensures stats == old(stats) && activeNotebookId == old(activeNotebookId) && view == old(view)
      ensures currentQuiz == old(currentQuiz) && quizIndex == old(quizIndex)
      ensures quizAnswers == old(quizAnswers) && showQuizResult == old(showQuizResult)
      ensures quizAnalysis == old(quizAnalysis)
    {
      added := activeNotebookId.Some? && activeNotebookId.value != [];
      if added {
        var doc := DocumentData(freshId, fileName, if mimeType == PdfMimeType then Pdf else Image, url, []);
        notebooks := PrependDocument(notebooks, activeNotebookId.value, doc);
      }
    }
  }
}

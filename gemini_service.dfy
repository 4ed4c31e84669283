/** The pure helpers of services/geminiService.ts. The generative model,
    `stripHtml` and `JSON.parse` are foreign code; they are function-typed
    parameters here. */
module GeminiService {

  import opened Types
  import opened JsString

  const Fence: string := "```"
  const JsonFence: string := "```json"
  /** What `cleanJson` returns for an empty reply. */
  const EmptyQuizJson: string := "{\"questions\": []}"
  const Base64Marker: string := "base64,"
  /** At most this many flashcards go into a quiz prompt. */
  const MaxPromptCards: nat := 20
  const Newline: string := "\n"

  const QuizGenerationError: string := "Falha na geração do simulado pela IA."
  const AnalysisUnavailable: string := "Feedback indisponível."
  const AnalysisConnectionError: string := "Erro ao analisar performance."

  /** What a model call gives back: a reply whose `text` may be missing, or a thrown error. */
  datatype ModelReply = Reply(text: Option<string>) | Threw

  /** What `JSON.parse` of the cleaned reply gives to the caller: an object
      whose `questions` property is present or missing, or a failure (a syntax
      error, or a value whose properties cannot be read). */
  datatype ParsedQuiz = QuizObject(questions: Option<seq<QuizQuestion>>) | ParseFailure

  // ---------------------------------------------------------------- cleanJson

  /** `cleanJson`: an empty reply stands for an empty quiz; otherwise the
      markdown code fences are dropped and the ends trimmed, so no fence is left. */
  function CleanJson(text: string): (r: string)
    ensures text == [] ==> r == EmptyQuizJson
    ensures text != [] ==> !Contains(r, Fence) && IsTrimmed(r)
  {
    if text == [] then EmptyQuizJson
    else
      var unfenced := ReplaceAll(ReplaceAll(text, JsonFence, ""), Fence, "");
      NoFenceLeft(ReplaceAll(text, JsonFence, ""));
      TrimKeepsAbsence(unfenced, Fence);
      TrimSpec(unfenced);
      Trim(unfenced)
  }

  /** A string starts with a fence exactly when its first three characters are backticks. */
  lemma FenceStart(s: string)
    ensures StartsWith(s, Fence) <==> |s| >= 3 && s[0] == '`' && s[1] == '`' && s[2] == '`'
  {
    if |s| >= 3 { assert s[..3] == [s[0], s[1], s[2]]; }
  }

  /** Removing every "```" left to right leaves none behind, even where a
      removal brings backticks on either side together. */
  lemma {:induction false} NoFenceLeft(t: string)
    ensures !Contains(ReplaceAll(t, Fence, ""), Fence)
  {
    var r := ReplaceAll(t, Fence, "");
    if |t| < |Fence| {
      ShortNeverContains(t, Fence);
    } else if t[..|Fence|] == Fence {
      assert r == ReplaceAll(t[|Fence|..], Fence, "");
      NoFenceLeft(t[|Fence|..]);
    } else {
      var u := ReplaceAll(t[1..], Fence, "");
      assert r == [t[0]] + u;
      NoFenceLeft(t[1..]);
      assert r[1..] == u;
      FenceStart(r);
      FenceStart(t);
      if StartsWith(r, Fence) {
        assert r[1] == u[0] && r[2] == u[1];
        BackticksComeFromInput(t[1..]);
        assert false;
      }
    }
  }

  /** The stripped text starts with backticks only where the input does. */
  lemma {:induction false} BackticksComeFromInput(t: string)
    ensures var r := ReplaceAll(t, Fence, "");
      && (|r| >= 1 && r[0] == '`' ==> |t| >= 1 && t[0] == '`')
      && (|r| >= 2 && r[0] == '`' && r[1] == '`' ==> |t| >= 2 && t[0] == '`' && t[1] == '`')
  {
    if |t| >= |Fence| && t[..|Fence|] != Fence {
      BackticksComeFromInput(t[1..]);
      var u := ReplaceAll(t[1..], Fence, "");
      var r := [t[0]] + u;
      assert ReplaceAll(t, Fence, "") == r;
      if |r| >= 2 {
        assert r[1] == u[0];
        assert t[1] == t[1..][0];
      }
    } else if |t| >= |Fence| {
      FenceStart(t);
    }
  }

  /** A cleaned non-empty reply is a fixed point of `cleanJson`. */
  lemma CleanJsonIdempotent(text: string)
    requires CleanJson(text) != []
    ensures CleanJson(CleanJson(text)) == CleanJson(text)
  {
    if text == [] {
      EmptyQuizJsonLacksFence(EmptyQuizJson);
      EmptyQuizJsonIsTrimmed(EmptyQuizJson);
      CleanTextIsFixed(EmptyQuizJson);
    } else {
      CleanTextIsFixed(CleanJson(text));
    }
  }

  lemma EmptyQuizJsonIsTrimmed(s: string)
    requires s == EmptyQuizJson
    ensures IsTrimmed(s)
  {
    assert s[0] == '{' && s[|s| - 1] == '}';
  }

  lemma EmptyQuizJsonLacksFence(s: string)
    requires s == EmptyQuizJson
    ensures !Contains(s, Fence)
  {
    AbsentFirstChar(s, Fence);
  }

  /** Non-empty trimmed text without fences passes through `cleanJson` unchanged. */
  lemma CleanTextIsFixed(r: string)
    requires r != [] && !Contains(r, Fence) && IsTrimmed(r)
    ensures CleanJson(r) == r
  {
    if Contains(r, JsonFence) {
      assert JsonFence == Fence + "json";
      ContainsLongerPattern(r, Fence, "json");
    }
    var a := ReplaceAll(r, JsonFence, "");
    assert a == r;
    var b := ReplaceAll(a, Fence, "");
    assert b == r;
    TrimSpec(r);
  }

  /** A reply wrapped in a ```json fence and a bare reply clean to the same
      trimmed body. */
  lemma CleanJsonUnwrapsFence(body: string)
    requires forall i :: 0 <= i < |body| ==> body[i] != '`'
    ensures CleanJson(JsonFence + body + Fence) == Trim(body)
    ensures body != [] ==> CleanJson(body) == Trim(body)
  {
    var text := JsonFence + body + Fence;
    assert text == JsonFence + (body + Fence);
    ReplaceAllLeading(JsonFence, body + Fence, "");
    ReplaceAllSkips(body, Fence, JsonFence, "");
    ShortNeverContains(Fence, JsonFence);
    var once := ReplaceAll(text, JsonFence, "");
    assert once == body + Fence;
    ReplaceAllSkips(body, Fence, Fence, "");
    ReplaceAllLeading(Fence, "", "");
    assert Fence + "" == Fence;
    assert ReplaceAll(Fence, Fence, "") == "";
    assert ReplaceAll(once, Fence, "") == body;
    AbsentFirstChar(body, JsonFence);
    AbsentFirstChar(body, Fence);
  }

  // ------------------------------------------------------ summarizeDocument

  /** The image payload of a data URL: the text after the first "base64,"
      up to the next one or the end; an input without the marker is kept whole. */
  function Base64Payload(dataUrl: string): (r: string)
    ensures !Contains(dataUrl, Base64Marker) ==> r == dataUrl
    ensures Contains(dataUrl, Base64Marker) ==>
      && IndexOf(dataUrl, Base64Marker).Some?
      && var rest := dataUrl[IndexOf(dataUrl, Base64Marker).value + |Base64Marker|..];
      && |r| <= |rest| && r == rest[..|r|]
      && !Contains(r, Base64Marker)
      && (|r| == |rest| || StartsWith(rest[|r|..], Base64Marker))
  {
    if Contains(dataUrl, Base64Marker) then
      var rest := dataUrl[IndexOf(dataUrl, Base64Marker).value + |Base64Marker|..];
      SecondSplitPiece(dataUrl, Base64Marker, rest);
      SplitPiecesLack(dataUrl, Base64Marker);
      NoneContainsAt(Split(dataUrl, Base64Marker), Base64Marker, 1);
      Split(dataUrl, Base64Marker)[1]
    else
      dataUrl
  }

  // -------------------------------------------------- generateQuizQuestions

  /** One prompt line: "FC", digits spelling `n`, ": P: ", the question,
      " | R: ", the answer, with markup stripped from both. */
  function FlashcardLine(n: nat, card: Flashcard, stripHtml: string -> string): (line: string)
    ensures exists digits ::
              && IsDigits(digits) && |digits| >= 1 && DecimalValue(digits) == n
              && line == "FC" + digits + ": P: " + stripHtml(card.question) + " | R: " + stripHtml(card.answer)
  {
    var digits := DecimalString(n);
    "FC" + digits + ": P: " + stripHtml(card.question) + " | R: " + stripHtml(card.answer)
  }

  /** The first twenty cards, numbered from 1 in input order. */
  function PromptLines(cards: seq<Flashcard>, stripHtml: string -> string): (ls: seq<string>)
    ensures |ls| == if |cards| < MaxPromptCards then |cards| else MaxPromptCards
    ensures forall i :: 0 <= i < |ls| ==> ls[i] == FlashcardLine(i + 1, cards[i], stripHtml)
  {
    var n := if |cards| < MaxPromptCards then |cards| else MaxPromptCards;
    seq(n, i requires 0 <= i < n => FlashcardLine(i + 1, cards[i], stripHtml))
  }

  /** The flashcard data the quiz prompt embeds: the lines joined by newlines. */
  function PromptData(cards: seq<Flashcard>, stripHtml: string -> string): string {
    Join(PromptLines(cards, stripHtml), Newline)
  }

  /** When no stripped card text holds a line break, the prompt data has
      exactly one line per card used. */
  lemma PromptDataLines(cards: seq<Flashcard>, stripHtml: string -> string)
    requires cards != []
    requires forall i :: 0 <= i < |cards| ==>
      Lacks(stripHtml(cards[i].question), '\n') && Lacks(stripHtml(cards[i].answer), '\n')
    ensures Split(PromptData(cards, stripHtml), Newline) == PromptLines(cards, stripHtml)
  {
    var ls := PromptLines(cards, stripHtml);
    forall k | 0 <= k < |ls| ensures !Contains(ls[k], Newline) {
      var line := ls[k];
      assert line == FlashcardLine(k + 1, cards[k], stripHtml);
      FlashcardLineIsOneLine(k + 1, cards[k], stripHtml);
      ContainsCharIff(line, '\n');
    }
    SplitJoin(ls, Newline);
  }

  lemma FlashcardLineIsOneLine(n: nat, card: Flashcard, stripHtml: string -> string)
    requires Lacks(stripHtml(card.question), '\n') && Lacks(stripHtml(card.answer), '\n')
    ensures Lacks(FlashcardLine(n, card, stripHtml), '\n')
  {
    var d := DecimalString(n);
    var q, a := stripHtml(card.question), stripHtml(card.answer);
    assert FlashcardLine(n, card, stripHtml) == "FC" + d + ": P: " + q + " | R: " + a;
    assert Lacks(d, '\n') && Lacks("FC", '\n') && Lacks(": P: ", '\n') && Lacks(" | R: ", '\n');
    LacksConcat("FC", d, '\n');
    LacksConcat("FC" + d, ": P: ", '\n');
    LacksConcat("FC" + d + ": P: ", q, '\n');
    LacksConcat("FC" + d + ": P: " + q, " | R: ", '\n');
    LacksConcat("FC" + d + ": P: " + q + " | R: ", a, '\n');
  }

  /** Cards after the twentieth never reach the prompt. */
  lemma PromptIgnoresExtraCards(cards: seq<Flashcard>, stripHtml: string -> string)
    requires |cards| >= MaxPromptCards
    ensures PromptData(cards, stripHtml) == PromptData(cards[..MaxPromptCards], stripHtml)
  {
    assert PromptLines(cards, stripHtml) == PromptLines(cards[..MaxPromptCards], stripHtml);
  }

  function ReplyText(reply: ModelReply): string
    requires reply.Reply?
  {
    match reply.text
    case None => ""
    case Some(t) => t
  }

  /** `generateQuizQuestions`: no cards means no questions and no model call;
      otherwise the model's reply is cleaned and parsed, a missing `questions`
      gives none, and every failure becomes the one generation error. */
  function GenerateQuizQuestions(
    cards: seq<Flashcard>,
    stripHtml: string -> string,
    callModel: string -> ModelReply,
    parseJson: string -> ParsedQuiz): (r: Result<seq<QuizQuestion>, string>)
    ensures cards == [] ==> r == Success([])
    ensures r.Failure? ==> r.error == QuizGenerationError
    ensures cards != [] ==>
      var reply := callModel(PromptData(cards, stripHtml));
      reply.Reply? ==>
      var parsed := parseJson(CleanJson(ReplyText(reply)));
      && (parsed == QuizObject(None) ==> r == Success([]))
      && (parsed.QuizObject? && parsed.questions.Some? ==> r == Success(parsed.questions.value))
    ensures r.Failure? <==>
      cards != [] &&
      var reply := callModel(PromptData(cards, stripHtml));
      (reply.Threw? || parseJson(CleanJson(ReplyText(reply))).ParseFailure?)
  {
    if cards == [] then Success([])
    else
      var reply := callModel(PromptData(cards, stripHtml));
      match reply
      case Threw => Failure(QuizGenerationError)
      case Reply(_) =>
        match parseJson(CleanJson(ReplyText(reply)))
        case ParseFailure => Failure(QuizGenerationError)
        case QuizObject(None) => Success([])
        case QuizObject(Some(questions)) => Success(questions)
  }

  /** Generation depends on the first twenty cards only. */
  lemma GenerateSeesFirstTwentyCards(
    cards: seq<Flashcard>,
    stripHtml: string -> string,
    callModel: string -> ModelReply,
    parseJson: string -> ParsedQuiz)
    requires |cards| >= MaxPromptCards
    ensures GenerateQuizQuestions(cards, stripHtml, callModel, parseJson)
         == GenerateQuizQuestions(cards[..MaxPromptCards], stripHtml, callModel, parseJson)
  {
    PromptIgnoresExtraCards(cards, stripHtml);
  }

  // ------------------------------------------------- analyzeQuizPerformance

  /** How a template literal prints an answer that may be `undefined`. */
  function AnswerText(answer: Option<string>): string {
    match answer
    case Some(key) => key
    case None => "undefined"
  }

  /** The head of summary line `n`: `Q<n>: `. */
  function LineHead(n: nat): string {
    "Q" + DecimalString(n) + ": "
  }

  function Verdict(r: QuestionResult): string {
    if r.isCorrect then "Acertou" else "Errou"
  }

  /** What went wrong: the answer given and the right one, or "Nenhum". */
  function ErrorDetail(r: QuestionResult): string {
    if r.isCorrect then "Nenhum"
    else "O usuário marcou " + AnswerText(r.userAnswer) + " mas o correto era " + r.question.respostaCorreta
  }

  /** One summary line: `Q<n>: Acertou|Errou - TEMA: <tema> | ERRO: <detail>`. */
  function SummaryLine(n: nat, r: QuestionResult): string {
    LineHead(n) + (Verdict(r) + (" - TEMA: " + r.question.tema + " | ERRO: " + ErrorDetail(r)))
  }

  /** The verdict after the `Q<n>: ` head is "Acertou" exactly for a correct
      answer, and the user's answer is printed for a wrong answer only. */
  lemma SummaryLineVerdict(n: nat, r: QuestionResult, other: Option<string>)
    ensures StartsWith(SummaryLine(n, r), LineHead(n))
    ensures StartsWith(SummaryLine(n, r)[|LineHead(n)|..], "Acertou") <==> r.isCorrect
    ensures r.isCorrect ==> SummaryLine(n, r) == SummaryLine(n, r.(userAnswer := other))
    ensures !r.isCorrect ==> Contains(SummaryLine(n, r), AnswerText(r.userAnswer))
  {
    var head := LineHead(n);
    var rest := Verdict(r) + (" - TEMA: " + r.question.tema + " | ERRO: " + ErrorDetail(r));
    var line := SummaryLine(n, r);
    assert line[..|head|] == head;
    assert line[|head|..] == rest;
    VerdictStart(r, " - TEMA: " + r.question.tema + " | ERRO: " + ErrorDetail(r));
    if !r.isCorrect {
      var a := AnswerText(r.userAnswer);
      DetailHoldsAnswer(r);
      var tail := " - TEMA: " + r.question.tema + " | ERRO: ";
      var i := |head| + |Verdict(r)| + |tail|;
      assert line == head + Verdict(r) + tail + ErrorDetail(r);
      assert line[i..] == ErrorDetail(r);
      ContainsInSuffix(line, i, a);
    }
  }

  lemma VerdictStart(r: QuestionResult, tail: string)
    ensures StartsWith(Verdict(r) + tail, "Acertou") <==> r.isCorrect
  {
    var v := Verdict(r) + tail;
    if r.isCorrect {
      assert v[..7] == "Acertou";
    } else {
      assert v[0] == 'E';
    }
  }

  lemma DetailHoldsAnswer(r: QuestionResult)
    requires !r.isCorrect
    ensures Contains(ErrorDetail(r), AnswerText(r.userAnswer))
  {
    var a := AnswerText(r.userAnswer);
    var before := "O usuário marcou ";
    var d := ErrorDetail(r);
    assert d == before + a + (" mas o correto era " + r.question.respostaCorreta);
    assert d[|before|..|before| + |a|] == a;
    assert StartsWith(d[|before|..|before| + |a|], a);
    ContainsInSlice(d, |before|, |before| + |a|, a);
  }

  function SummaryLines(results: seq<QuestionResult>): seq<string> {
    seq(|results|, i requires 0 <= i < |results| => SummaryLine(i + 1, results[i]))
  }

  /** The per-result summary the analysis request carries. */
  function Summary(results: seq<QuestionResult>): string {
    Join(SummaryLines(results), Newline)
  }

  /** When no topic or answer holds a line break, the summary has one line per result. */
  lemma SummaryHasOneLinePerResult(results: seq<QuestionResult>)
    requires results != []
    requires forall i :: 0 <= i < |results| ==>
      && Lacks(results[i].question.tema, '\n')
      && Lacks(results[i].question.respostaCorreta, '\n')
      && Lacks(AnswerText(results[i].userAnswer), '\n')
    ensures Split(Summary(results), Newline) == SummaryLines(results)
  {
    var ls := SummaryLines(results);
    forall k | 0 <= k < |ls| ensures !Contains(ls[k], Newline) {
      SummaryLineIsOneLine(k + 1, results[k]);
      ContainsCharIff(ls[k], '\n');
    }
    SplitJoin(ls, Newline);
  }

  lemma SummaryLineIsOneLine(n: nat, r: QuestionResult)
    requires Lacks(r.question.tema, '\n') && Lacks(r.question.respostaCorreta, '\n')
    requires Lacks(AnswerText(r.userAnswer), '\n')
    ensures Lacks(SummaryLine(n, r), '\n')
  {
    LineHeadIsOneLine(n);
    DetailIsOneLine(r);
    var t1 := " - TEMA: ";
    var t2 := " | ERRO: ";
    assert Lacks(t1, '\n') && Lacks(t2, '\n');
    LacksConcat(t1, r.question.tema, '\n');
    LacksConcat(t1 + r.question.tema, t2, '\n');
    LacksConcat(t1 + r.question.tema + t2, ErrorDetail(r), '\n');
    assert Lacks(Verdict(r), '\n');
    LacksConcat(Verdict(r), t1 + r.question.tema + t2 + ErrorDetail(r), '\n');
    LacksConcat(LineHead(n), Verdict(r) + (t1 + r.question.tema + t2 + ErrorDetail(r)), '\n');
  }

  lemma LineHeadIsOneLine(n: nat)
    ensures Lacks(LineHead(n), '\n')
  {
    var d := DecimalString(n);
    assert Lacks(d, '\n');
    LacksConcat("Q", d, '\n');
    LacksConcat("Q" + d, ": ", '\n');
  }

  lemma DetailIsOneLine(r: QuestionResult)
    requires Lacks(r.question.respostaCorreta, '\n')
    requires Lacks(AnswerText(r.userAnswer), '\n')
    ensures Lacks(ErrorDetail(r), '\n')
  {
    if !r.isCorrect {
      var a := AnswerText(r.userAnswer);
      var m1 := "O usuário marcou ";
      var m2 := " mas o correto era ";
      assert Lacks(m1, '\n') && Lacks(m2, '\n');
      LacksConcat(m1, a, '\n');
      LacksConcat(m1 + a, m2, '\n');
      LacksConcat(m1 + a + m2, r.question.respostaCorreta, '\n');
    }
  }

  /** `analyzeQuizPerformance`: always some text, never an error — the
      model's text, or a fallback when it gave none or the call threw. */
  function AnalyzeQuizPerformance(results: seq<QuestionResult>, callModel: string -> ModelReply): (r: string)
    ensures r != []
    ensures callModel(Summary(results)).Threw? ==> r == AnalysisConnectionError
    ensures var reply := callModel(Summary(results));
      reply.Reply? ==>
      && (reply.text.Some? && reply.text.value != [] ==> r == reply.text.value)
      && (reply.text == None || reply.text == Some([]) ==> r == AnalysisUnavailable)
  {
    match callModel(Summary(results))
    case Threw => AnalysisConnectionError
    case Reply(None) => AnalysisUnavailable
    case Reply(Some(text)) => if text == [] then AnalysisUnavailable else text
  }
}

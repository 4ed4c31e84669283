# Study app annotation, quiz and analytics core in Dafny

This project models the logic of a flashcard and document study app. It has
four parts:

- **The freehand annotation engine.** A canvas turns mouse and touch events into
  strokes on a document. An eraser removes whole strokes. The viewer around the
  canvas keeps the zoom, which follows a two-finger pinch, and keeps the
  annotation list.
- **The quiz session.** It starts a generated quiz and records one answer per
  question. "Next" and "Finish" stay disabled until the current question is
  answered. Finishing scores the answers by exact match and stores a snapshot
  in the user's quiz history.
- **The study analytics.** These are the daily card goal, the capped progress
  percentages, the five weakest topics ("hot topics") and the per-notebook mean
  accuracy with the best session ratio.
- **The string helpers of the AI service.** These are the JSON-fence cleaner,
  the data-URL payload extraction, the 20-card prompt lines and the per-answer
  summary lines.

Modules, one per source file (a separate module holds the JavaScript string
built-ins the helpers use):

| file | module | models |
|---|---|---|
| `types.dfy` | `Types` | the record shapes of `types.ts` as datatypes (plus `Option`/`Result`) |
| `js_string.dfy` | `JsString` | `trim`, literal global `replace`, `includes`/`indexOf`, `split`, `join` and number printing, over `seq<char>` |
| `gemini_service.dfy` | `GeminiService` | `cleanJson`, the base64 split, `generateQuizQuestions`, the `analyzeQuizPerformance` summary |
| `annotation_canvas.dfy` | `AnnotationCanvas` | `getPos`, `handleErase`, the drawing state machine as class `Canvas`, `drawAll` as a loop producing canvas calls |
| `document_viewer.dfy` | `DocumentViewer` | the zoom clamp and pinch, the PDF page-size loop, the viewer as class `Viewer` |
| `study_analytics.dfy` | `StudyAnalytics` | `totalCardsGoal`, progress, `hotTopics` (the tally loop as a method), `performanceInsights` |
| `app.dfy` | `App` | the application state as class `StudyApp`: quiz session, finishing, notebook/card/document insertion |

How the model is built:

- **Stateful code is classes.** Code that updates state step by step
  (`isDrawing`/`currentPoints`, the zoom refs, the quiz fields) is a class whose
  methods state the whole new state. The checked invariants are:
  - outside a gesture the point buffer is empty;
  - the zoom is positive;
  - every question before the current one has been answered.
- **Loops are methods.** The source's loops (`drawAll`, the PDF page loop, the
  `hotTopics` `forEach`) are methods with loop invariants. Each is proved
  against a specification function, and the properties of that function are
  lemmas.
- **Pure code is functions.** Pure expressions (`filter`, `reduce`, `map`,
  `sort`, `slice`) are functions, with their meaning proved in lemmas.
- **Foreign code is passed in.** Model calls, `stripHtml`, `JSON.parse` and
  `Math.hypot` are function parameters or values supplied by the caller.
  Generated ids and `Date.now()` are parameters too.
- **Numbers are reals.** Coordinates, zoom and accuracies are `real`. The
  eraser test `sqrt(dx² + dy²) < 15` is stated as `dx² + dy² < 15²`.

## Model

| member | source | states |
|---|---|---|
| `AnnotationCanvas.GetPos` | components/AnnotationCanvas.tsx:77-95 | without a mounted canvas the position is (0,0); otherwise position × scale + canvas origin is the client position of the event, which is the first touch for a touch event |
| `AnnotationCanvas.GetPosUsesFirstTouch` | components/AnnotationCanvas.tsx:83-89 | touches after the first never change the position, and a touch event maps like a mouse event at its first touch |
| `AnnotationCanvas.Erase` | components/AnnotationCanvas.tsx:112-118 | the filtered list is never longer than the original |
| `AnnotationCanvas.EraseMembers` | components/AnnotationCanvas.tsx:112-118 | a stroke survives the eraser iff it was in the list and has no point strictly within 15 units of the eraser position |
| `AnnotationCanvas.EraseAppend` | components/AnnotationCanvas.tsx:112-118 | erasing distributes over concatenation, so survivors keep their relative order |
| `AnnotationCanvas.EraseShrinksIffHit` | components/AnnotationCanvas.tsx:112-119 | the list gets shorter iff some stroke is hit; when none is hit the list comes back unchanged |
| `AnnotationCanvas.EraseIdempotent` | components/AnnotationCanvas.tsx:112-118 | a second eraser touch at the same spot removes nothing more |
| `AnnotationCanvas.HandleErase` | components/AnnotationCanvas.tsx:109-122 | the update callback is called iff a callback exists and some stroke is hit; it receives exactly the surviving strokes, a strictly shorter list |
| `AnnotationCanvas.Canvas.constructor` | components/AnnotationCanvas.tsx:31-32 | the canvas starts not drawing, with an empty point buffer |
| `AnnotationCanvas.Canvas.StartDrawing` | components/AnnotationCanvas.tsx:97-107 | the scroll tool changes nothing and makes no callback; any other tool enters drawing; the eraser leaves the buffer alone and yields exactly the `HandleErase` update; pen and highlighter set the buffer to exactly `[pos]` |
| `AnnotationCanvas.Canvas.MoveDrawing` | components/AnnotationCanvas.tsx:124-132 | when not drawing nothing changes; the eraser yields the `HandleErase` update and keeps the buffer; other tools append `pos` at the end of the buffer |
| `AnnotationCanvas.Canvas.EndDrawing` | components/AnnotationCanvas.tsx:134-148 | when not drawing nothing changes. Otherwise drawing stops and the buffer is emptied. One annotation is added iff the buffer held more than one point and the tool is not the eraser. Its points are the buffer and its type is `highlight` iff the tool is the highlighter. Its colour and unscaled width come from the props. Its opacity is `intensity/100` for the highlighter, else 1 |
| `AnnotationCanvas.Canvas.DrawAll` | components/AnnotationCanvas.tsx:34-67 | the calls are a clear, then every committed stroke in list order (`Rendered`), then the preview of the stroke in progress, drawn only while drawing with at least two points and a tool other than the eraser |
| `AnnotationCanvas.TraceStroke` | components/AnnotationCanvas.tsx:39-50 | one stroke is a styled `beginPath`, its path, then one `stroke` |
| `AnnotationCanvas.TracePath` | components/AnnotationCanvas.tsx:46-49 | the path loop emits the `PathCalls` of the points: `moveTo` the first scaled point, then `lineTo` each later one |
| `AnnotationCanvas.RenderedStep` | components/AnnotationCanvas.tsx:37-51 | handling one more annotation of the `forEach` appends that annotation's calls |
| `AnnotationCanvas.PathCallsShape` | components/AnnotationCanvas.tsx:46-49 | a path has one call per point: `moveTo` of the first scaled point, then `lineTo` of point i at position i |
| `AnnotationCanvas.PathCallsHaveNoStroke` | components/AnnotationCanvas.tsx:46-49 | tracing a path issues no `stroke` call |
| `AnnotationCanvas.RenderedStrokeCount` | components/AnnotationCanvas.tsx:37-51 | the committed strokes issue exactly one `stroke` per annotation with at least two points |
| `AnnotationCanvas.RenderedSkipsShort` | components/AnnotationCanvas.tsx:38 | annotations with fewer than two points leave no trace: rendering only the drawable ones gives the same calls |
| `AnnotationCanvas.RenderedAppend` | components/AnnotationCanvas.tsx:37 | annotations are drawn in list order: the calls for `a + b` are those for `a` followed by those for `b` |
| `AnnotationCanvas.StrokeGesture` | components/AnnotationCanvas.tsx:97-148 | press, two moves and release with the pen commit one `draw` stroke at opacity 1 whose points are the three mapped positions in order |
| `AnnotationCanvas.TapGesture` | components/AnnotationCanvas.tsx:134-145 | press and release without a move commits nothing, whatever the tool |
| `DocumentViewer.StrokeOpacityPerTool` | components/DocumentViewer.tsx:203 | with intensity 35 for the highlighter and 100 otherwise, a highlighter stroke gets opacity 0.35 and every other stroke 1 |
| `DocumentViewer.ClampZoom` | components/DocumentViewer.tsx:130 | the clamped zoom lies in [0.4, 8]; values inside are kept; values below give 0.4 and above give 8 |
| `DocumentViewer.ClampZoomIdempotentMonotone` | components/DocumentViewer.tsx:130 | clamping twice equals clamping once, and clamping preserves order |
| `DocumentViewer.PinchZoom` | components/DocumentViewer.tsx:125-130 | the zoom set by a pinch move always lies in [0.4, 8] |
| `DocumentViewer.PinchZoomRestores` | components/DocumentViewer.tsx:129-130 | fingers back at their starting spread give the starting zoom, clamped |
| `DocumentViewer.PinchZoomMonotone` | components/DocumentViewer.tsx:129-130 | spreading the fingers further never zooms out |
| `DocumentViewer.BaseWidthIsWidestPage` | components/DocumentViewer.tsx:64-77 | the base width (the widest rendered viewport ÷ 1.5) is the width of the widest rendered page at scale 1, or 0 when no page rendered |
| `DocumentViewer.Viewer.constructor` | components/DocumentViewer.tsx:37-53 | zoom 1, scroll tool, colour `#4f46e5`, thickness 3, the document's annotations, loading, no recorded pinch start |
| `DocumentViewer.Viewer.LoadPdf` | components/DocumentViewer.tsx:59-80 | the page loop renders exactly the pages that have a 2D context. The base width is the widest rendered viewport ÷ 1.5 and the base height the stacked heights ÷ 1.5. The zoom becomes `innerWidth / baseWidth`, unclamped. Loading ends and the annotations and pinch refs are untouched |
| `DocumentViewer.Viewer.LoadImage` | components/DocumentViewer.tsx:82-87 | the view size is the image's natural size, the zoom is `innerWidth / width`, loading ends; nothing else changes |
| `DocumentViewer.Viewer.LoadSettled` | components/DocumentViewer.tsx:82-92 | the `finally` of the load only clears the loading flag; for an image it runs as soon as the source is set, before the image has loaded |
| `DocumentViewer.Viewer.SetTool` | components/DocumentViewer.tsx:148-149 | picking a tool changes only the tool |
| `DocumentViewer.Viewer.TouchStart` | components/DocumentViewer.tsx:111-120 | a start with exactly two touches records their spread and the current zoom; any other count changes nothing; the zoom never changes |
| `DocumentViewer.Viewer.TouchMove` | components/DocumentViewer.tsx:122-133 | with exactly two touches and a recorded start, the zoom becomes the clamped pinch zoom in [0.4, 8]; otherwise the zoom is unchanged; the recorded start stays |
| `DocumentViewer.Viewer.TouchEnd` | components/DocumentViewer.tsx:135-137 | touch end forgets the start spread and changes nothing else, so later moves leave the zoom alone until a new two-finger start |
| `DocumentViewer.Viewer.AddAnnotation` | components/DocumentViewer.tsx:201 | the list becomes `old + [ann]` and that same list is saved under the document id |
| `DocumentViewer.Viewer.UpdateAnnotations` | components/DocumentViewer.tsx:202 | the list is replaced wholesale by the given list, which is saved under the document id |
| `DocumentViewer.Viewer.CanvasPress` | components/DocumentViewer.tsx:199-203 | with the scroll tool the canvas is unchanged; any other tool starts a gesture, pen and highlighter with exactly the mapped position in the buffer. With the eraser the buffer is kept, exactly the strokes not hit at the mapped position remain, and a save happens iff some stroke was hit. With other tools the list is untouched and nothing is saved. Whatever is saved is the new list. Zoom, tool, colour, thickness, pinch refs, loading, view size and pages stay as they were |
| `DocumentViewer.Viewer.CanvasRelease` | components/DocumentViewer.tsx:199-201 | a release saves iff a gesture with more than one point and a non-eraser tool was in progress. The saved list is the old list plus the stroke built from the buffer and the viewer's tool, colour and thickness before the release. The canvas ends not drawing with an empty buffer. Zoom, tool, colour, thickness, pinch refs, loading, view size and pages stay as they were |
| `StudyAnalytics.SumOverRemove` | App.tsx:126 | the per-subject goal sum does not depend on the order of the map's values |
| `StudyAnalytics.SumOverNonNegative` | App.tsx:126 | a sum of non-negative goals is non-negative |
| `StudyAnalytics.TotalCardsGoal` | App.tsx:125-128 | the card goal is never 0, and with non-negative goals it is at least 1, so the review progress divides by a positive number. It is the subject-goal sum when that is positive, else `dailyGoal`, with 0 read as 1 |
| `StudyAnalytics.Progress` | App.tsx:130-131 | progress is at most 100 and 0 without a positive goal; it is exactly 100 once the goal is met, and `done/goal·100` below it; it is non-negative for non-negative work |
| `StudyAnalytics.ProgressMonotone` | App.tsx:130-131 | more work done never lowers the progress |
| `StudyAnalytics.TopicCorrect` | App.tsx:137-142 | a topic's correct count never exceeds its question count |
| `StudyAnalytics.CountsAreTotals` | App.tsx:137-142 | after the `forEach` the map has an entry for a topic iff some question is on it and its name is not an `Object.prototype` property; that entry holds the topic's question count and correct count |
| `StudyAnalytics.KeyOrderListsKeys` | App.tsx:139 | the insertion order lists each key of the map exactly once |
| `StudyAnalytics.TallyTopics` | App.tsx:134-142 | the loop over the flattened questions builds exactly the `Counts` map and the first-seen key order, skipping topics named like `Object.prototype` properties |
| `StudyAnalytics.TallyStep` | App.tsx:138-141 | one question adds one to its topic's total (and to its correct count when right), and a first-seen topic joins the order; a topic named like an inherited property (`toString`, `constructor`, `__proto__`, …) reads as present, so it gets no entry and changes nothing |
| `StudyAnalytics.Entries` | App.tsx:144-149 | one row per key in order, holding the topic, `correct/total·100` and the total |
| `StudyAnalytics.InsertByAccuracy` | App.tsx:150 | insertion adds exactly the one row (as a multiset) |
| `StudyAnalytics.InsertKeepsSorted` | App.tsx:150 | inserting into rows sorted by accuracy keeps them sorted |
| `StudyAnalytics.SortByAccuracy` | App.tsx:150 | the sort is a permutation of its input |
| `StudyAnalytics.SortIsSorted` | App.tsx:150 | the sorted rows are in non-decreasing accuracy |
| `StudyAnalytics.HotTopics` | App.tsx:133-152 | the tally loop, the entries, the sort and the cut at 5 compute exactly `HotTopicsOf(history)` |
| `StudyAnalytics.SortKeepsDistinct` | App.tsx:144-150 | sorting rows with distinct topics keeps them distinct |
| `StudyAnalytics.SortedEntriesSpec` | App.tsx:134-150 | the rows before the cut are sorted by accuracy and have distinct topics, none named like an inherited property. Each row has the topic's real question count (≥ 1) and accuracy, and every other topic of the history has a row |
| `StudyAnalytics.HotTopicsIsCut` | App.tsx:151 | the table is the sorted rows cut to their first 5 |
| `StudyAnalytics.HotTopicsRows` | App.tsx:133-152 | the table has at most 5 rows, weakest first, with distinct topics, none named like an inherited property. Each row has its topic's question count (≥ 1) and `correct/total·100`, empty topics counting as "Geral" |
| `StudyAnalytics.HotTopicsCutsOnlyStronger` | App.tsx:150-151 | a topic with its own entry that is missing from the table means the table is full (5 rows) and that topic's accuracy is no lower than the fifth row's |
| `StudyAnalytics.HotTopicsOmitInheritedKeys` | App.tsx:137-145 | a topic named like an `Object.prototype` property never has a row, because `!topicsMap[tema]` reads the inherited member and `Object.entries` lists own keys only |
| `StudyAnalytics.SessionsOf` | App.tsx:157 | the filter keeps exactly the history's sessions of that notebook |
| `StudyAnalytics.BestAccuracy` | App.tsx:161 | the best accuracy is at least every session's ratio and equals some session's ratio; it is 0 for an empty history |
| `StudyAnalytics.SubjectsSummary` | App.tsx:156-160 | one row per notebook in notebook order, with id, name and the mean ratio of that notebook's sessions (0 without sessions) |
| `StudyAnalytics.SumRatiosBounds` | App.tsx:158 | the sum of n ratios each at most `hi` lies in [0, n·hi] |
| `StudyAnalytics.MeanRatioBound` | App.tsx:158 | the mean of ratios each at most `hi` lies in [0, hi] |
| `StudyAnalytics.SubjectAccuracyAtMostBest` | App.tsx:156-161 | no notebook's mean accuracy exceeds the best single session ratio |
| `StudyAnalytics.BestAccuracyAtMostOne` | App.tsx:161 | when no session has more right answers than questions, the best ratio is at most 1 |
| `App.InitialCardGoal` | App.tsx:38-49 | on a first run the card goal is the seed notebook's 10, not the global 20 |
| `App.SeedNotebooksHoldSeedCard` | App.tsx:27-36 | an empty store is seeded with one notebook `seed-nb-1` holding the seed card; a quiz on a fresh store, with or without that notebook active, draws on exactly that card |
| `App.FindNotebookSpec` | App.tsx:123 | the lookup finds nothing iff no notebook has the id; otherwise it returns the first notebook that has it |
| `App.AllFlashcardsMembers` | App.tsx:122 | the flattened list holds exactly the cards of the notebooks |
| `App.CountCorrect` | App.tsx:197 | the correct count never exceeds the number of questions |
| `App.CountCorrectCountsMatches` | App.tsx:197 | the correct count is the number of indices whose answer equals `respostaCorreta` exactly |
| `App.BuildResults` | App.tsx:198 | one entry per question, holding a copy of the question, the answer at that index (or none) and whether it matched exactly |
| `App.AnsweredResults` | App.tsx:198 | when every question was answered, every entry holds a non-empty answer |
| `App.CountMatchesEntries` | App.tsx:197-198 | the correct count equals the number of entries marked correct |
| `App.SessionResultConsistent` | App.tsx:199 | a stored snapshot has as many entries as `totalQuestions`; its `correctAnswers` equals its correct-marked entries and is at most `totalQuestions` |
| `App.CountPrefixStep` | App.tsx:197 | one more question adds one to the count exactly when its answer matches |
| `App.ThreeOfFive` | App.tsx:197 | three right and two wrong answers out of five score 3 |
| `App.PrependCard` | App.tsx:248 | every notebook with the id gets the card in front of its cards; every other notebook is unchanged; the list keeps its length and order |
| `App.PrependDocument` | App.tsx:261 | every notebook with the id gets the document in front of its documents; every other notebook is unchanged |
| `App.PrependCardGrowsCards` | App.tsx:248 | the flattened card list grows by one card per notebook with the id, and it contains the new card whenever such a notebook exists |
| `App.StudyApp.constructor` | App.tsx:52-79 | the app starts on the home view with no notebooks, the initial statistics, no active notebook and no quiz |
| `App.StudyApp.Init` | App.tsx:102-116 | an empty store gets the seed notebooks and a non-empty store is used as loaded; loaded statistics replace the current ones; the session is untouched |
| `App.StudyApp.NavigateTo` | App.tsx:165-172 | the view changes; outside the notebook and quiz views the active notebook is dropped, and it is kept inside them |
| `App.StudyApp.StartQuiz` | App.tsx:184-193 | it fails with the no-cards alert iff the target cards are empty. It starts iff generation succeeds with a non-empty list, which becomes the quiz. Then the index is 0, the answers are empty, the result is hidden and the view is the quiz. Otherwise the session and view are untouched. Notebooks and stats never change |
| `App.StudyApp.BeginSession` | App.tsx:191 | a fresh session on the first of the given questions, on the quiz view |
| `App.StudyApp.SelectOption` | App.tsx:350-351 | the answer at the current index becomes the clicked key; every other index, and everything else, is unchanged |
| `App.StudyApp.GoNext` | App.tsx:362 | "Próxima" advances by one iff the current question is answered, and changes nothing else |
| `App.StudyApp.GoPrevious` | App.tsx:358 | "Anterior" goes back by one, and does nothing on the first question |
| `App.StudyApp.FinishQuiz` | App.tsx:195-205 | on the last question, finishing happens iff it is answered. The snapshot (fresh id, the active id or `global`, the quiz length, the exact-match count, one entry per question) goes to the head of `quizHistory`. `questionsAnsweredToday` grows by the quiz length and every other stats field is unchanged. Question progress never drops. An unanswered last question changes nothing |
| `App.StudyApp.AnalysisArrived` | App.tsx:207-215 | the analysis text, never empty, is stored and the result pane shown; notebooks and stats are untouched |
| `App.StudyApp.CreateNotebook` | App.tsx:174-182 | a blank name is ignored; otherwise an empty notebook with the untrimmed name is appended, made active, and the notebooks view shown |
| `App.StudyApp.QuickCreateFlashcard` | App.tsx:231-254 | a card is created iff a notebook is chosen and question and answer are non-blank and not a lone `<br>`; it goes to the front of that notebook's cards |
| `App.StudyApp.AddDocument` | App.tsx:256-264 | a document (kind `pdf` iff the MIME type is `application/pdf`, no annotations) goes to the front of the active notebook's documents iff a non-empty notebook id is active |
| `GeminiService.CleanJson` | services/geminiService.ts:12-15 | an empty reply gives exactly `{"questions": []}`; any other reply gives a trimmed string with no code fence left |
| `GeminiService.NoFenceLeft` | services/geminiService.ts:14 | removing every "```" left to right leaves none, even where a removal joins backticks |
| `GeminiService.BackticksComeFromInput` | services/geminiService.ts:14 | after fence removal, leading backticks can only come from leading backticks of the input |
| `GeminiService.CleanJsonIdempotent` | services/geminiService.ts:12-15 | cleaning a cleaned reply changes nothing |
| `GeminiService.CleanTextIsFixed` | services/geminiService.ts:14 | non-empty trimmed text without fences passes through unchanged |
| `GeminiService.CleanJsonUnwrapsFence` | services/geminiService.ts:14 | a body wrapped in a ```` ```json ```` fence, and the bare body, both clean to the trimmed body |
| `GeminiService.Base64Payload` | services/geminiService.ts:18-20 | without the marker the input is kept whole. With it, the payload is the text right after the first `base64,`, up to the next `base64,` or the end, and contains no marker |
| `GeminiService.FlashcardLine` | services/geminiService.ts:63-65 | a prompt line is "FC", a run of decimal digits whose value is the card number, ": P: ", the stripped question, " \| R: " and the stripped answer |
| `GeminiService.PromptDataLines` | services/geminiService.ts:63-66 | when no stripped card text holds a newline, splitting the prompt data at newlines gives back exactly the card lines |
| `GeminiService.PromptIgnoresExtraCards` | services/geminiService.ts:64 | cards after the twentieth never reach the prompt |
| `GeminiService.GenerateQuizQuestions` | services/geminiService.ts:60-122 | no cards gives no questions without a model call. Failure comes iff the call throws or parsing fails, and carries the single generation error. Otherwise the result is the parsed `questions`, or none when the parsed object has no `questions` |
| `GeminiService.GenerateSeesFirstTwentyCards` | services/geminiService.ts:63-66 | generation depends on the first twenty cards only |
| `GeminiService.SummaryLineVerdict` | services/geminiService.ts:126 | line n starts with `Q{n}: `, followed by `Acertou` iff the answer was right. A right answer's line does not depend on the answer given; a wrong answer's line contains the answer given |
| `GeminiService.SummaryHasOneLinePerResult` | services/geminiService.ts:126 | when no topic or answer holds a newline, the summary splits into exactly one line per result |
| `GeminiService.SummaryLineIsOneLine` | services/geminiService.ts:126 | a summary line has no newline when its topic and answers have none |
| `GeminiService.AnalyzeQuizPerformance` | services/geminiService.ts:125-145 | the analysis is never empty and never throws. A non-empty model text is returned as it is; a missing or empty text gives "Feedback indisponível."; a throwing call gives the connection error |
| `JsString.TrimSpec` | services/geminiService.ts:14 | `trim` leaves no whitespace at either end, keeps trimmed text as is, and gives "" exactly for all-whitespace input |
| `JsString.ReplaceAll` | services/geminiService.ts:14 | a global literal replace leaves text without the pattern unchanged, and deleting never lengthens |
| `JsString.IndexOf` | services/geminiService.ts:18-19 | the search fails iff the pattern does not occur; a found index starts an occurrence |
| `JsString.IndexOfFirst` | services/geminiService.ts:18-19 | the found occurrence is the first: the text before it does not contain the pattern |
| `JsString.SplitJoinsBack` | services/geminiService.ts:19 | joining the pieces of a `split` with the separator gives back the input |
| `JsString.SplitPiecesLack` | services/geminiService.ts:19 | no piece of a `split` contains the separator |
| `JsString.SecondSplitPiece` | services/geminiService.ts:19 | a string containing the separator splits into at least two pieces; the second is the longest prefix of the text after the first separator that stops at the next separator |
| `JsString.SplitJoin` | services/geminiService.ts:66 | splitting lines joined by a one-character separator none of them contains gives back the lines |
| `JsString.DecimalString` | services/geminiService.ts:65 | the printed number is a non-empty digit string whose value is the number |

The datatypes of `types.dfy` (`Annotation` with `kind` only `Draw` or
`Highlight` and an ordered point list, `Tool` with exactly four values,
`QuizQuestion` with its option map, `QuizSessionResult` embedding a copy of
each question, `UserStats`) follow types.ts:2-72.

## Left out

- Rendering, layout and browser APIs: JSX, CSS, `lineCap`/`lineJoin`, pdf.js
  rasterisation itself, `execCommand` rich-text editing, emoji pickers,
  `FileReader`, `alert`. The page loop takes each page's size and whether a 2D
  context was available; `window.innerWidth` is a parameter.
- `Math.hypot` and floating point: the caller supplies the finger spread with
  `d ≥ 0 ∧ d² = dx² + dy²`. A two-finger start needs `d > 0`, so a zero start
  spread (a division by zero giving `Infinity`/`NaN` in the source) is not
  modelled. NaN and rounding are not modelled anywhere.
- `DocumentViewer.Viewer.LoadPdf` and `DocumentViewer.Viewer.LoadImage`
  require a positive base width. A PDF where no page got a 2D context, or an
  image of width 0, makes the source divide by 0 and set the zoom to
  `Infinity`, which the real-valued zoom cannot hold.
- Touch events with an empty touch list: the source then reads `clientX` of a
  touch event, which is `undefined`, giving `NaN`. The position functions
  require at least one touch.
- The `'select'` test in `startDrawing` (components/AnnotationCanvas.tsx:98):
  `Tool` has no such value (types.ts:72), so that test can never hold and the
  model has no branch for it.
- Identifier generation (`generateId`, `crypto.randomUUID`) and `Date.now()`:
  fresh ids and times are parameters.
- Storage (`services/storageService.ts`): `Init` receives what was loaded. The
  stats merge `{...prev, ...statsData}` is modelled as replacing the whole
  record, since the loaded record has every field. Saving on change is not
  modelled.
- The network calls, `stripHtml` and `JSON.parse` are function parameters. The
  prompt prose around the card data and around the result summary is not
  modelled: the model function receives the card data or the summary itself.
- `summarizeDocument` and `deepenKnowledge` beyond the base64 split: they are
  a model call and fixed fallback strings.
- Async ordering: each handler is one atomic step. `finishQuiz` is split at its
  `await` into `FinishQuiz` (scoring and history) and `AnalysisArrived`
  (analysis and result pane). Pressing "Finalizar" again before the analysis
  arrives would store a second snapshot. The source has no guard against
  that, and neither does the model.
- `FinishQuiz`: the `catch` fallback ("Simulado concluído e salvo no
  histórico.") is not modelled, because `analyzeQuizPerformance` catches its
  own errors and always returns a string, so that branch cannot run.
- UI flags with no effect on the modelled state (`isQuizLoading`,
  `isAnalyzingQuiz`, `selectedHistoricalQuiz`, sidebar flags, editor state)
  and the score percentage on the result pane.
- `components/FlashcardItem.tsx` is not part of this model (presentation
  only).
- `StudyAnalytics.TallyTopics`: for a topic named `constructor`, `toString`
  and the like, the source's increments land on the inherited member and give
  `NaN` there; for `__proto__` they write `total` and `correct` onto
  `Object.prototype`. The model only captures that such a topic gets no entry
  and no row; the writes to the shared prototype are not modelled.
- `StudyAnalytics.HotTopicsOf`: the key order of `Object.entries` is modelled
  as insertion order. JavaScript lists integer-like keys first. The proved
  properties do not depend on how ties in accuracy are ordered.
- `StudyAnalytics.SubjectsSummary` and `StudyAnalytics.BestAccuracy` require
  every session to have at least one question. A session with 0 questions
  would make the source divide 0 by 0 (NaN). `finishQuiz` only runs on a
  non-empty quiz, so the sessions it stores all have at least one question.
- `StudyAnalytics.TotalCardsGoal` is a ghost function, because the sum over a
  map's values picks keys in no fixed order.
- Streak, `lastStudyTimestamp`, `cardsReviewedToday` and `reviewsBySubject`
  are only displayed, never updated, in the modelled code. They are carried
  unchanged.
- No stroke is finalised when the tool changes in the middle of a gesture; the
  source does not do it either.

/** The study analytics of App.tsx: the daily card goal, the capped progress
    percentages, the weakest topics ("hot topics") and the per-notebook
    performance insights. */
module StudyAnalytics {
  import opened Types

  // ---------------------------------------------------------------------------
  // Daily goal and progress

  /** Sum of the values of `m` over the keys in `keys`. */
  ghost function SumOver(m: map<string, int>, keys: set<string>): int
    requires keys <= m.Keys
  {
    if keys == {} then 0
    else
      var k :| k in keys;
      m[k] + SumOver(m, keys - {k})
  }

  /** The sum does not depend on which key is taken first. */
  lemma {:induction false} SumOverRemove(m: map<string, int>, keys: set<string>, k: string)
    requires keys <= m.Keys && k in keys
    ensures SumOver(m, keys) == m[k] + SumOver(m, keys - {k})
    decreases |keys|
  {
    var j :| j in keys && SumOver(m, keys) == m[j] + SumOver(m, keys - {j});
    if j != k {
      SumOverRemove(m, keys - {j}, k);
      SumOverRemove(m, keys - {k}, j);
      assert keys - {j} - {k} == keys - {k} - {j};
    }
  }

  /** A sum of non-negative goals is non-negative. */
  lemma {:induction false} SumOverNonNegative(m: map<string, int>, keys: set<string>)
    requires keys <= m.Keys
    requires forall k :: k in keys ==> m[k] >= 0
    ensures SumOver(m, keys) >= 0
    decreases |keys|
  {
    if keys != {} {
      var k :| k in keys && SumOver(m, keys) == m[k] + SumOver(m, keys - {k});
      SumOverNonNegative(m, keys - {k});
    }
  }

  /** Sum of the per-subject goals (`Object.values(...).reduce`). */
  ghost function SubjectGoalSum(stats: UserStats): int {
    SumOver(stats.goalsBySubject, stats.goalsBySubject.Keys)
  }

  /** `totalCardsGoal`: the per-subject goals when they add up to something
      positive, else the global goal, with 0 read as 1 (`dailyGoal || 1`).
      It is never 0, and with non-negative goals it is at least 1, so the
      review progress always divides by a positive number. */
  ghost function TotalCardsGoal(stats: UserStats): (r: int)
    ensures r != 0
    ensures SubjectGoalSum(stats) > 0 ==> r == SubjectGoalSum(stats)
    ensures SubjectGoalSum(stats) <= 0 && stats.dailyGoal != 0 ==> r == stats.dailyGoal
    ensures SubjectGoalSum(stats) <= 0 && stats.dailyGoal == 0 ==> r == 1
    ensures stats.dailyGoal >= 0 && (forall k :: k in stats.goalsBySubject ==> stats.goalsBySubject[k] >= 0) ==>
      r >= 1
  {
    SumOverNonNegativeIf(stats.goalsBySubject);
    var specific := SubjectGoalSum(stats);
    if specific > 0 then specific
    else if stats.dailyGoal != 0 then stats.dailyGoal else 1
  }

  lemma SumOverNonNegativeIf(m: map<string, int>)
    ensures (forall k :: k in m ==> m[k] >= 0) ==> SumOver(m, m.Keys) >= 0
  {
    if forall k :: k in m ==> m[k] >= 0 {
      SumOverNonNegative(m, m.Keys);
    }
  }

  /** Progress towards a goal, in percent, capped at 100; 0 without a positive goal. */
  function Progress(done: int, goal: int): (r: real)
    ensures r <= 100.0
    ensures goal <= 0 ==> r == 0.0
    ensures goal > 0 && done >= goal ==> r == 100.0
    ensures goal > 0 && done <= goal ==> r * (goal as real) == (done as real) * 100.0
    ensures done >= 0 ==> r >= 0.0
  {
    if goal > 0 then
      var pct := (done as real) / (goal as real) * 100.0;
      if pct < 100.0 then pct else 100.0
    else 0.0
  }

  /** More work done never lowers the progress. */
  lemma ProgressMonotone(done1: int, done2: int, goal: int)
    requires done1 <= done2
    ensures Progress(done1, goal) <= Progress(done2, goal)
  {
    if goal > 0 {
      assert (done1 as real) / (goal as real) <= (done2 as real) / (goal as real);
    }
  }

  ghost function DailyReviewProgress(stats: UserStats): real {
    Progress(stats.cardsReviewedToday, TotalCardsGoal(stats))
  }

  function DailyQuestionProgress(stats: UserStats): real {
    Progress(stats.questionsAnsweredToday, stats.dailyQuestionGoal)
  }

  // ---------------------------------------------------------------------------
  // Hot topics

  /** Every question answered, session by session (`flatMap`). */
  function AllQuestions(history: seq<QuizSessionResult>): seq<QuestionResult> {
    if history == [] then []
    else AllQuestions(history[..|history| - 1]) + history[|history| - 1].questions
  }

  const GeneralTopic: string := "Geral"

  /** The topic a result is filed under: an empty `tema` counts as "Geral". */
  function TopicOf(q: QuestionResult): string {
    if q.question.tema == "" then GeneralTopic else q.question.tema
  }

  /** Questions on topic `t`. */
  function TopicTotal(qs: seq<QuestionResult>, t: string): nat {
    if qs == [] then 0
    else TopicTotal(qs[..|qs| - 1], t) + (if TopicOf(qs[|qs| - 1]) == t then 1 else 0)
  }

  /** Questions on topic `t` answered correctly. */
  function TopicCorrect(qs: seq<QuestionResult>, t: string): (r: nat)
    ensures r <= TopicTotal(qs, t)
  {
    if qs == [] then 0
    else
      var q := qs[|qs| - 1];
      TopicCorrect(qs[..|qs| - 1], t) + (if TopicOf(q) == t && q.isCorrect then 1 else 0)
  }

  /** The properties a plain object literal inherits from `Object.prototype`.
      For a topic with one of these names `topicsMap[tema]` reads the inherited
      function or object, which is truthy, so no entry of its own is created
      and the increments land on the inherited value: such a topic is never
      tallied and never listed. */
  const InheritedKeys: set<string> := {
    "constructor", "hasOwnProperty", "isPrototypeOf", "propertyIsEnumerable",
    "toLocaleString", "toString", "valueOf", "__proto__",
    "__defineGetter__", "__defineSetter__", "__lookupGetter__", "__lookupSetter__"
  }

  /** One `topicsMap` entry. */
  datatype Tally = Tally(total: nat, correct: nat)

  /** `topicsMap` after the `forEach` over `qs`. */
  function Counts(qs: seq<QuestionResult>): map<string, Tally> {
    if qs == [] then map[]
    else
      var m := Counts(qs[..|qs| - 1]);
      var q := qs[|qs| - 1];
      var t := TopicOf(q);
      if t in InheritedKeys then m
      else
        var before := if t in m then m[t] else Tally(0, 0);
        m[t := Tally(before.total + 1, before.correct + (if q.isCorrect then 1 else 0))]
  }

  /** The keys of `topicsMap` in the order they were first inserted. */
  function KeyOrder(qs: seq<QuestionResult>): seq<string> {
    if qs == [] then []
    else
      var t := TopicOf(qs[|qs| - 1]);
      KeyOrder(qs[..|qs| - 1]) + (if t in InheritedKeys || t in Counts(qs[..|qs| - 1]) then [] else [t])
  }

  /** The map entry for each topic counts exactly the questions on it, and a
      topic has an entry exactly when some question is on it and its name is
      not inherited. */
  lemma {:induction false} CountsAreTotals(qs: seq<QuestionResult>)
    ensures forall t :: t in Counts(qs) <==> TopicTotal(qs, t) > 0 && t !in InheritedKeys
    ensures forall t :: t in Counts(qs) ==>
      Counts(qs)[t] == Tally(TopicTotal(qs, t), TopicCorrect(qs, t))
  {
    if qs != [] {
      var init := qs[..|qs| - 1];
      var q := qs[|qs| - 1];
      CountsAreTotals(init);
      forall t
        ensures t in Counts(qs) <==> TopicTotal(qs, t) > 0 && t !in InheritedKeys
        ensures t in Counts(qs) ==> Counts(qs)[t] == Tally(TopicTotal(qs, t), TopicCorrect(qs, t))
      {
        assert TopicTotal(qs, t) == TopicTotal(init, t) + (if TopicOf(q) == t then 1 else 0);
        assert TopicCorrect(qs, t) == TopicCorrect(init, t) + (if TopicOf(q) == t && q.isCorrect then 1 else 0);
      }
    }
  }

  /** The insertion order lists each key of the map exactly once. */
  lemma {:induction false} KeyOrderListsKeys(qs: seq<QuestionResult>)
    ensures forall t :: t in KeyOrder(qs) <==> t in Counts(qs)
    ensures forall i, j :: 0 <= i < j < |KeyOrder(qs)| ==> KeyOrder(qs)[i] != KeyOrder(qs)[j]
  {
    if qs != [] {
      KeyOrderListsKeys(qs[..|qs| - 1]);
    }
  }

  /** A row of the hot-topics table. */
  datatype TopicStat = TopicStat(tema: string, accuracy: real, total: nat)

  /** `(correct / total) * 100`. */
  function Accuracy(correct: nat, total: nat): real
    requires total > 0
  {
    (correct as real) / (total as real) * 100.0
  }

  /** `Object.entries(topicsMap).map(...)`, with the keys in insertion order. */
  function Entries(order: seq<string>, counts: map<string, Tally>): (r: seq<TopicStat>)
    requires forall t :: t in order ==> t in counts && counts[t].total > 0
    ensures |r| == |order|
    ensures forall i :: 0 <= i < |r| ==>
      r[i] == TopicStat(order[i], Accuracy(counts[order[i]].correct, counts[order[i]].total),
                        counts[order[i]].total)
  {
    if order == [] then []
    else
      var t := order[|order| - 1];
      Entries(order[..|order| - 1], counts)
      + [TopicStat(t, Accuracy(counts[t].correct, counts[t].total), counts[t].total)]
  }

  predicate SortedByAccuracy(s: seq<TopicStat>) {
    forall i, j :: 0 <= i < j < |s| ==> s[i].accuracy <= s[j].accuracy
  }

  /** Inserts `x` after every element whose accuracy is not above its own. */
  function InsertByAccuracy(x: TopicStat, s: seq<TopicStat>): (r: seq<TopicStat>)
    ensures multiset(r) == multiset(s) + multiset{x}
    ensures |r| == |s| + 1
  {
    if s == [] then [x]
    else if s[|s| - 1].accuracy <= x.accuracy then s + [x]
    else
      assert s == s[..|s| - 1] + [s[|s| - 1]];
      InsertByAccuracy(x, s[..|s| - 1]) + [s[|s| - 1]]
  }

  lemma {:induction false} InsertKeepsSorted(x: TopicStat, s: seq<TopicStat>)
    requires SortedByAccuracy(s)
    ensures SortedByAccuracy(InsertByAccuracy(x, s))
  {
    if s != [] && s[|s| - 1].accuracy > x.accuracy {
      var init := s[..|s| - 1];
      var last := s[|s| - 1];
      assert SortedByAccuracy(init);
      assert AtMost(init, last.accuracy) by {
        assert forall k :: 0 <= k < |init| ==> init[k] == s[k];
      }
      InsertKeepsSorted(x, init);
      InsertKeepsBound(x, init, last.accuracy);
      var r0 := InsertByAccuracy(x, init);
      SortedSnoc(r0, last);
      assert InsertByAccuracy(x, s) == r0 + [last];
    }
  }

  /** No row is above accuracy `a`. */
  predicate AtMost(s: seq<TopicStat>, a: real) {
    forall i :: 0 <= i < |s| ==> s[i].accuracy <= a
  }

  lemma InsertKeepsBound(x: TopicStat, s: seq<TopicStat>, a: real)
    requires AtMost(s, a) && x.accuracy <= a
    ensures AtMost(InsertByAccuracy(x, s), a)
  {
    var r := InsertByAccuracy(x, s);
    forall i | 0 <= i < |r| ensures r[i].accuracy <= a {
      assert r[i] in multiset(s) + multiset{x};
      if r[i] in s {
        var k :| 0 <= k < |s| && s[k] == r[i];
      }
    }
  }

  lemma SortedSnoc(r: seq<TopicStat>, last: TopicStat)
    requires SortedByAccuracy(r) && AtMost(r, last.accuracy)
    ensures SortedByAccuracy(r + [last])
  {
    var t := r + [last];
    forall i, j | 0 <= i < j < |t| ensures t[i].accuracy <= t[j].accuracy {
      assert t[i] == r[i];
      if j < |r| {
        assert t[j] == r[j];
      }
    }
  }

  /** `.sort((a, b) => a.accuracy - b.accuracy)`: a stable insertion sort. */
  function SortByAccuracy(s: seq<TopicStat>): (r: seq<TopicStat>)
    ensures multiset(r) == multiset(s)
    ensures |r| == |s|
  {
    if s == [] then []
    else
      assert s == s[..|s| - 1] + [s[|s| - 1]];
      InsertByAccuracy(s[|s| - 1], SortByAccuracy(s[..|s| - 1]))
  }

  lemma {:induction false} SortIsSorted(s: seq<TopicStat>)
    ensures SortedByAccuracy(SortByAccuracy(s))
  {
    if s != [] {
      SortIsSorted(s[..|s| - 1]);
      InsertKeepsSorted(s[|s| - 1], SortByAccuracy(s[..|s| - 1]));
    }
  }

  /** At most this many topics are shown. */
  const HotTopicLimit: nat := 5

  /** `hotTopics`, as a function of the quiz history. */
  function HotTopicsOf(history: seq<QuizSessionResult>): seq<TopicStat> {
    var sorted := SortedEntries(AllQuestions(history));
    if |sorted| <= HotTopicLimit then sorted else sorted[..HotTopicLimit]
  }

  /** The one pass over the flattened questions that fills `topicsMap`,
      remembering the order in which topics were first seen. */
  method TallyTopics(qs: seq<QuestionResult>) returns (topics: map<string, Tally>, order: seq<string>)
    ensures topics == Counts(qs) && order == KeyOrder(qs)
  {
    topics := map[];
    order := [];
    var i := 0;
    while i < |qs|
      invariant 0 <= i <= |qs|
      invariant topics == Counts(qs[..i])
      invariant order == KeyOrder(qs[..i])
    {
      ghost var prevTopics, prevOrder := topics, order;
      topics, order := TallyQuestion(topics, order, qs[i]);
      TallyStep(qs, i, prevTopics, prevOrder, topics, order);
      i := i + 1;
    }
    assert qs[..i] == qs;
  }

  /** The `forEach` body for one question. */
  method TallyQuestion(topics: map<string, Tally>, order: seq<string>, q: QuestionResult)
    returns (topics': map<string, Tally>, order': seq<string>)
    ensures TallyNext(topics, order, q, topics', order')
  {
    topics', order' := topics, order;
    var t := TopicOf(q);
    // An inherited name reads as present, so it is never given an entry.
    if t !in InheritedKeys {
      // A topic seen for the first time starts from a zero tally.
      var before := if t in topics then topics[t] else Tally(0, 0);
      order' := order + (if t in topics then [] else [t]);
      topics' := topics[t := Tally(before.total + 1, before.correct + (if q.isCorrect then 1 else 0))];
    }
  }

  /** The map and order after the `forEach` body for `q`. */
  predicate TallyNext(topics: map<string, Tally>, order: seq<string>, q: QuestionResult,
                      topics': map<string, Tally>, order': seq<string>)
  {
    var t := TopicOf(q);
    var before := if t in topics then topics[t] else Tally(0, 0);
    if t in InheritedKeys then topics' == topics && order' == order
    else
      && topics' == topics[t := Tally(before.total + 1, before.correct + (if q.isCorrect then 1 else 0))]
      && order' == order + (if t in topics then [] else [t])
  }

  /** One more question: its topic's tally goes up, and a topic seen for the
      first time joins the order; a question on an inherited name changes nothing. */
  lemma TallyStep(qs: seq<QuestionResult>, i: nat, topics: map<string, Tally>, order: seq<string>,
                  topics': map<string, Tally>, order': seq<string>)
    requires i < |qs| && topics == Counts(qs[..i]) && order == KeyOrder(qs[..i])
    requires TallyNext(topics, order, qs[i], topics', order')
    ensures topics' == Counts(qs[..i + 1]) && order' == KeyOrder(qs[..i + 1])
  {
    assert qs[..i + 1][..i] == qs[..i];
  }

  /** The hot-topics table, built the way the source builds it: the tally
      pass, then entries, sort, slice. */
  method HotTopics(history: seq<QuizSessionResult>) returns (r: seq<TopicStat>)
    ensures r == HotTopicsOf(history)
  {
    var qs := AllQuestions(history);
    var topics, order := TallyTopics(qs);
    CountsAreTotals(qs);
    KeyOrderListsKeys(qs);
    var sorted := SortByAccuracy(Entries(order, topics));
    r := if |sorted| <= HotTopicLimit then sorted else sorted[..HotTopicLimit];
  }

  predicate DistinctTopics(s: seq<TopicStat>) {
    forall i, j :: 0 <= i < j < |s| ==> s[i].tema != s[j].tema
  }

  lemma {:induction false} InsertKeepsDistinct(x: TopicStat, s: seq<TopicStat>)
    requires DistinctTopics(s)
    requires forall k :: 0 <= k < |s| ==> s[k].tema != x.tema
    ensures DistinctTopics(InsertByAccuracy(x, s))
  {
    if s != [] && s[|s| - 1].accuracy > x.accuracy {
      var init := s[..|s| - 1];
      var last := s[|s| - 1];
      assert DistinctTopics(init);
      InsertKeepsDistinct(x, init);
      var r0 := InsertByAccuracy(x, init);
      forall i | 0 <= i < |r0|
        ensures r0[i].tema != last.tema
      {
        assert r0[i] in multiset(init) + multiset{x};
        if r0[i] in init {
          var k :| 0 <= k < |init| && init[k] == r0[i];
        }
      }
    }
  }

  /** Sorting rows with distinct topics leaves them distinct. */
  lemma {:induction false} SortKeepsDistinct(s: seq<TopicStat>)
    requires DistinctTopics(s)
    ensures DistinctTopics(SortByAccuracy(s))
  {
    if s != [] {
      var init := s[..|s| - 1];
      var x := s[|s| - 1];
      assert DistinctTopics(init);
      SortKeepsDistinct(init);
      var sorted := SortByAccuracy(init);
      forall k | 0 <= k < |sorted|
        ensures sorted[k].tema != x.tema
      {
        assert sorted[k] in multiset(init);
        var e :| 0 <= e < |init| && init[e] == sorted[k];
      }
      InsertKeepsDistinct(x, sorted);
    }
  }

  /** The rows before the cut: the entries in insertion order, sorted. */
  function SortedEntries(qs: seq<QuestionResult>): seq<TopicStat> {
    CountsAreTotals(qs);
    KeyOrderListsKeys(qs);
    SortByAccuracy(Entries(KeyOrder(qs), Counts(qs)))
  }

  /** The rows before the cut are sorted, have distinct topics, one per topic
      of the history, each with its real question count and accuracy. */
  lemma SortedEntriesSpec(qs: seq<QuestionResult>)
    ensures SortedByAccuracy(SortedEntries(qs)) && DistinctTopics(SortedEntries(qs))
    ensures |SortedEntries(qs)| == |KeyOrder(qs)|
    ensures forall k :: 0 <= k < |SortedEntries(qs)| ==>
      var row := SortedEntries(qs)[k];
      && row.tema !in InheritedKeys
      && row.total == TopicTotal(qs, row.tema) >= 1
      && row.accuracy == Accuracy(TopicCorrect(qs, row.tema), TopicTotal(qs, row.tema))
    ensures forall t :: TopicTotal(qs, t) > 0 && t !in InheritedKeys ==>
      exists k :: 0 <= k < |SortedEntries(qs)| && SortedEntries(qs)[k].tema == t
  {
    CountsAreTotals(qs);
    KeyOrderListsKeys(qs);
    var entries := Entries(KeyOrder(qs), Counts(qs));
    var sorted := SortByAccuracy(entries);
    assert SortedEntries(qs) == sorted;
    SortIsSorted(entries);
    SortKeepsDistinct(entries);
    EntriesRowsFaithful(qs, entries, sorted);
    EntriesCoverTopics(qs, entries, sorted);
  }

  /** Rows of the sorted entries describe their topic faithfully. */
  lemma EntriesRowsFaithful(qs: seq<QuestionResult>, entries: seq<TopicStat>, sorted: seq<TopicStat>)
    requires forall t :: t in Counts(qs) <==> TopicTotal(qs, t) > 0 && t !in InheritedKeys
    requires forall t :: t in Counts(qs) ==> Counts(qs)[t] == Tally(TopicTotal(qs, t), TopicCorrect(qs, t))
    requires forall t :: t in KeyOrder(qs) <==> t in Counts(qs)
    requires entries == Entries(KeyOrder(qs), Counts(qs))
    requires multiset(sorted) == multiset(entries)
    ensures forall k :: 0 <= k < |sorted| ==>
      && sorted[k].tema !in InheritedKeys
      && sorted[k].total == TopicTotal(qs, sorted[k].tema) >= 1
      && sorted[k].accuracy == Accuracy(TopicCorrect(qs, sorted[k].tema), TopicTotal(qs, sorted[k].tema))
  {
    var order := KeyOrder(qs);
    forall k | 0 <= k < |sorted|
      ensures sorted[k].tema !in InheritedKeys
      ensures sorted[k].total == TopicTotal(qs, sorted[k].tema) >= 1
      ensures sorted[k].accuracy == Accuracy(TopicCorrect(qs, sorted[k].tema), TopicTotal(qs, sorted[k].tema))
    {
      assert sorted[k] in multiset(entries);
      var e :| 0 <= e < |entries| && entries[e] == sorted[k];
      assert order[e] in order;
    }
  }

  /** Every topic of the history has a row among the sorted entries. */
  lemma EntriesCoverTopics(qs: seq<QuestionResult>, entries: seq<TopicStat>, sorted: seq<TopicStat>)
    requires forall t :: t in Counts(qs) <==> TopicTotal(qs, t) > 0 && t !in InheritedKeys
    requires forall t :: t in Counts(qs) ==> Counts(qs)[t] == Tally(TopicTotal(qs, t), TopicCorrect(qs, t))
    requires forall t :: t in KeyOrder(qs) <==> t in Counts(qs)
    requires entries == Entries(KeyOrder(qs), Counts(qs))
    requires multiset(sorted) == multiset(entries)
    ensures forall t :: TopicTotal(qs, t) > 0 && t !in InheritedKeys ==>
      exists k :: 0 <= k < |sorted| && sorted[k].tema == t
  {
    var order := KeyOrder(qs);
    forall t | TopicTotal(qs, t) > 0 && t !in InheritedKeys
      ensures exists k :: 0 <= k < |sorted| && sorted[k].tema == t
    {
      var e :| 0 <= e < |order| && order[e] == t;
      assert entries[e] in multiset(sorted);
      var k :| 0 <= k < |sorted| && sorted[k] == entries[e];
    }
  }

  /** The hot-topics table after the cut. */
  lemma HotTopicsIsCut(history: seq<QuizSessionResult>)
    ensures var sorted := SortedEntries(AllQuestions(history));
      HotTopicsOf(history) == if |sorted| <= HotTopicLimit then sorted else sorted[..HotTopicLimit]
  {
  }

  /** The rows of the hot-topics table: at most five, weakest first, distinct
      topics, each with its real question count and accuracy. */
  lemma HotTopicsRows(history: seq<QuizSessionResult>)
    ensures var r := HotTopicsOf(history);
      var qs := AllQuestions(history);
      && |r| <= HotTopicLimit
      && SortedByAccuracy(r)
      && DistinctTopics(r)
      && (forall i :: 0 <= i < |r| ==>
            && r[i].tema !in InheritedKeys
            && r[i].total == TopicTotal(qs, r[i].tema) >= 1
            && r[i].accuracy == Accuracy(TopicCorrect(qs, r[i].tema), TopicTotal(qs, r[i].tema)))
  {
    var qs := AllQuestions(history);
    var sorted := SortedEntries(qs);
    SortedEntriesSpec(qs);
    if |sorted| > HotTopicLimit {
      CutKeepsRows(qs, sorted, HotTopicLimit);
      assert HotTopicsOf(history) == sorted[..HotTopicLimit];
    } else {
      assert HotTopicsOf(history) == sorted;
    }
  }

  /** A prefix of sorted, distinct, faithful rows is sorted, distinct and faithful. */
  lemma CutKeepsRows(qs: seq<QuestionResult>, s: seq<TopicStat>, n: nat)
    requires n <= |s| && SortedByAccuracy(s) && DistinctTopics(s)
    requires forall i :: 0 <= i < |s| ==>
      && s[i].tema !in InheritedKeys
      && s[i].total == TopicTotal(qs, s[i].tema) >= 1
      && s[i].accuracy == Accuracy(TopicCorrect(qs, s[i].tema), TopicTotal(qs, s[i].tema))
    ensures SortedByAccuracy(s[..n]) && DistinctTopics(s[..n])
    ensures forall i :: 0 <= i < n ==>
      && s[..n][i].tema !in InheritedKeys
      && s[..n][i].total == TopicTotal(qs, s[..n][i].tema) >= 1
      && s[..n][i].accuracy == Accuracy(TopicCorrect(qs, s[..n][i].tema), TopicTotal(qs, s[..n][i].tema))
  {
    assert forall i :: 0 <= i < n ==> s[..n][i] == s[i];
  }

  /** A topic named like an `Object.prototype` property never has a row,
      however often it was asked. */
  lemma HotTopicsOmitInheritedKeys(history: seq<QuizSessionResult>, t: string)
    requires t in InheritedKeys
    ensures forall i :: 0 <= i < |HotTopicsOf(history)| ==> HotTopicsOf(history)[i].tema != t
  {
    HotTopicsRows(history);
  }

  /** Rows are only cut when there are more than five topics, and a topic that
      was cut is no weaker than any row shown. */
  lemma HotTopicsCutsOnlyStronger(history: seq<QuizSessionResult>, t: string)
    requires TopicTotal(AllQuestions(history), t) > 0 && t !in InheritedKeys
    requires forall i :: 0 <= i < |HotTopicsOf(history)| ==> HotTopicsOf(history)[i].tema != t
    ensures |HotTopicsOf(history)| == HotTopicLimit
    ensures var qs := AllQuestions(history);
      Accuracy(TopicCorrect(qs, t), TopicTotal(qs, t)) >= HotTopicsOf(history)[HotTopicLimit - 1].accuracy
  {
    var qs := AllQuestions(history);
    var sorted := SortedEntries(qs);
    SortedEntriesSpec(qs);
    HotTopicsIsCut(history);
    var r := HotTopicsOf(history);
    var k :| 0 <= k < |sorted| && sorted[k].tema == t;
    assert forall i :: 0 <= i < |r| ==> r[i] == sorted[i];
    assert k >= |r|;
    assert |r| == HotTopicLimit;
    assert sorted[HotTopicLimit - 1].accuracy <= sorted[k].accuracy;
  }

  // ---------------------------------------------------------------------------
  // Performance insights

  /** Every session has at least one question, so its ratio is defined. */
  predicate SessionsNonEmpty(history: seq<QuizSessionResult>) {
    forall i :: 0 <= i < |history| ==> history[i].totalQuestions > 0
  }

  /** `correctAnswers / totalQuestions`. */
  function Ratio(s: QuizSessionResult): real
    requires s.totalQuestions > 0
  {
    (s.correctAnswers as real) / (s.totalQuestions as real)
  }

  /** The sessions of one notebook, in history order. */
  function SessionsOf(history: seq<QuizSessionResult>, notebookId: string): (r: seq<QuizSessionResult>)
    ensures forall s :: s in r <==> s in history && s.notebookId == notebookId
    ensures |r| <= |history|
  {
    if history == [] then []
    else
      var s := history[|history| - 1];
      SessionsOf(history[..|history| - 1], notebookId) + (if s.notebookId == notebookId then [s] else [])
  }

  function SumRatios(sessions: seq<QuizSessionResult>): real
    requires SessionsNonEmpty(sessions)
  {
    if sessions == [] then 0.0
    else SumRatios(sessions[..|sessions| - 1]) + Ratio(sessions[|sessions| - 1])
  }

  /** A notebook's accuracy: the plain mean of its sessions' ratios, so every
      session weighs the same whatever its length; 0 without sessions. */
  function SubjectAccuracy(history: seq<QuizSessionResult>, notebookId: string): real
    requires SessionsNonEmpty(history)
  {
    var own := SessionsOf(history, notebookId);
    if |own| > 0 then SumRatios(own) / (|own| as real) else 0.0
  }

  /** `Math.max(...ratios)`, or 0 for an empty history. */
  function BestAccuracy(history: seq<QuizSessionResult>): (r: real)
    requires SessionsNonEmpty(history)
    ensures r >= 0.0
    ensures history == [] ==> r == 0.0
    ensures forall i :: 0 <= i < |history| ==> Ratio(history[i]) <= r
    ensures |history| > 0 ==> exists i :: 0 <= i < |history| && Ratio(history[i]) == r
  {
    if history == [] then 0.0
    else
      var init := history[..|history| - 1];
      var last := Ratio(history[|history| - 1]);
      if |init| == 0 then last
      else
        var best := BestAccuracy(init);
        assert forall i :: 0 <= i < |init| ==> history[i] == init[i];
        if best >= last then best else last
  }

  /** One row of `subjectsSummary`. */
  datatype SubjectSummary = SubjectSummary(id: string, name: string, accuracy: real)

  /** `subjectsSummary`: one row per notebook, in notebook order. */
  function SubjectsSummary(notebooks: seq<Notebook>, history: seq<QuizSessionResult>): (r: seq<SubjectSummary>)
    requires SessionsNonEmpty(history)
    ensures |r| == |notebooks|
    ensures forall i :: 0 <= i < |r| ==>
      r[i] == SubjectSummary(notebooks[i].id, notebooks[i].name, SubjectAccuracy(history, notebooks[i].id))
  {
    if notebooks == [] then []
    else
      var nb := notebooks[|notebooks| - 1];
      SubjectsSummary(notebooks[..|notebooks| - 1], history)
      + [SubjectSummary(nb.id, nb.name, SubjectAccuracy(history, nb.id))]
  }

  /** Sums of ratios are bounded by the count times any bound on each ratio. */
  lemma {:induction false} SumRatiosBounds(sessions: seq<QuizSessionResult>, hi: real)
    requires SessionsNonEmpty(sessions)
    requires forall i :: 0 <= i < |sessions| ==> Ratio(sessions[i]) <= hi
    ensures 0.0 <= SumRatios(sessions) <= (|sessions| as real) * hi
  {
    if sessions != [] {
      var init := sessions[..|sessions| - 1];
      assert forall i :: 0 <= i < |init| ==> init[i] == sessions[i];
      SumRatiosBounds(init, hi);
    }
  }

  /** A mean of values below a bound stays below it. */
  lemma MeanBound(sum: real, n: real, hi: real)
    requires n > 0.0 && 0.0 <= sum <= n * hi
    ensures 0.0 <= sum / n <= hi
  {
    var q := sum / n;
    assert q * n == sum;
    if q > hi {
      assert q * n > hi * n;
    }
  }

  /** The mean of ratios that are each at most `hi` is at most `hi`. */
  lemma MeanRatioBound(own: seq<QuizSessionResult>, hi: real)
    requires |own| > 0 && SessionsNonEmpty(own)
    requires forall i :: 0 <= i < |own| ==> Ratio(own[i]) <= hi
    ensures 0.0 <= SumRatios(own) / (|own| as real) <= hi
  {
    SumRatiosBounds(own, hi);
    MeanBound(SumRatios(own), |own| as real, hi);
  }

  /** No notebook's mean accuracy beats the best single session. */
  lemma SubjectAccuracyAtMostBest(history: seq<QuizSessionResult>, notebookId: string)
    requires SessionsNonEmpty(history)
    ensures 0.0 <= SubjectAccuracy(history, notebookId) <= BestAccuracy(history)
  {
    var own := SessionsOf(history, notebookId);
    var best := BestAccuracy(history);
    if |own| > 0 {
      forall i | 0 <= i < |own|
        ensures own[i].totalQuestions > 0 && Ratio(own[i]) <= best
      {
        assert own[i] in history;
        var j :| 0 <= j < |history| && history[j] == own[i];
      }
      MeanRatioBound(own, best);
    }
  }

  /** With at most as many correct answers as questions, no session ratio exceeds 1. */
  lemma BestAccuracyAtMostOne(history: seq<QuizSessionResult>)
    requires SessionsNonEmpty(history)
    requires forall i :: 0 <= i < |history| ==> history[i].correctAnswers <= history[i].totalQuestions
    ensures BestAccuracy(history) <= 1.0
  {
    if |history| > 0 {
      var i :| 0 <= i < |history| && Ratio(history[i]) == BestAccuracy(history);
      RatioAtMostOne(history[i]);
    }
  }

  lemma RatioAtMostOne(s: QuizSessionResult)
    requires 0 <= s.correctAnswers <= s.totalQuestions && s.totalQuestions > 0
    ensures 0.0 <= Ratio(s) <= 1.0
  {
    MeanBound(s.correctAnswers as real, s.totalQuestions as real, 1.0);
  }
}

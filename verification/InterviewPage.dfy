/**
  * src/pages/InterviewLive.tsx: questions and scores accumulated from stream events and merged with a
  * resume snapshot, and the local list of answers.
  */
module InterviewPage {
  import opened Lists
  import opened Options
  import opened InterviewEvents
  import opened Whitespace
  import Decimal

  datatype QuestionData = QuestionData(questionNo: Option<int>, question: string, dimension: string,
                                       expectedPoints: seq<string>, hints: seq<string>)

  datatype ScoreData = ScoreData(questionNo: int, score: real, dimension: string, feedback: string,
                                 subScores: map<string, real>)

  datatype Answer = Answer(content: string, seqNo: nat)

  datatype Page = Page(questions: seq<QuestionData>, scores: seq<ScoreData>, answers: seq<Answer>, sequenceNo: nat)

  const EMPTY_PAGE := Page([], [], [], 0)

  // Live events

  predicate HasScore(scores: seq<ScoreData>, n: int) { exists i :: 0 <= i < |scores| && scores[i].questionNo == n }

  predicate HasNumber(qs: seq<QuestionData>, n: int) { exists i :: 0 <= i < |qs| && qs[i].questionNo == Some(n) }

  predicate HasText(qs: seq<QuestionData>, text: string) { exists i :: 0 <= i < |qs| && qs[i].question == text }

  /** A score of an already scored question is dropped; an unnumbered score is always kept. */
  function AddScore(scores: seq<ScoreData>, s: ScoreData): seq<ScoreData> {
    if s.questionNo > 0 && HasScore(scores, s.questionNo) then scores else scores + [s]
  }

  /** A live question is known by its number when it has one, else by its text. */
  function AddQuestion(qs: seq<QuestionData>, q: QuestionData): seq<QuestionData> {
    if (if q.questionNo.Some? then HasNumber(qs, q.questionNo.value) else HasText(qs, q.question)) then qs
    else qs + [q]
  }

  function ScoreOfCard(c: Card): Option<ScoreData> {
    if c.score > 0.0 then Some(ScoreData(Or(c.questionNo, 0), c.score, c.dimension, c.feedback, c.subScores))
    else None
  }

  function QuestionOfCard(c: Card): Option<QuestionData> {
    if c.question == "" then None
    else
      var n := Or(c.questionNo, 0);
      Some(QuestionData(if n > 0 then Some(n) else None, c.question, c.dimension, c.expectedPoints, c.hints))
  }

  /** The score an event carries, if any. */
  function ScoreIn(e: Event): Option<ScoreData> {
    match e.kind
    case RoundScore => ScoreOfCard(Or(e.payload.summary, e.payload.own))
    case ScoreDelivered => ScoreOfCard(Or(e.payload.summary, e.payload.own))
    case NodeCompleted =>
      if e.node == "score" && e.payload.summary.Some? then ScoreOfCard(e.payload.summary.value) else None
    case _ => None
  }

  /** The question an event carries, if any. */
  function QuestionIn(e: Event): (q: Option<QuestionData>)
    ensures q.Some? && q.value.questionNo.Some? ==> q.value.questionNo.value > 0
  {
    match e.kind
    case NextQuestion => QuestionOfCard(e.payload.own)
    case NodeCompleted =>
      if e.node == "question_gen" && e.payload.summary.Some? then QuestionOfCard(e.payload.summary.value) else None
    case _ => None
  }

  function ScoresAfter(scores: seq<ScoreData>, e: Event): seq<ScoreData> {
    if ScoreIn(e).Some? then AddScore(scores, ScoreIn(e).value) else scores
  }

  function QuestionsAfter(qs: seq<QuestionData>, e: Event): seq<QuestionData> {
    if QuestionIn(e).Some? then AddQuestion(qs, QuestionIn(e).value) else qs
  }

  function Processed(p: Page, e: Event): Page {
    p.(scores := ScoresAfter(p.scores, e), questions := QuestionsAfter(p.questions, e))
  }

  function ProcessedAll(p: Page, es: seq<Event>): Page {
    if es == [] then p else Processed(ProcessedAll(p, es[..|es| - 1]), es[|es| - 1])
  }

  // The resume snapshot

  /** A field of the resume data: a number, not-a-number, a text and what Number makes of it, or anything else. */
  datatype RawNumber = Missing | NotANumber | Numeric(value: real) | Text(number: Option<real>)

  datatype RawEntry = RawEntry(questionNo: RawNumber, sequenceNo: RawNumber, question: Option<string>,
                               score: RawNumber, dimension: Option<string>, feedback: Option<string>,
                               expectedPoints: seq<Option<string>>, hints: seq<Option<string>>,
                               subScores: map<string, RawNumber>)

  datatype RawMessage = RawMessage(role: Option<string>, kind: Option<string>, content: Option<string>)

  /** The three collections; an entry that is not a record is None. */
  datatype Snapshot = Snapshot(questions: seq<Option<RawEntry>>, scores: seq<Option<RawEntry>>,
                               messages: seq<Option<RawMessage>>)

  datatype RestoredEntry = RestoredEntry(questionNo: Option<int>, sequenceNo: Option<int>, raw: RawEntry)

  function PositiveInteger(r: real): Option<int> {
    if r > 0.0 && r.Floor as real == r then Some(r.Floor) else None
  }

  /** toPositiveIntOrNull: zero, negative and fractional numbers are no identity. */
  function ToPositiveIntOrNull(v: RawNumber): (n: Option<int>)
    ensures n.Some? ==> n.value > 0
  {
    match v
    case Missing => None
    case NotANumber => None
    case Numeric(r) => PositiveInteger(r)
    case Text(number) => if number.Some? then PositiveInteger(number.value) else None
  }

  function ToRestored(raw: RawEntry): RestoredEntry {
    RestoredEntry(ToPositiveIntOrNull(raw.questionNo), ToPositiveIntOrNull(raw.sequenceNo), raw)
  }

  /** Records only, each validated. */
  function Validated(raws: seq<Option<RawEntry>>): seq<RestoredEntry> {
    if raws == [] then []
    else
      var last := raws[|raws| - 1];
      Validated(raws[..|raws| - 1]) + if last.Some? then [ToRestored(last.value)] else []
  }

  /** One identity: the question number, else the sequence number. */
  function EffectiveNumber(e: RestoredEntry): Option<int> {
    if e.questionNo.Some? then e.questionNo else e.sequenceNo
  }

  predicate Valid(e: RestoredEntry) { e == ToRestored(e.raw) }

  function QuestionKey(e: RestoredEntry, index: nat): string {
    if EffectiveNumber(e).Some? && EffectiveNumber(e).value >= 0 then
      "question-" + Decimal.Print(EffectiveNumber(e).value)
    else if Or(e.raw.question, "") != "" then "txt-" + e.raw.question.value
    else "fallback-" + Decimal.Print(index)
  }

  function ScoreKey(e: RestoredEntry, index: nat): string {
    if EffectiveNumber(e).Some? && EffectiveNumber(e).value >= 0 then
      "score-" + Decimal.Print(EffectiveNumber(e).value)
    else "fallback-" + Decimal.Print(index)
  }

  predicate KeyAmong<T>(items: seq<T>, keyOf: (T, nat) -> string, key: string) {
    exists j :: 0 <= j < |items| && keyOf(items[j], j) == key
  }

  /** The items whose key no earlier item has; an empty key is dropped. */
  function UniqueBy<T>(items: seq<T>, keyOf: (T, nat) -> string): seq<T> {
    if items == [] then []
    else
      var m := |items| - 1;
      var key := keyOf(items[m], m);
      UniqueBy(items[..m], keyOf) + if key == "" || KeyAmong(items[..m], keyOf, key) then [] else [items[m]]
  }

  function Strings(raws: seq<Option<string>>): seq<string> {
    if raws == [] then []
    else (if raws[0].Some? then [raws[0].value] else []) + Strings(raws[1..])
  }

  function ToQuestion(e: RestoredEntry): QuestionData {
    QuestionData(EffectiveNumber(e), Or(e.raw.question, ""), Or(e.raw.dimension, ""),
                 Strings(e.raw.expectedPoints), Strings(e.raw.hints))
  }

  /** Only the fields that are numbers are kept. */
  function SubScores(raws: map<string, RawNumber>): map<string, real> {
    map k | k in raws && raws[k].Numeric? :: raws[k].value
  }

  function ToScore(e: RestoredEntry): ScoreData {
    ScoreData(Or(EffectiveNumber(e), 0), if e.raw.score.Numeric? then e.raw.score.value else 0.0,
              Or(e.raw.dimension, ""), Or(e.raw.feedback, ""), SubScores(e.raw.subScores))
  }

  function RestoredQuestions(snap: Snapshot): seq<QuestionData> {
    Map(UniqueBy(Validated(snap.questions), QuestionKey), ToQuestion)
  }

  function RestoredScores(snap: Snapshot): seq<ScoreData> {
    Map(UniqueBy(Validated(snap.scores), ScoreKey), ToScore)
  }

  /** The merge compares numbers when both sides have one, and texts otherwise. */
  predicate SameQuestion(q: QuestionData, item: QuestionData) {
    if q.questionNo.Some? && q.questionNo.value > 0 && item.questionNo.Some? then item.questionNo == q.questionNo
    else item.question == q.question
  }

  function MergeQuestion(merged: seq<QuestionData>, q: QuestionData): seq<QuestionData> {
    if exists i :: 0 <= i < |merged| && SameQuestion(q, merged[i]) then merged else merged + [q]
  }

  /** Live questions laid over the restored ones. */
  function MergeQuestions(restored: seq<QuestionData>, live: seq<QuestionData>): seq<QuestionData> {
    if live == [] then restored
    else MergeQuestion(MergeQuestions(restored, live[..|live| - 1]), live[|live| - 1])
  }

  function MergeScores(restored: seq<ScoreData>, live: seq<ScoreData>): seq<ScoreData> {
    if live == [] then restored
    else
      var merged, s := MergeScores(restored, live[..|live| - 1]), live[|live| - 1];
      if s.questionNo > 0 && HasScore(merged, s.questionNo) then merged else merged + [s]
  }

  predicate IsUser(m: RawMessage) { m.role == Some("user") || m.kind == Some("human") }

  function UserContents(messages: seq<Option<RawMessage>>): seq<string> {
    if messages == [] then []
    else
      var last := messages[|messages| - 1];
      UserContents(messages[..|messages| - 1]) +
      if last.Some? && IsUser(last.value) then [Or(last.value.content, "")] else []
  }

  function Answers(contents: seq<string>): (answers: seq<Answer>)
    ensures |answers| == |contents|
  {
    seq(|contents|, i requires 0 <= i < |contents| => Answer(contents[i], i))
  }

  function Restored(p: Page, snap: Snapshot): Page {
    var answers := Answers(UserContents(snap.messages));
    Page(MergeQuestions(RestoredQuestions(snap), p.questions), MergeScores(RestoredScores(snap), p.scores),
         answers, |answers|)
  }

  // Answers

  /** A blank answer, or one without a session, is not submitted. */
  predicate Submits(sessionId: string, input: string) { Trim(input, IsJsSpace) != "" && sessionId != "" }

  function Submitted(p: Page, sessionId: string, input: string): Page {
    if !Submits(sessionId, input) then p
    else p.(answers := p.answers + [Answer(input, p.sequenceNo)], sequenceNo := p.sequenceNo + 1)
  }

  // The page as it is written

  method UniqueByLoop<T>(items: seq<T>, keyOf: (T, nat) -> string) returns (kept: seq<T>)
    ensures kept == UniqueBy(items, keyOf)
  {
    var seen: set<string> := {};
    kept := [];
    for i := 0 to |items|
      invariant kept == UniqueBy(items[..i], keyOf)
      invariant forall key :: key in seen <==> key != "" && KeyAmong(items[..i], keyOf, key)
    {
      var key := keyOf(items[i], i);
      assert items[..i + 1][..i] == items[..i];
      KeyAmongLast(items[..i], items[i], keyOf);
      assert items[..i] + [items[i]] == items[..i + 1];
      if key != "" && key !in seen {
        seen := seen + {key};
        kept := kept + [items[i]];
      } else {
        assert UniqueBy(items[..i], keyOf) + [] == UniqueBy(items[..i], keyOf);
      }
    }
    assert items[..|items|] == items;
  }

  lemma KeyAmongLast<T>(items: seq<T>, item: T, keyOf: (T, nat) -> string)
    ensures forall key :: KeyAmong(items + [item], keyOf, key) <==>
                          KeyAmong(items, keyOf, key) || keyOf(item, |items|) == key
  {
    var all := items + [item];
    forall key
      ensures KeyAmong(all, keyOf, key) <==> KeyAmong(items, keyOf, key) || keyOf(item, |items|) == key
    {
      if KeyAmong(items, keyOf, key) {
        var j :| 0 <= j < |items| && keyOf(items[j], j) == key;
        assert all[j] == items[j];
      }
      if KeyAmong(all, keyOf, key) {
        var j :| 0 <= j < |all| && keyOf(all[j], j) == key;
        assert j < |items| ==> items[j] == all[j];
      }
      assert all[|items|] == item;
    }
  }

  class InterviewLive {
    var questions: seq<QuestionData>
    var scores: seq<ScoreData>
    var userAnswers: seq<Answer>
    var sequenceNo: nat
    var lastProcessed: nat

    constructor ()
      ensures View() == EMPTY_PAGE && lastProcessed == 0
    {
      questions, scores, userAnswers, sequenceNo, lastProcessed := [], [], [], 0, 0;
    }

    ghost function View(): Page
      reads this
    {
      Page(questions, scores, userAnswers, sequenceNo)
    }

    method ProcessEvent(e: Event)
      modifies this`questions, this`scores
      ensures View() == Processed(old(View()), e)
    {
      var s, q := ScoreIn(e), QuestionIn(e);
      if s.Some? && !(s.value.questionNo > 0 && HasScore(scores, s.value.questionNo)) {
        scores := scores + [s.value];
      }
      if q.Some? {
        var known := if q.value.questionNo.Some? then HasNumber(questions, q.value.questionNo.value)
                     else HasText(questions, q.value.question);
        if !known {
          questions := questions + [q.value];
        }
      }
    }

    /** The effect that runs when the stream's event list grew: each new event once, in order. */
    method DrainEvents(events: seq<Event>)
      modifies this`questions, this`scores, this`lastProcessed
      ensures |events| <= old(lastProcessed) ==> View() == old(View()) && lastProcessed == old(lastProcessed)
      ensures |events| > old(lastProcessed) ==>
                View() == ProcessedAll(old(View()), events[old(lastProcessed)..]) && lastProcessed == |events|
    {
      if |events| <= lastProcessed {
        return;
      }
      var start := lastProcessed;
      ghost var due := events[start..];
      for i := start to |events|
        modifies this`questions, this`scores
        invariant View() == ProcessedAll(old(View()), due[..i - start])
      {
        assert due[..i - start + 1][..i - start] == due[..i - start];
        ProcessEvent(events[i]);
      }
      assert due[..|due|] == due;
      lastProcessed := |events|;
    }

    method Restore(snap: Snapshot)
      modifies this`questions, this`scores, this`userAnswers, this`sequenceNo
      ensures View() == Restored(old(View()), snap)
    {
      var keptQuestions := UniqueByLoop(Validated(snap.questions), QuestionKey);
      var merged := Map(keptQuestions, ToQuestion);
      for i := 0 to |questions|
        invariant questions == old(questions)
        invariant merged == MergeQuestions(RestoredQuestions(snap), questions[..i])
      {
        var q := questions[i];
        assert questions[..i + 1][..i] == questions[..i];
        var known := exists j :: 0 <= j < |merged| && SameQuestion(q, merged[j]);
        if !known {
          merged := merged + [q];
        }
      }
      assert questions[..|questions|] == questions;
      questions := merged;

      var keptScores := UniqueByLoop(Validated(snap.scores), ScoreKey);
      var mergedScores := Map(keptScores, ToScore);
      for i := 0 to |scores|
        invariant scores == old(scores)
        invariant mergedScores == MergeScores(RestoredScores(snap), scores[..i])
      {
        var s := scores[i];
        assert scores[..i + 1][..i] == scores[..i];
        if !(s.questionNo > 0 && HasScore(mergedScores, s.questionNo)) {
          mergedScores := mergedScores + [s];
        }
      }
      assert scores[..|scores|] == scores;
      scores := mergedScores;

      userAnswers := Answers(UserContents(snap.messages));
      sequenceNo := |userAnswers|;
    }

    method SubmitAnswer(sessionId: string, input: string)
      modifies this`userAnswers, this`sequenceNo
      ensures View() == Submitted(old(View()), sessionId, input)
    {
      if Trim(input, IsJsSpace) == "" || sessionId == "" {
        return;
      }
      userAnswers := userAnswers + [Answer(input, sequenceNo)];
      sequenceNo := sequenceNo + 1;
    }
  }
}

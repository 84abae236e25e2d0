/**
  * The interview page over whole runs: the resume snapshot commutes with the live stream, identities
  * stay distinct, and stream and page together count every score once.
  */
module InterviewMerge {
  import opened Lists
  import opened Options
  import opened InterviewEvents
  import opened InterviewPage
  import Decimal

  // Scores

  function ScoresOver(scores: seq<ScoreData>, es: seq<Event>): seq<ScoreData> {
    if es == [] then scores else ScoresAfter(ScoresOver(scores, es[..|es| - 1]), es[|es| - 1])
  }

  function QuestionsOver(qs: seq<QuestionData>, es: seq<Event>): seq<QuestionData> {
    if es == [] then qs else QuestionsAfter(QuestionsOver(qs, es[..|es| - 1]), es[|es| - 1])
  }

  lemma {:induction false} ProcessedAllParts(p: Page, es: seq<Event>)
    ensures ProcessedAll(p, es) == p.(scores := ScoresOver(p.scores, es), questions := QuestionsOver(p.questions, es))
  {
    if es != [] {
      ProcessedAllParts(p, es[..|es| - 1]);
    }
  }

  lemma HasScoreLast(scores: seq<ScoreData>, s: ScoreData, n: int)
    ensures HasScore(scores + [s], n) <==> HasScore(scores, n) || s.questionNo == n
  {
    var all := scores + [s];
    if HasScore(scores, n) {
      var i :| 0 <= i < |scores| && scores[i].questionNo == n;
      assert all[i] == scores[i];
    }
    assert all[|scores|] == s;
  }

  lemma {:induction false} MergedScoresRepresent(restored: seq<ScoreData>, live: seq<ScoreData>, n: int)
    requires n > 0
    ensures HasScore(MergeScores(restored, live), n) <==> HasScore(restored, n) || HasScore(live, n)
  {
    if live != [] {
      var earlier, s := live[..|live| - 1], live[|live| - 1];
      MergedScoresRepresent(restored, earlier, n);
      assert earlier + [s] == live;
      HasScoreLast(earlier, s, n);
      HasScoreLast(MergeScores(restored, earlier), s, n);
    }
  }

  /** Merging after one live event is applying the event after the merge. */
  lemma MergeScoresStep(restored: seq<ScoreData>, live: seq<ScoreData>, e: Event)
    ensures MergeScores(restored, ScoresAfter(live, e)) == ScoresAfter(MergeScores(restored, live), e)
  {
    if ScoreIn(e).Some? {
      var s := ScoreIn(e).value;
      if s.questionNo > 0 {
        MergedScoresRepresent(restored, live, s.questionNo);
      }
      assert (live + [s])[..|live|] == live;
    }
  }

  lemma {:induction false} MergeScoresCommutes(restored: seq<ScoreData>, live: seq<ScoreData>, es: seq<Event>)
    ensures MergeScores(restored, ScoresOver(live, es)) == ScoresOver(MergeScores(restored, live), es)
  {
    if es != [] {
      var earlier := es[..|es| - 1];
      MergeScoresCommutes(restored, live, earlier);
      MergeScoresStep(restored, ScoresOver(live, earlier), es[|es| - 1]);
    }
  }

  lemma {:induction false} ScoresOverConcat(scores: seq<ScoreData>, a: seq<Event>, b: seq<Event>)
    ensures ScoresOver(scores, a + b) == ScoresOver(ScoresOver(scores, a), b)
  {
    if b == [] {
      assert a + b == a;
    } else {
      var m := |b| - 1;
      ScoresOverConcat(scores, a, b[..m]);
      assert (a + b)[..|a| + m] == a + b[..m];
    }
  }

  /** The i-th event is the first to carry a score of question n. */
  predicate FirstScoreOf(es: seq<Event>, i: nat, n: int) {
    i < |es| && ScoreIn(es[i]).Some? && ScoreIn(es[i]).value.questionNo == n &&
    forall j :: 0 <= j < i && ScoreIn(es[j]).Some? ==> ScoreIn(es[j]).value.questionNo != n
  }

  lemma {:induction false} NoScoreYet(base: seq<ScoreData>, es: seq<Event>, n: int)
    requires !HasScore(base, n)
    requires forall j :: 0 <= j < |es| && ScoreIn(es[j]).Some? ==> ScoreIn(es[j]).value.questionNo != n
    ensures !HasScore(ScoresOver(base, es), n)
  {
    if es != [] {
      var earlier := es[..|es| - 1];
      NoScoreYet(base, earlier, n);
      if ScoreIn(es[|es| - 1]).Some? {
        HasScoreLast(ScoresOver(base, earlier), ScoreIn(es[|es| - 1]).value, n);
      }
    }
  }

  /** The list shows s for question n and nothing else. */
  predicate OnlyScore(scores: seq<ScoreData>, n: int, s: ScoreData) {
    s in scores && s.questionNo == n && forall k :: 0 <= k < |scores| && scores[k].questionNo == n ==> scores[k] == s
  }

  lemma OnlyScoreStays(scores: seq<ScoreData>, n: int, s: ScoreData, e: Event)
    requires n > 0 && OnlyScore(scores, n, s)
    ensures OnlyScore(ScoresAfter(scores, e), n, s)
  {
    var i :| 0 <= i < |scores| && scores[i] == s;
    assert HasScore(scores, n);
  }

  /** The first score of a question wins: later ones of that question, in whatever event, change nothing. */
  lemma {:induction false} FirstScoreWins(base: seq<ScoreData>, es: seq<Event>, i: nat, n: int)
    requires n > 0 && !HasScore(base, n) && FirstScoreOf(es, i, n)
    ensures OnlyScore(ScoresOver(base, es), n, ScoreIn(es[i]).value)
  {
    var m := |es| - 1;
    var earlier, s := ScoresOver(base, es[..m]), ScoreIn(es[i]).value;
    if i < m {
      FirstScoreWins(base, es[..m], i, n);
      OnlyScoreStays(earlier, n, s, es[m]);
    } else {
      NoScoreYet(base, es[..m], n);
      assert (earlier + [s])[|earlier|] == s;
    }
  }

  /**
    * Wherever the resume snapshot falls among the events, the final score list is the same, order and
    * winners included: as if it had come first.
    */
  lemma {:induction false} SnapshotCommutesWithScores(p: Page, snap: Snapshot, before: seq<Event>, after: seq<Event>)
    ensures ProcessedAll(Restored(ProcessedAll(p, before), snap), after).scores ==
            ProcessedAll(Restored(p, snap), before + after).scores
  {
    var restored := RestoredScores(snap);
    ProcessedAllParts(p, before);
    ProcessedAllParts(Restored(ProcessedAll(p, before), snap), after);
    ProcessedAllParts(Restored(p, snap), before + after);
    MergeScoresCommutes(restored, p.scores, before);
    ScoresOverConcat(MergeScores(restored, p.scores), before, after);
  }

  // Questions

  /** Of a live question and any other with its text, both or neither have a number. */
  predicate ClashFree(live: seq<QuestionData>, all: seq<QuestionData>) {
    forall i, j :: 0 <= i < |live| && 0 <= j < |all| && live[i].question == all[j].question ==>
      (live[i].questionNo.Some? <==> all[j].questionNo.Some?)
  }

  /** The questions that come live, among all that can meet: numbered properly, and without a clash. */
  predicate Clear(live: seq<QuestionData>, all: seq<QuestionData>) {
    ClashFree(live, all) && From(live, all) && forall i :: 0 <= i < |live| ==> Numbered(live[i])
  }

  predicate From(qs: seq<QuestionData>, all: seq<QuestionData>) { forall i :: 0 <= i < |qs| ==> qs[i] in all }

  predicate Numbered(q: QuestionData) { q.questionNo.Some? ==> q.questionNo.value > 0 }

  /** Merging and live adding part ways exactly when a new number meets an unnumbered item with its text. */
  lemma MergeDiffersIff(items: seq<QuestionData>, q: QuestionData)
    requires Numbered(q)
    ensures MergeQuestion(items, q) != AddQuestion(items, q) <==>
            q.questionNo.Some? && !HasNumber(items, q.questionNo.value) &&
            exists i :: 0 <= i < |items| && items[i].questionNo.None? && items[i].question == q.question
  {
  }

  lemma ClearMergeIsAdd(items: seq<QuestionData>, q: QuestionData, live: seq<QuestionData>, all: seq<QuestionData>)
    requires Clear(live, all) && From(items, all) && q in live
    ensures MergeQuestion(items, q) == AddQuestion(items, q)
  {
  }

  /** What a live question is known by is present in the list. */
  predicate Known(qs: seq<QuestionData>, q: QuestionData) {
    if q.questionNo.Some? then HasNumber(qs, q.questionNo.value) else HasText(qs, q.question)
  }

  lemma KnownLast(qs: seq<QuestionData>, q: QuestionData, x: QuestionData)
    ensures Known(qs, q) ==> Known(qs + [x], q)
    ensures Known(qs + [q], q)
    ensures Known(qs + [x], q) ==>
              Known(qs, q) || (if q.questionNo.Some? then x.questionNo == q.questionNo else x.question == q.question)
  {
    var all := qs + [x];
    if Known(qs, q) {
      if q.questionNo.Some? {
        var i :| 0 <= i < |qs| && qs[i].questionNo == q.questionNo;
        assert all[i] == qs[i];
      } else {
        var i :| 0 <= i < |qs| && qs[i].question == q.question;
        assert all[i] == qs[i];
      }
    }
    assert (qs + [q])[|qs|] == q;
  }

  /** Without clashes the merge keeps what each live question is known by. */
  lemma {:induction false} MergeKeepsKnown(restored: seq<QuestionData>, present: seq<QuestionData>, q: QuestionData,
                                           live: seq<QuestionData>, all: seq<QuestionData>)
    requires Clear(live, all) && From(restored, all) && From(present, live) && q in live && Known(present, q)
    ensures Known(MergeQuestions(restored, present), q)
  {
    var earlier, x := present[..|present| - 1], present[|present| - 1];
    var merged := MergeQuestions(restored, earlier);
    assert present == earlier + [x];
    FromLive(earlier, live, all);
    MergedFrom(restored, earlier, all);
    ClearMergeIsAdd(merged, x, live, all);
    KnownLast(earlier, q, x);
    KnownLast(merged, q, x);
    KnownLast(merged, x, x);
    if Known(earlier, q) {
      MergeKeepsKnown(restored, earlier, q, live, all);
    } else {
      SameIdentityKnown(AddQuestion(merged, x), q, x, live, all);
    }
  }

  lemma FromLive(qs: seq<QuestionData>, live: seq<QuestionData>, all: seq<QuestionData>)
    requires From(qs, live) && From(live, all)
    ensures From(qs, all)
  {
  }

  /** Two live questions known by the same thing are known together, when nothing clashes. */
  lemma SameIdentityKnown(qs: seq<QuestionData>, q: QuestionData, x: QuestionData, live: seq<QuestionData>,
                          all: seq<QuestionData>)
    requires Clear(live, all) && q in live && x in live
    requires if q.questionNo.Some? then x.questionNo == q.questionNo else x.question == q.question
    requires Known(qs, x)
    ensures Known(qs, q)
  {
    assert x in all;
  }

  lemma {:induction false} MergedFrom(restored: seq<QuestionData>, live: seq<QuestionData>, all: seq<QuestionData>)
    requires From(restored, all) && From(live, all)
    ensures From(MergeQuestions(restored, live), all)
  {
    if live != [] {
      MergedFrom(restored, live[..|live| - 1], all);
    }
  }

  /** The questions that the events carry, in order. */
  function QuestionsIn(es: seq<Event>): seq<QuestionData> {
    if es == [] then []
    else
      var q := QuestionIn(es[|es| - 1]);
      QuestionsIn(es[..|es| - 1]) + if q.Some? then [q.value] else []
  }

  lemma {:induction false} LiveFrom(live: seq<QuestionData>, es: seq<Event>, all: seq<QuestionData>)
    requires From(live, all) && From(QuestionsIn(es), all)
    ensures From(QuestionsOver(live, es), all)
  {
    if es != [] {
      var q := QuestionIn(es[|es| - 1]);
      var earlier := QuestionsIn(es[..|es| - 1]);
      FromLast(earlier, q, all);
      LiveFrom(live, es[..|es| - 1], all);
    }
  }

  lemma FromLast(earlier: seq<QuestionData>, q: Option<QuestionData>, all: seq<QuestionData>)
    requires From(earlier + (if q.Some? then [q.value] else []), all)
    ensures From(earlier, all) && (q.Some? ==> q.value in all)
  {
    var qs := earlier + if q.Some? then [q.value] else [];
    assert forall i :: 0 <= i < |earlier| ==> qs[i] == earlier[i];
    assert q.Some? ==> qs[|earlier|] == q.value;
  }

  lemma MergeQuestionsStep(restored: seq<QuestionData>, present: seq<QuestionData>, q: QuestionData,
                           live: seq<QuestionData>, all: seq<QuestionData>)
    requires Clear(live, all) && From(restored, all) && From(present, live) && q in live
    ensures MergeQuestions(restored, AddQuestion(present, q)) == AddQuestion(MergeQuestions(restored, present), q)
  {
    if Known(present, q) {
      MergeKeepsKnown(restored, present, q, live, all);
    } else {
      assert (present + [q])[..|present|] == present;
      FromLive(present, live, all);
      MergedFrom(restored, present, all);
      ClearMergeIsAdd(MergeQuestions(restored, present), q, live, all);
    }
  }

  lemma {:induction false} MergeQuestionsCommutes(restored: seq<QuestionData>, present: seq<QuestionData>,
                                                  es: seq<Event>, live: seq<QuestionData>, all: seq<QuestionData>)
    requires Clear(live, all) && From(restored, all) && From(present, live) && From(QuestionsIn(es), live)
    ensures MergeQuestions(restored, QuestionsOver(present, es)) == QuestionsOver(MergeQuestions(restored, present), es)
  {
    if es != [] {
      var earlier, q := es[..|es| - 1], QuestionIn(es[|es| - 1]);
      FromLast(QuestionsIn(earlier), q, live);
      MergeQuestionsCommutes(restored, present, earlier, live, all);
      LiveFrom(present, earlier, live);
      if q.Some? {
        MergeQuestionsStep(restored, QuestionsOver(present, earlier), q.value, live, all);
      }
    }
  }

  lemma {:induction false} QuestionsOverConcat(qs: seq<QuestionData>, a: seq<Event>, b: seq<Event>)
    ensures QuestionsOver(qs, a + b) == QuestionsOver(QuestionsOver(qs, a), b)
  {
    if b == [] {
      assert a + b == a;
    } else {
      var m := |b| - 1;
      QuestionsOverConcat(qs, a, b[..m]);
      assert (a + b)[..|a| + m] == a + b[..m];
    }
  }

  /** The questions that come live: those on the page, and those the events carry. */
  function LiveQuestions(p: Page, es: seq<Event>): seq<QuestionData> { p.questions + QuestionsIn(es) }

  /** Everything that can meet in the question list: restored questions and live ones. */
  function Vocabulary(p: Page, snap: Snapshot, es: seq<Event>): seq<QuestionData> {
    RestoredQuestions(snap) + LiveQuestions(p, es)
  }

  lemma VocabularyParts(p: Page, snap: Snapshot, es: seq<Event>)
    ensures From(RestoredQuestions(snap), Vocabulary(p, snap, es))
    ensures From(LiveQuestions(p, es), Vocabulary(p, snap, es))
    ensures From(p.questions, LiveQuestions(p, es)) && From(QuestionsIn(es), LiveQuestions(p, es))
  {
  }

  /**
    * Wherever the resume snapshot falls among the events, the final question list is the same, provided
    * no live question shares its text with another of which just one has a number.
    */
  lemma {:induction false} SnapshotCommutesWithQuestions(p: Page, snap: Snapshot, before: seq<Event>, after: seq<Event>)
    requires ClashFree(LiveQuestions(p, before), Vocabulary(p, snap, before))
    requires forall i :: 0 <= i < |p.questions| ==> Numbered(p.questions[i])
    ensures ProcessedAll(Restored(ProcessedAll(p, before), snap), after).questions ==
            ProcessedAll(Restored(p, snap), before + after).questions
  {
    var restored, live, all := RestoredQuestions(snap), LiveQuestions(p, before), Vocabulary(p, snap, before);
    CarriedNumbered(before);
    VocabularyParts(p, snap, before);
    ProcessedAllParts(p, before);
    ProcessedAllParts(Restored(ProcessedAll(p, before), snap), after);
    ProcessedAllParts(Restored(p, snap), before + after);
    MergeQuestionsCommutes(restored, p.questions, before, live, all);
    QuestionsOverConcat(MergeQuestions(restored, p.questions), before, after);
  }

  lemma VocabularyNumbered(p: Page, snap: Snapshot, es: seq<Event>)
    requires forall i :: 0 <= i < |p.questions| ==> Numbered(p.questions[i])
    ensures forall x :: x in Vocabulary(p, snap, es) ==> Numbered(x)
  {
    RestoredNumbered(snap);
    CarriedNumbered(es);
  }

  lemma {:induction false} CarriedNumbered(es: seq<Event>)
    ensures forall i :: 0 <= i < |QuestionsIn(es)| ==> Numbered(QuestionsIn(es)[i])
  {
    if es != [] {
      CarriedNumbered(es[..|es| - 1]);
    }
  }

  lemma {:induction false} UniqueByKeeps<T>(items: seq<T>, keyOf: (T, nat) -> string)
    ensures forall i :: 0 <= i < |UniqueBy(items, keyOf)| ==> UniqueBy(items, keyOf)[i] in items
  {
    if items != [] {
      UniqueByKeeps(items[..|items| - 1], keyOf);
    }
  }

  lemma {:induction false} ValidatedValid(raws: seq<Option<RawEntry>>)
    ensures forall i :: 0 <= i < |Validated(raws)| ==> Valid(Validated(raws)[i])
  {
    if raws != [] {
      ValidatedValid(raws[..|raws| - 1]);
    }
  }

  lemma RestoredNumbered(snap: Snapshot)
    ensures forall i :: 0 <= i < |RestoredQuestions(snap)| ==> Numbered(RestoredQuestions(snap)[i])
  {
    ValidatedValid(snap.questions);
    UniqueByKeeps(Validated(snap.questions), QuestionKey);
  }

  /** With every question numbered there is nothing to clash: the snapshot may come at any point. */
  lemma NumberedQuestionsCommute(p: Page, snap: Snapshot, before: seq<Event>, after: seq<Event>)
    requires forall q :: q in Vocabulary(p, snap, before) ==> q.questionNo.Some? && q.questionNo.value > 0
    ensures ProcessedAll(Restored(ProcessedAll(p, before), snap), after).questions ==
            ProcessedAll(Restored(p, snap), before + after).questions
  {
    var all := Vocabulary(p, snap, before);
    assert forall i :: 0 <= i < |all| ==> all[i] in all;
    assert forall i :: 0 <= i < |p.questions| ==> p.questions[i] in all;
    SnapshotCommutesWithQuestions(p, snap, before, after);
  }

  /** The same final question list, whether the snapshot comes between the events or before them. */
  predicate Commutes(snap: Snapshot, before: seq<Event>, after: seq<Event>) {
    ProcessedAll(Restored(ProcessedAll(EMPTY_PAGE, before), snap), after).questions ==
    ProcessedAll(Restored(EMPTY_PAGE, snap), before + after).questions
  }

  predicate OverVocabulary(snap: Snapshot, es: seq<Event>, all: seq<QuestionData>) {
    From(RestoredQuestions(snap), all) && From(QuestionsIn(es), all)
  }

  /** An event that carries just this question. */
  function Carrying(q: QuestionData): (e: Event)
    requires q.question != "" && Numbered(q)
    ensures QuestionIn(e) == Some(q)
  {
    var card := Card(q.questionNo, q.question, 0.0, None, q.dimension, "", q.expectedPoints, q.hints, map[]);
    Event(NextQuestion, "", Payload(card, None, None, "", "", "", "", None, None), None)
  }

  const NO_SNAPSHOT := Snapshot([], [], [])

  lemma TwoEvents(q1: QuestionData, q2: QuestionData)
    requires q1.question != "" && Numbered(q1) && q2.question != "" && Numbered(q2)
    ensures var es := [Carrying(q1), Carrying(q2)];
      QuestionsIn(es) == [q1, q2] && QuestionsOver([], es) == AddQuestion([q1], q2)
  {
    var e1, e2 := Carrying(q1), Carrying(q2);
    assert [e1, e2][..1] == [e1] && [e1][..0] == [];
    assert QuestionsIn([e1]) == [q1] && AddQuestion([], q1) == [q1];
    assert QuestionsOver([], [e1]) == [q1];
  }

  lemma MergeTwo(q1: QuestionData, q2: QuestionData)
    ensures MergeQuestions([], [q1, q2]) == MergeQuestion([q1], q2)
  {
    assert [q1, q2][..1] == [q1] && [q1][..0] == [];
    assert MergeQuestions([], [q1]) == [q1];
  }

  /** An unnumbered question, a numbered one with its text, and a snapshot after both: one is lost. */
  lemma ClashLosesAQuestion(q1: QuestionData, q2: QuestionData)
    requires q1.question == q2.question != "" && q1.questionNo.None? && q2.questionNo.Some? && Numbered(q2)
    ensures !Commutes(NO_SNAPSHOT, [Carrying(q1), Carrying(q2)], [])
  {
    var es := [Carrying(q1), Carrying(q2)];
    TwoEvents(q1, q2);
    MergeTwo(q1, q2);
    assert SameQuestion(q2, [q1][0]);
    assert AddQuestion([q1], q2) == [q1, q2];
    ProcessedAllParts(EMPTY_PAGE, es);
    assert es + [] == es;
    assert Restored(EMPTY_PAGE, NO_SNAPSHOT).questions == [];
    ProcessedAllParts(Restored(EMPTY_PAGE, NO_SNAPSHOT), es);
    assert Restored(ProcessedAll(EMPTY_PAGE, es), NO_SNAPSHOT).questions == MergeQuestions([], [q1, q2]) == [q1];
  }

  /** No non-empty text is shared by a numbered and an unnumbered question. */
  predicate Unambiguous(qs: seq<QuestionData>) {
    forall i, j :: 0 <= i < |qs| && 0 <= j < |qs| ==> !Clash(qs[i], qs[j])
  }

  predicate Clash(q: QuestionData, x: QuestionData) {
    q.questionNo.Some? && Numbered(q) && x.questionNo.None? && q.question == x.question != ""
  }

  /** An event carries no question without a text. */
  lemma {:induction false} CarriedHaveText(es: seq<Event>)
    ensures forall i :: 0 <= i < |QuestionsIn(es)| ==> QuestionsIn(es)[i].question != ""
  {
    if es != [] {
      CarriedHaveText(es[..|es| - 1]);
    }
  }

  /** So restored entries without a text, numbered or not, clash with nothing live. */
  lemma LiveClashesWithNothing(restored: seq<QuestionData>, live: seq<QuestionData>, all: seq<QuestionData>)
    requires Unambiguous(all) && From(restored, all) && From(live, all)
    requires forall i :: 0 <= i < |restored| ==> Numbered(restored[i])
    requires forall i :: 0 <= i < |live| ==> Numbered(live[i]) && live[i].question != ""
    ensures ClashFree(live, restored + live)
  {
  }

  lemma OverVocabularyCommutes(snap: Snapshot, before: seq<Event>, after: seq<Event>, all: seq<QuestionData>)
    requires Unambiguous(all) && OverVocabulary(snap, before, all)
    ensures Commutes(snap, before, after)
  {
    RestoredNumbered(snap);
    CarriedNumbered(before);
    CarriedHaveText(before);
    LiveClashesWithNothing(RestoredQuestions(snap), QuestionsIn(before), all);
    EmptyFirst(QuestionsIn(before));
    SnapshotCommutesWithQuestions(EMPTY_PAGE, snap, before, after);
  }

  /**
    * The snapshot commutes with the question stream, for all snapshots and event lists over some
    * questions, if and only if no numbered one of them shares a non-empty text with an unnumbered one.
    */
  lemma QuestionsCommuteIff(all: seq<QuestionData>)
    ensures Unambiguous(all) <==>
            forall snap, before, after ::
              OverVocabulary(snap, before, all) && From(QuestionsIn(after), all) ==> Commutes(snap, before, after)
  {
    if Unambiguous(all) {
      forall snap, before, after | OverVocabulary(snap, before, all)
        ensures Commutes(snap, before, after)
      {
        OverVocabularyCommutes(snap, before, after, all);
      }
    } else {
      var i, j :| 0 <= i < |all| && 0 <= j < |all| && Clash(all[i], all[j]);
      var es := [Carrying(all[j]), Carrying(all[i])];
      TwoEvents(all[j], all[i]);
      assert OverVocabulary(NO_SNAPSHOT, es, all) && From(QuestionsIn([]), all);
      ClashLosesAQuestion(all[j], all[i]);
    }
  }

  // Identities

  predicate DistinctQuestions(qs: seq<QuestionData>) {
    forall i, j :: 0 <= i < j < |qs| && qs[i].questionNo.Some? ==> qs[i].questionNo != qs[j].questionNo
  }

  predicate DistinctScores(scores: seq<ScoreData>) {
    forall i, j :: 0 <= i < j < |scores| && scores[i].questionNo > 0 ==> scores[i].questionNo != scores[j].questionNo
  }

  predicate AnswersInOrder(p: Page) {
    p.sequenceNo == |p.answers| && forall i :: 0 <= i < |p.answers| ==> p.answers[i].seqNo == i
  }

  predicate Consistent(p: Page) {
    DistinctQuestions(p.questions) && DistinctScores(p.scores) && AnswersInOrder(p) &&
    forall i :: 0 <= i < |p.questions| ==> Numbered(p.questions[i])
  }

  /** Anything that happens to the page. */
  datatype PageStep = Live(event: Event) | Resume(snap: Snapshot) | Answering(sessionId: string, input: string)

  function PageNext(p: Page, step: PageStep): Page {
    match step
    case Live(e) => Processed(p, e)
    case Resume(snap) => Restored(p, snap)
    case Answering(id, input) => Submitted(p, id, input)
  }

  function PageRun(p: Page, steps: seq<PageStep>): Page {
    if steps == [] then p else PageNext(PageRun(p, steps[..|steps| - 1]), steps[|steps| - 1])
  }

  /** Items of equal identity have equal keys, so two kept items never share a positive number. */
  lemma {:induction false} UniqueQuestionsDistinct(items: seq<RestoredEntry>)
    requires forall i :: 0 <= i < |items| ==> Valid(items[i])
    ensures DistinctQuestions(Map(UniqueBy(items, QuestionKey), ToQuestion))
  {
    if items != [] {
      var m := |items| - 1;
      var kept := UniqueBy(items[..m], QuestionKey);
      UniqueQuestionsDistinct(items[..m]);
      UniqueByKeeps(items[..m], QuestionKey);
      assert items[..m] + [items[m]] == items;
      if !(QuestionKey(items[m], m) == "" || KeyAmong(items[..m], QuestionKey, QuestionKey(items[m], m))) {
        forall i | 0 <= i < |kept| && EffectiveNumber(kept[i]).Some?
          ensures EffectiveNumber(kept[i]) != EffectiveNumber(items[m])
        {
          var j :| 0 <= j < m && items[..m][j] == kept[i];
          assert QuestionKey(items[..m][j], j) != QuestionKey(items[m], m);
        }
      }
    }
  }

  lemma ScoreKeysTell(d: RestoredEntry, i: nat, e: RestoredEntry, j: nat)
    requires Valid(d) && Valid(e) && ScoreKey(d, i) != ScoreKey(e, j)
    ensures ToScore(d).questionNo > 0 ==> ToScore(d).questionNo != ToScore(e).questionNo
  {
  }

  lemma DistinctScoresLast(scores: seq<ScoreData>, s: ScoreData)
    requires DistinctScores(scores)
    requires forall i :: 0 <= i < |scores| && scores[i].questionNo > 0 ==> scores[i].questionNo != s.questionNo
    ensures DistinctScores(scores + [s])
  {
  }

  lemma {:induction false} UniqueScoresDistinct(items: seq<RestoredEntry>)
    requires forall i :: 0 <= i < |items| ==> Valid(items[i])
    ensures DistinctScores(Map(UniqueBy(items, ScoreKey), ToScore))
  {
    if items != [] {
      var m := |items| - 1;
      var kept := UniqueBy(items[..m], ScoreKey);
      UniqueScoresDistinct(items[..m]);
      UniqueByKeeps(items[..m], ScoreKey);
      if !(ScoreKey(items[m], m) == "" || KeyAmong(items[..m], ScoreKey, ScoreKey(items[m], m))) {
        forall i | 0 <= i < |kept| && ToScore(kept[i]).questionNo > 0
          ensures ToScore(kept[i]).questionNo != ToScore(items[m]).questionNo
        {
          var j :| 0 <= j < m && items[..m][j] == kept[i];
          ScoreKeysTell(items[..m][j], j, items[m], m);
        }
        DistinctScoresLast(Map(kept, ToScore), ToScore(items[m]));
        assert Map(kept + [items[m]], ToScore) == Map(kept, ToScore) + [ToScore(items[m])];
      }
    }
  }

  /** Who an entry is: its number, else its text, else only its place. */
  predicate SameEntry(d: RestoredEntry, i: nat, e: RestoredEntry, j: nat) {
    var m, n := EffectiveNumber(d), EffectiveNumber(e);
    if m.Some? || n.Some? then m == n
    else if Or(d.raw.question, "") != "" || Or(e.raw.question, "") != "" then
      Or(d.raw.question, "") == Or(e.raw.question, "")
    else i == j
  }

  lemma PrefixCancels(prefix: string, a: string, b: string)
    ensures prefix + a == prefix + b <==> a == b
  {
    assert (prefix + a)[|prefix|..] == a && (prefix + b)[|prefix|..] == b;
  }

  /** The keys that uniqueBy compares are equal exactly for entries of one identity. */
  lemma QuestionKeyIdentifies(d: RestoredEntry, i: nat, e: RestoredEntry, j: nat)
    requires Valid(d) && Valid(e)
    ensures QuestionKey(d, i) == QuestionKey(e, j) <==> SameEntry(d, i, e, j)
  {
    var m, n := EffectiveNumber(d), EffectiveNumber(e);
    assert QuestionKey(d, i)[0] == (if m.Some? then 'q' else if Or(d.raw.question, "") != "" then 't' else 'f');
    assert QuestionKey(e, j)[0] == (if n.Some? then 'q' else if Or(e.raw.question, "") != "" then 't' else 'f');
    if m.Some? && n.Some? {
      PrefixCancels("question-", Decimal.Print(m.value), Decimal.Print(n.value));
      Decimal.PrintInjective(m.value, n.value);
    } else if m.None? && n.None? {
      PrefixCancels("txt-", Or(d.raw.question, ""), Or(e.raw.question, ""));
      PrefixCancels("fallback-", Decimal.Print(i), Decimal.Print(j));
      Decimal.PrintInjective(i, j);
    }
  }

  lemma {:induction false} MergeKeepsRestored(restored: seq<QuestionData>, live: seq<QuestionData>)
    ensures restored <= MergeQuestions(restored, live)
  {
    if live != [] {
      MergeKeepsRestored(restored, live[..|live| - 1]);
    }
  }

  predicate Represented(qs: seq<QuestionData>, q: QuestionData) {
    exists i :: 0 <= i < |qs| && (SameQuestion(q, qs[i]) || qs[i] == q)
  }

  lemma {:induction false} MergeRepresents(restored: seq<QuestionData>, live: seq<QuestionData>, k: nat)
    requires k < |live|
    ensures Represented(MergeQuestions(restored, live), live[k])
  {
    var m := |live| - 1;
    var merged := MergeQuestions(restored, live[..m]);
    if k == m {
      if !(exists i :: 0 <= i < |merged| && SameQuestion(live[m], merged[i])) {
        assert (merged + [live[m]])[|merged|] == live[m];
      }
    } else {
      MergeRepresents(restored, live[..m], k);
      var i :| 0 <= i < |merged| && (SameQuestion(live[k], merged[i]) || merged[i] == live[k]);
      assert MergeQuestions(restored, live)[i] == merged[i];
    }
  }

  lemma {:induction false} MergeDistinct(restored: seq<QuestionData>, live: seq<QuestionData>)
    requires DistinctQuestions(restored) && forall i :: 0 <= i < |live| ==> Numbered(live[i])
    ensures DistinctQuestions(MergeQuestions(restored, live))
  {
    if live != [] {
      MergeDistinct(restored, live[..|live| - 1]);
    }
  }

  lemma {:induction false} MergeScoresDistinct(restored: seq<ScoreData>, live: seq<ScoreData>)
    requires DistinctScores(restored)
    ensures DistinctScores(MergeScores(restored, live))
  {
    if live != [] {
      MergeScoresDistinct(restored, live[..|live| - 1]);
    }
  }

  lemma RestoredConsistent(p: Page, snap: Snapshot)
    requires Consistent(p)
    ensures Consistent(Restored(p, snap))
  {
    ValidatedValid(snap.questions);
    ValidatedValid(snap.scores);
    UniqueQuestionsDistinct(Validated(snap.questions));
    UniqueScoresDistinct(Validated(snap.scores));
    MergeDistinct(RestoredQuestions(snap), p.questions);
    MergeScoresDistinct(RestoredScores(snap), p.scores);
    VocabularyNumbered(p, snap, []);
    var all := Vocabulary(p, snap, []);
    MergedFrom(RestoredQuestions(snap), p.questions, all);
  }

  /**
    * In every reachable page, positive numbers are pairwise distinct among questions and among scores,
    * and answer i carries sequence number i with the next one ready.
    */
  lemma {:induction false} PageStaysConsistent(steps: seq<PageStep>)
    ensures Consistent(PageRun(EMPTY_PAGE, steps))
  {
    if steps != [] {
      var p, step := PageRun(EMPTY_PAGE, steps[..|steps| - 1]), steps[|steps| - 1];
      PageStaysConsistent(steps[..|steps| - 1]);
      if step.Resume? {
        RestoredConsistent(p, step.snap);
      }
    }
  }

  /** A resume puts the restored questions first and loses none that was there, by number or by text. */
  lemma ResumeKeepsQuestions(p: Page, snap: Snapshot)
    ensures var merged := Restored(p, snap).questions;
      RestoredQuestions(snap) <= merged &&
      forall k :: 0 <= k < |p.questions| ==> Represented(merged, p.questions[k])
  {
    MergeKeepsRestored(RestoredQuestions(snap), p.questions);
    forall k | 0 <= k < |p.questions|
      ensures Represented(Restored(p, snap).questions, p.questions[k])
    {
      MergeRepresents(RestoredQuestions(snap), p.questions, k);
    }
  }
}

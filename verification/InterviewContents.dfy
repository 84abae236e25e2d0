/**
  * What the interview page shows, told from the events and the snapshot alone: which scores, questions
  * and answers, in which order and with which fields.
  */
module InterviewContents {
  import opened Lists
  import opened Options
  import opened InterviewEvents
  import opened InterviewPage
  import opened InterviewMerge
  import opened Whitespace
  import Decimal

  // Scores

  /** The positive score of an event: in its summary or else its own payload, or in a score node's summary. */
  function ScoreCard(e: Event): Option<Card> {
    var card :=
      if e.kind == RoundScore || e.kind == ScoreDelivered then
        if e.payload.summary == None then Some(e.payload.own) else e.payload.summary
      else if e.kind == NodeCompleted && e.node == "score" then e.payload.summary
      else None;
    if card.Some? && card.value.score > 0.0 then card else None
  }

  function CardNumber(c: Card): int { if c.questionNo == None then 0 else c.questionNo.value }

  function ScoreShown(c: Card): ScoreData { ScoreData(CardNumber(c), c.score, c.dimension, c.feedback, c.subScores) }

  /** One event: a positive score is added unless one of its positive number is there; nothing else changes. */
  lemma ScoreEventAdds(p: Page, e: Event)
    ensures var card := ScoreCard(e);
      Processed(p, e).scores ==
      if card == None then p.scores
      else if CardNumber(card.value) > 0 &&
              exists i :: 0 <= i < |p.scores| && p.scores[i].questionNo == CardNumber(card.value) then p.scores
      else p.scores + [ScoreShown(card.value)]
  {
  }

  /** Event i is the first to carry a score of its number, or carries one without a number. */
  predicate NewScore(base: seq<ScoreData>, es: seq<Event>, i: nat)
    requires i < |es|
  {
    ScoreCard(es[i]).Some? &&
    var n := CardNumber(ScoreCard(es[i]).value);
    n <= 0 || ((forall k :: 0 <= k < |base| ==> base[k].questionNo != n) &&
               forall j :: 0 <= j < i && ScoreCard(es[j]).Some? ==> CardNumber(ScoreCard(es[j]).value) != n)
  }

  function NewScores(base: seq<ScoreData>, es: seq<Event>): seq<ScoreData> {
    if es == [] then []
    else
      var m := |es| - 1;
      NewScores(base, es[..m]) + if NewScore(base, es, m) then [ScoreShown(ScoreCard(es[m]).value)] else []
  }

  /** A number is in the list exactly if it was there before or an event carried it. */
  lemma {:induction false} ScoresHave(base: seq<ScoreData>, es: seq<Event>, n: int)
    requires n > 0
    ensures HasScore(ScoresOver(base, es), n) <==>
            HasScore(base, n) ||
            exists j :: 0 <= j < |es| && ScoreCard(es[j]).Some? && CardNumber(ScoreCard(es[j]).value) == n
  {
    if es != [] {
      var m := |es| - 1;
      var earlier, card := ScoresOver(base, es[..m]), ScoreCard(es[m]);
      ScoresHave(base, es[..m], n);
      ScoreEventAdds(Page([], earlier, [], 0), es[m]);
      if card.Some? {
        HasScoreLast(earlier, ScoreShown(card.value), n);
      }
    }
  }

  lemma NewIffUnscored(base: seq<ScoreData>, es: seq<Event>, card: Card)
    requires es != [] && ScoreCard(es[|es| - 1]) == Some(card)
    ensures NewScore(base, es, |es| - 1) <==>
            CardNumber(card) <= 0 || !HasScore(ScoresOver(base, es[..|es| - 1]), CardNumber(card))
  {
    var m := |es| - 1;
    if CardNumber(card) > 0 {
      ScoresHave(base, es[..m], CardNumber(card));
      assert forall j :: 0 <= j < m ==> es[..m][j] == es[j];
    }
  }

  /** Any events: the list is what it was, and then the new scores in the order of the events. */
  lemma {:induction false} ScoresAreTheNewOnes(base: seq<ScoreData>, es: seq<Event>)
    ensures ScoresOver(base, es) == base + NewScores(base, es)
  {
    if es == [] {
      assert base + [] == base;
    } else {
      var m := |es| - 1;
      var card := ScoreCard(es[m]);
      ScoresAreTheNewOnes(base, es[..m]);
      ScoreEventAdds(Page([], ScoresOver(base, es[..m]), [], 0), es[m]);
      if card.Some? {
        NewIffUnscored(base, es, card.value);
        ConcatAssoc(base, NewScores(base, es[..m]), [ScoreShown(card.value)]);
      }
    }
  }

  /** No positive score is lost: after any events each is there by its number, or itself if it has none. */
  lemma {:induction false} EveryScoreCardShown(base: seq<ScoreData>, es: seq<Event>, i: nat)
    requires i < |es| && ScoreCard(es[i]).Some?
    ensures var card, scores := ScoreCard(es[i]).value, ScoresOver(base, es);
      if CardNumber(card) > 0 then HasScore(scores, CardNumber(card)) else ScoreShown(card) in scores
  {
    var m, card := |es| - 1, ScoreCard(es[i]).value;
    if CardNumber(card) > 0 {
      ScoresHave(base, es, CardNumber(card));
    } else {
      ScoreEventAdds(Page([], ScoresOver(base, es[..m]), [], 0), es[m]);
      if i < m {
        EveryScoreCardShown(base, es[..m], i);
      }
    }
  }

  // Questions

  /** The question of an event, if it has a text: its own payload's, or that in a generator node's summary. */
  function QuestionCard(e: Event): Option<Card> {
    var card :=
      if e.kind == NextQuestion then Some(e.payload.own)
      else if e.kind == NodeCompleted && e.node == "question_gen" then e.payload.summary
      else None;
    if card.Some? && card.value.question != "" then card else None
  }

  function QuestionShown(c: Card): QuestionData {
    QuestionData(if CardNumber(c) > 0 then Some(CardNumber(c)) else None, c.question, c.dimension, c.expectedPoints,
                 c.hints)
  }

  /** One event: a question is added unless its positive number is there, or, without one, its text. */
  lemma QuestionEventAdds(p: Page, e: Event)
    ensures var card := QuestionCard(e);
      Processed(p, e).questions ==
      if card == None then p.questions
      else if exists i :: 0 <= i < |p.questions| &&
                if CardNumber(card.value) > 0 then p.questions[i].questionNo == Some(CardNumber(card.value))
                else p.questions[i].question == card.value.question then p.questions
      else p.questions + [QuestionShown(card.value)]
  {
  }

  /** Event i brings a question: a new number, or an unnumbered one with a text that none shown has. */
  predicate NewQuestion(base: seq<QuestionData>, es: seq<Event>, i: nat)
    requires i < |es|
    decreases i
  {
    QuestionCard(es[i]).Some? &&
    var card := QuestionCard(es[i]).value;
    if CardNumber(card) > 0 then
      (forall k :: 0 <= k < |base| ==> base[k].questionNo != Some(CardNumber(card))) &&
      forall j :: 0 <= j < i && QuestionCard(es[j]).Some? ==> CardNumber(QuestionCard(es[j]).value) != CardNumber(card)
    else
      (forall k :: 0 <= k < |base| ==> base[k].question != card.question) &&
      forall j :: 0 <= j < i && NewQuestion(base, es, j) ==> QuestionCard(es[j]).value.question != card.question
  }

  function NewQuestions(base: seq<QuestionData>, es: seq<Event>): seq<QuestionData> {
    if es == [] then []
    else
      var m := |es| - 1;
      NewQuestions(base, es[..m]) + if NewQuestion(base, es, m) then [QuestionShown(QuestionCard(es[m]).value)] else []
  }

  lemma {:induction false} NewInPrefix(base: seq<QuestionData>, es: seq<Event>, m: nat, i: nat)
    requires i < m <= |es|
    ensures NewQuestion(base, es[..m], i) <==> NewQuestion(base, es, i)
    decreases i
  {
    forall j | 0 <= j < i ensures NewQuestion(base, es[..m], j) <==> NewQuestion(base, es, j) {
      NewInPrefix(base, es, m, j);
    }
  }

  /** A question is known in the list exactly if it was before or a new one brought it. */
  lemma QuestionNext(qs: seq<QuestionData>, e: Event, n: int)
    requires n > 0
    ensures HasNumber(QuestionsAfter(qs, e), n) <==>
            HasNumber(qs, n) || (QuestionCard(e).Some? && CardNumber(QuestionCard(e).value) == n)
  {
    QuestionEventAdds(Page(qs, [], [], 0), e);
    if QuestionCard(e).Some? {
      HasNumberLast(qs, QuestionShown(QuestionCard(e).value), n);
    }
  }

  lemma {:induction false} QuestionsHave(base: seq<QuestionData>, es: seq<Event>, n: int)
    requires n > 0
    ensures HasNumber(QuestionsOver(base, es), n) <==>
            HasNumber(base, n) ||
            exists j :: 0 <= j < |es| && QuestionCard(es[j]).Some? && CardNumber(QuestionCard(es[j]).value) == n
  {
    if es != [] {
      var m := |es| - 1;
      QuestionsHave(base, es[..m], n);
      QuestionNext(QuestionsOver(base, es[..m]), es[m], n);
      assert forall j :: 0 <= j < m ==> es[..m][j] == es[j];
    }
  }

  lemma HasNumberLast(qs: seq<QuestionData>, q: QuestionData, n: int)
    ensures HasNumber(qs + [q], n) <==> HasNumber(qs, n) || q.questionNo == Some(n)
  {
    var all := qs + [q];
    if HasNumber(qs, n) {
      var i :| 0 <= i < |qs| && qs[i].questionNo == Some(n);
      assert all[i] == qs[i];
    }
    assert all[|qs|] == q;
  }

  lemma HasTextLast(qs: seq<QuestionData>, q: QuestionData, text: string)
    ensures HasText(qs + [q], text) <==> HasText(qs, text) || q.question == text
  {
    var all := qs + [q];
    if HasText(qs, text) {
      var i :| 0 <= i < |qs| && qs[i].question == text;
      assert all[i] == qs[i];
    }
    assert all[|qs|] == q;
  }

  lemma {:induction false} TextsHave(base: seq<QuestionData>, es: seq<Event>, text: string)
    ensures HasText(base + NewQuestions(base, es), text) <==>
            HasText(base, text) ||
            exists j :: 0 <= j < |es| && NewQuestion(base, es, j) && QuestionCard(es[j]).value.question == text
  {
    if es == [] {
      assert base + [] == base;
    } else {
      var m := |es| - 1;
      TextsHave(base, es[..m], text);
      forall j | 0 <= j < m ensures NewQuestion(base, es[..m], j) <==> NewQuestion(base, es, j) {
        NewInPrefix(base, es, m, j);
      }
      if NewQuestion(base, es, m) {
        var q := QuestionShown(QuestionCard(es[m]).value);
        ConcatAssoc(base, NewQuestions(base, es[..m]), [q]);
        HasTextLast(base + NewQuestions(base, es[..m]), q, text);
      } else {
        assert NewQuestions(base, es) == NewQuestions(base, es[..m]);
      }
    }
  }

  /** Any events: the list is what it was, and then the new questions in the order of the events. */
  lemma {:induction false} QuestionsAreTheNewOnes(base: seq<QuestionData>, es: seq<Event>)
    ensures QuestionsOver(base, es) == base + NewQuestions(base, es)
  {
    if es == [] {
      assert base + [] == base;
    } else {
      var m := |es| - 1;
      var earlier, card := QuestionsOver(base, es[..m]), QuestionCard(es[m]);
      QuestionsAreTheNewOnes(base, es[..m]);
      QuestionEventAdds(Page(earlier, [], [], 0), es[m]);
      if card.Some? {
        NewIffNotThere(base, es, card.value);
        ConcatAssoc(base, NewQuestions(base, es[..m]), [QuestionShown(card.value)]);
      }
    }
  }

  lemma {:induction false} NewIffNotThere(base: seq<QuestionData>, es: seq<Event>, card: Card)
    requires es != [] && QuestionCard(es[|es| - 1]) == Some(card)
    requires QuestionsOver(base, es[..|es| - 1]) == base + NewQuestions(base, es[..|es| - 1])
    ensures var earlier := QuestionsOver(base, es[..|es| - 1]);
      NewQuestion(base, es, |es| - 1) <==>
      if CardNumber(card) > 0 then !HasNumber(earlier, CardNumber(card)) else !HasText(earlier, card.question)
  {
    var m := |es| - 1;
    if CardNumber(card) > 0 {
      QuestionsHave(base, es[..m], CardNumber(card));
    } else {
      TextsHave(base, es[..m], card.question);
      forall j | 0 <= j < m ensures NewQuestion(base, es[..m], j) <==> NewQuestion(base, es, j) {
        NewInPrefix(base, es, m, j);
      }
    }
  }

  // Restored entries

  /** What a field says as a positive whole number: the number itself, or a text of it. */
  ghost predicate Reads(v: RawNumber, n: int) { n > 0 && (v == Numeric(n as real) || v == Text(Some(n as real))) }

  /** Who an entry is: its question number, or else its sequence number. */
  ghost predicate Numbers(raw: RawEntry, n: int) {
    Reads(raw.questionNo, n) || (Reads(raw.sequenceNo, n) && forall m: int :: !Reads(raw.questionNo, m))
  }

  lemma FieldReads(v: RawNumber, n: int)
    ensures ToPositiveIntOrNull(v) == Some(n) <==> Reads(v, n)
  {
  }

  lemma EntryNumberIs(raw: RawEntry, n: int)
    ensures EffectiveNumber(ToRestored(raw)) == Some(n) <==> Numbers(raw, n)
  {
    FieldReads(raw.questionNo, n);
    FieldReads(raw.sequenceNo, n);
    if ToPositiveIntOrNull(raw.questionNo).Some? {
      FieldReads(raw.questionNo, ToPositiveIntOrNull(raw.questionNo).value);
    } else {
      forall m: int ensures !Reads(raw.questionNo, m) {
        FieldReads(raw.questionNo, m);
      }
    }
  }

  /** The question an entry is shown as: every field its own, a missing one empty. */
  ghost predicate ShowsQuestion(raw: RawEntry, q: QuestionData) {
    (forall n: int :: q.questionNo == Some(n) <==> Numbers(raw, n)) &&
    q.question == (if raw.question == None then "" else raw.question.value) &&
    q.dimension == (if raw.dimension == None then "" else raw.dimension.value) &&
    q.expectedPoints == FilterMap(raw.expectedPoints, (s: Option<string>) => s) &&
    q.hints == FilterMap(raw.hints, (s: Option<string>) => s)
  }

  /** The score an entry is shown as: number 0 if it has none, score 0 if it is no number. */
  ghost predicate ShowsScore(raw: RawEntry, s: ScoreData) {
    (forall n: int :: n > 0 ==> (s.questionNo == n <==> Numbers(raw, n))) && s.questionNo >= 0 &&
    (forall x: real :: raw.score == Numeric(x) ==> s.score == x) && (!raw.score.Numeric? ==> s.score == 0.0) &&
    s.dimension == (if raw.dimension == None then "" else raw.dimension.value) &&
    s.feedback == (if raw.feedback == None then "" else raw.feedback.value) &&
    forall k, x: real ::
      k in s.subScores && s.subScores[k] == x <==> k in raw.subScores && raw.subScores[k] == Numeric(x)
  }

  lemma {:induction false} StringsAre(raws: seq<Option<string>>)
    ensures Strings(raws) == FilterMap(raws, (s: Option<string>) => s)
  {
    if raws != [] {
      StringsAre(raws[1..]);
      assert [raws[0]] + raws[1..] == raws;
      FilterMapConcat([raws[0]], raws[1..], (s: Option<string>) => s);
      FirstString(raws[0]);
    }
  }

  lemma FirstString(raw: Option<string>)
    ensures FilterMap([raw], (s: Option<string>) => s) == if raw.Some? then [raw.value] else []
  {
    assert [raw][..0] == [];
  }

  lemma QuestionFields(raw: RawEntry)
    ensures ShowsQuestion(raw, ToQuestion(ToRestored(raw)))
  {
    StringsAre(raw.expectedPoints);
    StringsAre(raw.hints);
    forall n: int ensures EffectiveNumber(ToRestored(raw)) == Some(n) <==> Numbers(raw, n) {
      EntryNumberIs(raw, n);
    }
  }

  lemma ScoreFields(raw: RawEntry)
    ensures ShowsScore(raw, ToScore(ToRestored(raw)))
  {
    forall n: int ensures EffectiveNumber(ToRestored(raw)) == Some(n) <==> Numbers(raw, n) {
      EntryNumberIs(raw, n);
    }
  }

  // Which entries are restored

  /** The records among the raw entries. */
  function Records(raws: seq<Option<RawEntry>>): seq<RawEntry> { FilterMap(raws, (r: Option<RawEntry>) => r) }

  lemma {:induction false} ValidatedAre(raws: seq<Option<RawEntry>>)
    ensures Validated(raws) == Map(Records(raws), ToRestored)
  {
    if raws != [] {
      ValidatedAre(raws[..|raws| - 1]);
    }
  }

  /** Two entries for one question: of one number, or both without a number and with the same text. */
  ghost predicate SameQuestionEntry(a: RawEntry, b: RawEntry) {
    (exists n: int :: Numbers(a, n) && Numbers(b, n)) ||
    ((forall n: int :: !Numbers(a, n) && !Numbers(b, n)) &&
     a.question != None && a.question != Some("") && a.question == b.question)
  }

  ghost predicate SameScoreEntry(a: RawEntry, b: RawEntry) { exists n: int :: Numbers(a, n) && Numbers(b, n) }

  /** The entries that are the same as none before them. */
  ghost function Firsts(rs: seq<RawEntry>, same: (RawEntry, RawEntry) -> bool): seq<RawEntry> {
    if rs == [] then []
    else
      var m := |rs| - 1;
      Firsts(rs[..m], same) + if exists j :: 0 <= j < m && same(rs[j], rs[m]) then [] else [rs[m]]
  }

  /** Keys are never empty and tell different places apart just when the entries there are not the same. */
  ghost predicate KeyTells(key: (RestoredEntry, nat) -> string, same: (RawEntry, RawEntry) -> bool) {
    (forall a, i :: key(ToRestored(a), i) != "") &&
    forall a, i, b, j :: i != j ==> (key(ToRestored(a), i) == key(ToRestored(b), j) <==> same(a, b))
  }

  lemma AmongIff(rs: seq<RawEntry>, r: RawEntry, key: (RestoredEntry, nat) -> string,
                 same: (RawEntry, RawEntry) -> bool)
    requires KeyTells(key, same)
    ensures KeyAmong(Map(rs, ToRestored), key, key(ToRestored(r), |rs|)) <==>
            exists j :: 0 <= j < |rs| && same(rs[j], r)
  {
    var items, last := Map(rs, ToRestored), key(ToRestored(r), |rs|);
    assert forall j :: 0 <= j < |rs| ==> (key(items[j], j) == last <==> same(rs[j], r));
  }

  lemma {:induction false} UniqueAreFirsts(rs: seq<RawEntry>, key: (RestoredEntry, nat) -> string,
                                           same: (RawEntry, RawEntry) -> bool)
    requires KeyTells(key, same)
    ensures UniqueBy(Map(rs, ToRestored), key) == Map(Firsts(rs, same), ToRestored)
  {
    if rs != [] {
      var m := |rs| - 1;
      UniqueAreFirsts(rs[..m], key, same);
      MapLast(rs, ToRestored);
      AmongIff(rs[..m], rs[m], key, same);
      MapConcat(Firsts(rs[..m], same), [rs[m]], ToRestored);
    }
  }

  lemma NumbersMeet(a: RawEntry, b: RawEntry)
    ensures var m, n := EffectiveNumber(ToRestored(a)), EffectiveNumber(ToRestored(b));
      (m.Some? && m == n <==> exists k: int :: Numbers(a, k) && Numbers(b, k)) &&
      (m.None? && n.None? <==> forall k: int :: !Numbers(a, k) && !Numbers(b, k))
  {
    var m, n := EffectiveNumber(ToRestored(a)), EffectiveNumber(ToRestored(b));
    forall k: int
      ensures (m == Some(k) <==> Numbers(a, k)) && (n == Some(k) <==> Numbers(b, k))
    {
      EntryNumberIs(a, k);
      EntryNumberIs(b, k);
    }
  }

  lemma QuestionKeyTells()
    ensures KeyTells(QuestionKey, SameQuestionEntry)
  {
    forall a, i: nat, b, j: nat | i != j
      ensures QuestionKey(ToRestored(a), i) == QuestionKey(ToRestored(b), j) <==> SameQuestionEntry(a, b)
    {
      QuestionKeyIdentifies(ToRestored(a), i, ToRestored(b), j);
      NumbersMeet(a, b);
    }
  }

  lemma ScoreKeyIdentifies(d: RestoredEntry, i: nat, e: RestoredEntry, j: nat)
    requires Valid(d) && Valid(e) && i != j
    ensures ScoreKey(d, i) == ScoreKey(e, j) <==>
            EffectiveNumber(d).Some? && EffectiveNumber(d) == EffectiveNumber(e)
  {
    var m, n := EffectiveNumber(d), EffectiveNumber(e);
    assert ScoreKey(d, i)[0] == if m.Some? then 's' else 'f';
    assert ScoreKey(e, j)[0] == if n.Some? then 's' else 'f';
    if m.Some? && n.Some? {
      PrefixCancels("score-", Decimal.Print(m.value), Decimal.Print(n.value));
      Decimal.PrintInjective(m.value, n.value);
    } else if m.None? && n.None? {
      PrefixCancels("fallback-", Decimal.Print(i), Decimal.Print(j));
      Decimal.PrintInjective(i, j);
    }
  }

  lemma ScoreKeyTells()
    ensures KeyTells(ScoreKey, SameScoreEntry)
  {
    forall a, i: nat, b, j: nat | i != j
      ensures ScoreKey(ToRestored(a), i) == ScoreKey(ToRestored(b), j) <==> SameScoreEntry(a, b)
    {
      ScoreKeyIdentifies(ToRestored(a), i, ToRestored(b), j);
      NumbersMeet(a, b);
    }
  }

  /** The questions restored: one for each question in the snapshot, as its first entry has it, in order. */
  lemma RestoredQuestionsAre(snap: Snapshot)
    ensures var firsts, shown := Firsts(Records(snap.questions), SameQuestionEntry), RestoredQuestions(snap);
      |shown| == |firsts| && forall k :: 0 <= k < |shown| ==> ShowsQuestion(firsts[k], shown[k])
  {
    ValidatedAre(snap.questions);
    QuestionKeyTells();
    UniqueAreFirsts(Records(snap.questions), QuestionKey, SameQuestionEntry);
    var firsts := Firsts(Records(snap.questions), SameQuestionEntry);
    forall k | 0 <= k < |firsts| ensures ShowsQuestion(firsts[k], RestoredQuestions(snap)[k]) {
      QuestionFields(firsts[k]);
    }
  }

  /** The scores restored: one for each numbered question, and every one without a number. */
  lemma RestoredScoresAre(snap: Snapshot)
    ensures var firsts, shown := Firsts(Records(snap.scores), SameScoreEntry), RestoredScores(snap);
      |shown| == |firsts| && forall k :: 0 <= k < |shown| ==> ShowsScore(firsts[k], shown[k])
  {
    ValidatedAre(snap.scores);
    ScoreKeyTells();
    UniqueAreFirsts(Records(snap.scores), ScoreKey, SameScoreEntry);
    var firsts := Firsts(Records(snap.scores), SameScoreEntry);
    forall k | 0 <= k < |firsts| ensures ShowsScore(firsts[k], RestoredScores(snap)[k]) {
      ScoreFields(firsts[k]);
    }
  }

  // Answers

  /** What the candidate said: a user's or a human's message, empty if it has no content. */
  function Said(m: Option<RawMessage>): Option<string> {
    if m == None then None
    else if m.value.role == Some("user") || m.value.kind == Some("human") then
      Some(if m.value.content == None then "" else m.value.content.value)
    else None
  }

  lemma {:induction false} UserContentsAre(messages: seq<Option<RawMessage>>)
    ensures UserContents(messages) == FilterMap(messages, Said)
  {
    if messages != [] {
      UserContentsAre(messages[..|messages| - 1]);
    }
  }

  /**
    * The answers restored are the contents of exactly the messages that the candidate sent, in their
    * order and numbered from 0, and the next number is how many there are.
    */
  lemma {:induction false} RestoredAnswersAre(p: Page, snap: Snapshot) returns (places: seq<nat>, texts: seq<string>)
    ensures Picks(snap.messages, Said, places, texts)
    ensures var r := Restored(p, snap);
      r.sequenceNo == |r.answers| == |texts| && forall k :: 0 <= k < |texts| ==> r.answers[k] == Answer(texts[k], k)
  {
    UserContentsAre(snap.messages);
    texts := FilterMap(snap.messages, Said);
    places := FilterMapPlaces(snap.messages, Said);
  }

  /** The answers of a page, told from what happened to it: those of the last snapshot, and those given since. */
  function AnswerTexts(steps: seq<PageStep>): seq<string> {
    if steps == [] then []
    else
      var earlier, step := AnswerTexts(steps[..|steps| - 1]), steps[|steps| - 1];
      match step
      case Live(_) => earlier
      case Resume(snap) => FilterMap(snap.messages, Said)
      case Answering(id, input) => if id == "" || Blank(input, IsJsSpace) then earlier else earlier + [input]
  }

  lemma TrimEmptyIff(s: string)
    ensures Trim(s, IsJsSpace) == "" <==> Blank(s, IsJsSpace)
  {
    var a, b := TrimBounds(s, IsJsSpace);
  }

  lemma {:induction false} AnswersAre(steps: seq<PageStep>)
    ensures var p, texts := PageRun(EMPTY_PAGE, steps), AnswerTexts(steps);
      p.sequenceNo == |p.answers| == |texts| &&
      forall k :: 0 <= k < |texts| ==> p.answers[k] == Answer(texts[k], k)
  {
    if steps != [] {
      var step := steps[|steps| - 1];
      AnswersAre(steps[..|steps| - 1]);
      match step {
        case Live(_) =>
        case Resume(snap) => UserContentsAre(snap.messages);
        case Answering(id, input) => TrimEmptyIff(input);
      }
    }
  }
}

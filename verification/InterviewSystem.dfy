/**
  * Stream hook and interview page together: the page drains the hook's event list, the resume snapshot
  * arrives at any moment, and the server may repeat and replay its log at will.
  */
module InterviewSystem {
  import opened Options
  import opened InterviewEvents
  import opened InterviewSocket
  import opened InterviewReplay
  import Page = InterviewPage
  import Merge = InterviewMerge
  import Contents = InterviewContents

  datatype SystemStep =
    | Stream(step: Step)
    | Effect
    | Resume(snap: Page.Snapshot)
    | Answer(sessionId: string, input: string)

  /** The hook, the page, how many events the page has drained, and the hook's steps so far. */
  datatype System = System(hook: Hook, page: Page.Page, drained: nat, trace: seq<Step>)

  function Start(total: nat): System { System(InitialHook(total), Page.EMPTY_PAGE, 0, []) }

  function OnHook(s: System, step: Step): System {
    s.(hook := Next(s.hook, step), trace := s.trace + [step])
  }

  function SystemNext(s: System, step: SystemStep): System {
    match step
    case Stream(t) => OnHook(s, t)
    case Effect =>
      var events := s.hook.state.events;
      if |events| <= s.drained then s
      else s.(page := Page.ProcessedAll(s.page, events[s.drained..]), drained := |events|)
    case Resume(snap) => s.(page := Page.Restored(s.page, snap))
    case Answer(id, input) =>
      if !Page.Submits(id, input) then s
      else OnHook(s, Submitted(id, input, s.page.sequenceNo)).(page := Page.Submitted(s.page, id, input))
  }

  function SystemRun(total: nat, steps: seq<SystemStep>): System {
    if steps == [] then Start(total) else SystemNext(SystemRun(total, steps[..|steps| - 1]), steps[|steps| - 1])
  }

  /** The snapshots of a run; the page asks for one only once. */
  function Snapshots(steps: seq<SystemStep>): seq<Page.Snapshot> {
    if steps == [] then []
    else
      var step := steps[|steps| - 1];
      Snapshots(steps[..|steps| - 1]) + if step.Resume? then [step.snap] else []
  }

  /** The scores restored by the snapshot, if it has come. */
  function BaseScores(snaps: seq<Page.Snapshot>): seq<Page.ScoreData> {
    if snaps == [] then [] else Page.RestoredScores(snaps[0])
  }

  lemma EventsOnlyGrow(h: Hook, step: Step)
    ensures h.state.events <= Next(h, step).state.events
  {
    NextProjects(h, step);
    DurableFields(h);
    DurableFields(Next(h, step));
  }

  lemma DrainedPrefix(events: seq<Event>, more: seq<Event>, n: nat)
    requires events <= more && n <= |events|
    ensures more[..n] == events[..n]
  {
  }

  lemma {:induction false} TraceIsRun(total: nat, steps: seq<SystemStep>)
    ensures var s := SystemRun(total, steps);
      s.hook == Run(InitialHook(total), s.trace)
  {
    if steps != [] {
      var before, step := SystemRun(total, steps[..|steps| - 1]), steps[|steps| - 1];
      TraceIsRun(total, steps[..|steps| - 1]);
      match step {
        case Stream(t) => RunLast(InitialHook(total), before.trace, t);
        case Answer(id, input) =>
          RunLast(InitialHook(total), before.trace, Submitted(id, input, before.page.sequenceNo));
        case _ =>
      }
    }
  }

  predicate Drained(s: System, base: seq<Page.ScoreData>) {
    s.drained <= |s.hook.state.events| &&
    s.page.scores == Merge.ScoresOver(base, s.hook.state.events[..s.drained])
  }

  lemma HookStepKeepsDrained(s: System, step: Step, base: seq<Page.ScoreData>)
    requires Drained(s, base)
    ensures Drained(OnHook(s, step), base)
  {
    EventsOnlyGrow(s.hook, step);
    DrainedPrefix(s.hook.state.events, Next(s.hook, step).state.events, s.drained);
  }

  lemma EffectKeepsDrained(s: System, base: seq<Page.ScoreData>)
    requires Drained(s, base)
    ensures Drained(SystemNext(s, Effect), base)
  {
    var events := s.hook.state.events;
    if |events| > s.drained {
      Merge.ProcessedAllParts(s.page, events[s.drained..]);
      Merge.ScoresOverConcat(base, events[..s.drained], events[s.drained..]);
      assert events[..s.drained] + events[s.drained..] == events && events[..|events|] == events;
    }
  }

  lemma ResumeKeepsDrained(s: System, snap: Page.Snapshot)
    requires Drained(s, [])
    ensures Drained(SystemNext(s, Resume(snap)), Page.RestoredScores(snap))
  {
    var restored, events := Page.RestoredScores(snap), s.hook.state.events[..s.drained];
    Merge.MergeScoresCommutes(restored, [], events);
  }

  lemma {:induction false} ScoresFollowDrainedEvents(total: nat, steps: seq<SystemStep>)
    requires |Snapshots(steps)| <= 1
    ensures Drained(SystemRun(total, steps), BaseScores(Snapshots(steps)))
  {
    if steps == [] {
      assert SystemRun(total, steps).hook.state.events[..0] == [];
    } else {
      var earlier, step := steps[..|steps| - 1], steps[|steps| - 1];
      var before, base := SystemRun(total, earlier), BaseScores(Snapshots(earlier));
      ScoresFollowDrainedEvents(total, earlier);
      match step {
        case Stream(t) => HookStepKeepsDrained(before, t, base);
        case Effect => EffectKeepsDrained(before, base);
        case Resume(snap) => ResumeKeepsDrained(before, snap);
        case Answer(id, input) =>
          HookStepKeepsDrained(before, Submitted(id, input, before.page.sequenceNo), base);
      }
      if !step.Resume? {
        assert Snapshots(earlier) + [] == Snapshots(earlier);
      }
    }
  }

  /**
    * End to end: however the server repeats and replays its log, and whenever the snapshot arrives, the
    * page that has drained its events shows the restored scores followed by each log score once.
    */
  lemma {:induction false} EveryScoreCountedOnce(total: nat, log: seq<Event>, steps: seq<SystemStep>)
    requires IsLog(log) && |Snapshots(steps)| <= 1
    requires var s := SystemRun(total, steps);
      Progress(log, s.trace).Some? && s.drained == |s.hook.state.events|
    ensures var s := SystemRun(total, steps);
      var base, prefix := BaseScores(Snapshots(steps)), log[..Progress(log, s.trace).value];
      s.page.scores == Merge.ScoresOver(base, prefix) == base + Contents.NewScores(base, prefix)
  {
    Contents.ScoresAreTheNewOnes(BaseScores(Snapshots(steps)),
                                 log[..Progress(log, SystemRun(total, steps).trace).value]);
    var s := SystemRun(total, steps);
    TraceIsRun(total, steps);
    ScoresFollowDrainedEvents(total, steps);
    ExactlyOnce(total, log, s.trace);
    assert s.hook.state.events[..s.drained] == s.hook.state.events;
  }

  // Questions

  /** The questions restored by the snapshot, if it has come. */
  function BaseQuestions(snaps: seq<Page.Snapshot>): seq<Page.QuestionData> {
    if snaps == [] then [] else Page.RestoredQuestions(snaps[0])
  }

  predicate DrainedQuestions(s: System, base: seq<Page.QuestionData>) {
    s.drained <= |s.hook.state.events| &&
    s.page.questions == Merge.QuestionsOver(base, s.hook.state.events[..s.drained])
  }

  lemma HookStepKeepsQuestions(s: System, step: Step, base: seq<Page.QuestionData>)
    requires DrainedQuestions(s, base)
    ensures DrainedQuestions(OnHook(s, step), base)
  {
    EventsOnlyGrow(s.hook, step);
    DrainedPrefix(s.hook.state.events, Next(s.hook, step).state.events, s.drained);
  }

  lemma EffectKeepsQuestions(s: System, base: seq<Page.QuestionData>)
    requires DrainedQuestions(s, base)
    ensures DrainedQuestions(SystemNext(s, Effect), base)
  {
    var events := s.hook.state.events;
    if |events| > s.drained {
      Merge.ProcessedAllParts(s.page, events[s.drained..]);
      Merge.QuestionsOverConcat(base, events[..s.drained], events[s.drained..]);
      assert events[..s.drained] + events[s.drained..] == events && events[..|events|] == events;
    }
  }

  lemma {:induction false} CarriedByPrefix(events: seq<Event>, n: nat, all: seq<Page.QuestionData>)
    requires n <= |events| && Merge.From(Merge.QuestionsIn(events), all)
    ensures Merge.From(Merge.QuestionsIn(events[..n]), all)
    decreases |events|
  {
    if n < |events| {
      var m := |events| - 1;
      Merge.FromLast(Merge.QuestionsIn(events[..m]), Page.QuestionIn(events[m]), all);
      CarriedByPrefix(events[..m], n, all);
      assert events[..m][..n] == events[..n];
    } else {
      assert events[..n] == events;
    }
  }

  /** A snapshot without clashes may come after any number of drained events. */
  lemma ResumeKeepsQuestions(s: System, snap: Page.Snapshot, all: seq<Page.QuestionData>)
    requires DrainedQuestions(s, []) && Merge.Unambiguous(all)
    requires Merge.From(Page.RestoredQuestions(snap), all) && Merge.From(Merge.QuestionsIn(s.hook.state.events), all)
    ensures DrainedQuestions(SystemNext(s, Resume(snap)), Page.RestoredQuestions(snap))
  {
    var restored, events := Page.RestoredQuestions(snap), s.hook.state.events[..s.drained];
    var live := Merge.QuestionsIn(events);
    CarriedByPrefix(s.hook.state.events, s.drained, all);
    Merge.RestoredNumbered(snap);
    Merge.CarriedNumbered(events);
    Merge.CarriedHaveText(events);
    Merge.LiveClashesWithNothing(restored, live, all);
    Merge.MergeQuestionsCommutes(restored, [], events, live, restored + live);
  }

  lemma {:induction false} QuestionsFollowDrainedEvents(total: nat, steps: seq<SystemStep>, all: seq<Page.QuestionData>)
    requires |Snapshots(steps)| <= 1 && Merge.Unambiguous(all)
    requires Merge.From(BaseQuestions(Snapshots(steps)), all)
    requires Merge.From(Merge.QuestionsIn(SystemRun(total, steps).hook.state.events), all)
    ensures DrainedQuestions(SystemRun(total, steps), BaseQuestions(Snapshots(steps)))
  {
    if steps == [] {
      assert SystemRun(total, steps).hook.state.events[..0] == [];
    } else {
      var earlier, step := steps[..|steps| - 1], steps[|steps| - 1];
      var before, base := SystemRun(total, earlier), BaseQuestions(Snapshots(earlier));
      if !step.Resume? {
        assert Snapshots(earlier) + [] == Snapshots(earlier);
      }
      EarlierEvents(before, step, all);
      QuestionsFollowDrainedEvents(total, earlier, all);
      match step {
        case Stream(t) => HookStepKeepsQuestions(before, t, base);
        case Effect => EffectKeepsQuestions(before, base);
        case Resume(snap) => ResumeKeepsQuestions(before, snap, all);
        case Answer(id, input) =>
          HookStepKeepsQuestions(before, Submitted(id, input, before.page.sequenceNo), base);
      }
    }
  }

  lemma EarlierEvents(s: System, step: SystemStep, all: seq<Page.QuestionData>)
    requires Merge.From(Merge.QuestionsIn(SystemNext(s, step).hook.state.events), all)
    ensures Merge.From(Merge.QuestionsIn(s.hook.state.events), all)
  {
    var more := SystemNext(s, step).hook.state.events;
    match step {
      case Stream(t) => EventsOnlyGrow(s.hook, t);
      case Answer(id, input) => EventsOnlyGrow(s.hook, Submitted(id, input, s.page.sequenceNo));
      case _ =>
    }
    assert more[..|s.hook.state.events|] == s.hook.state.events;
    CarriedByPrefix(more, |s.hook.state.events|, all);
  }

  /**
    * The same for questions: the page shows the restored ones followed by each question of the log once,
    * if no numbered one among them shares a non-empty text with an unnumbered one.
    */
  lemma {:induction false} EveryQuestionShownOnce(total: nat, log: seq<Event>, steps: seq<SystemStep>)
    requires IsLog(log) && |Snapshots(steps)| <= 1
    requires var s := SystemRun(total, steps);
      Progress(log, s.trace).Some? && s.drained == |s.hook.state.events| &&
      Merge.Unambiguous(BaseQuestions(Snapshots(steps)) + Merge.QuestionsIn(log[..Progress(log, s.trace).value]))
    ensures var s := SystemRun(total, steps);
      var base, prefix := BaseQuestions(Snapshots(steps)), log[..Progress(log, s.trace).value];
      s.page.questions == Merge.QuestionsOver(base, prefix) == base + Contents.NewQuestions(base, prefix)
  {
    Contents.QuestionsAreTheNewOnes(BaseQuestions(Snapshots(steps)),
                                    log[..Progress(log, SystemRun(total, steps).trace).value]);
    var s := SystemRun(total, steps);
    TraceIsRun(total, steps);
    ExactlyOnce(total, log, s.trace);
    var all := BaseQuestions(Snapshots(steps)) + Merge.QuestionsIn(s.hook.state.events);
    QuestionsFollowDrainedEvents(total, steps, all);
    assert s.hook.state.events[..s.drained] == s.hook.state.events;
  }
}

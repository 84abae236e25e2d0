/**
  * What the interview stream hook keeps over whole runs: any interleaving of opens, closes, submits,
  * hydrations, replay requests and deliveries, with events repeated, replayed and overlapping.
  */
module InterviewReplay {
  import opened Lists
  import opened Options
  import opened InterviewEvents
  import opened InterviewSocket

  // Dedupe

  /** Some step delivers an event numbered v. */
  predicate Carries(steps: seq<Step>, v: int) {
    exists j :: 0 <= j < |steps| && steps[j].Delivered? && steps[j].event.sequence == Some(v)
  }

  /** A delivery whose number was already seen before the run or carried earlier in it. */
  predicate IsRepeat(seen: seq<int>, earlier: seq<Step>, step: Step) {
    step.Delivered? && step.event.sequence.Some? &&
    (step.event.sequence.value in seen || Carries(earlier, step.event.sequence.value))
  }

  /** The run with all later repeats of a sequence number taken out. */
  function WithoutRepeats(seen: seq<int>, steps: seq<Step>): seq<Step> {
    if steps == [] then []
    else
      var earlier, step := steps[..|steps| - 1], steps[|steps| - 1];
      WithoutRepeats(seen, earlier) + if IsRepeat(seen, earlier, step) then [] else [step]
  }

  /** The delivered events of a run, in order. */
  function Delivered(steps: seq<Step>): seq<Event> {
    if steps == [] then []
    else
      var step := steps[|steps| - 1];
      Delivered(steps[..|steps| - 1]) + if step.Delivered? then [step.event] else []
  }

  lemma DeliveredLast(steps: seq<Step>, step: Step)
    ensures Delivered(steps + [step]) == Delivered(steps) + if step.Delivered? then [step.event] else []
  {
  }

  lemma SequencesLast(events: seq<Event>, e: Event)
    ensures Sequences(events + [e]) == Sequences(events) + Number(e)
  {
  }

  lemma CarriesLast(steps: seq<Step>, step: Step, v: int)
    ensures Carries(steps + [step], v) <==>
            Carries(steps, v) || (step.Delivered? && step.event.sequence == Some(v))
  {
    var all := steps + [step];
    if Carries(steps, v) {
      var j :| 0 <= j < |steps| && steps[j].Delivered? && steps[j].event.sequence == Some(v);
      assert all[j] == steps[j];
    }
    if step.Delivered? && step.event.sequence == Some(v) {
      assert all[|steps|] == step;
    }
    if Carries(all, v) {
      var j :| 0 <= j < |all| && all[j].Delivered? && all[j].event.sequence == Some(v);
      assert j < |steps| ==> steps[j] == all[j];
    }
  }

  // The part of the hook that only accepted events move

  datatype Durable = Durable(events: seq<Event>, seen: seq<int>, currentNode: Option<string>,
                             currentQuestion: int, lastCheckpointId: Option<string>, checkpoint: Option<string>)

  function DurableOf(h: Hook): Durable {
    Durable(h.state.events, h.state.seenSequences, h.state.currentNode, h.state.currentQuestion,
            h.state.lastCheckpointId, h.checkpoint)
  }

  function Number(e: Event): seq<int> {
    if e.sequence.Some? then [e.sequence.value] else []
  }

  predicate SeenIn(seen: seq<int>, e: Event) { e.sequence.Some? && e.sequence.value in seen }

  function NodeAfter(node: Option<string>, e: Event): Option<string> {
    match e.kind
    case RoundScore => Some("score")
    case ScoreDelivered => Some("score")
    case NodeStarted => Some(e.node)
    case NodeCompleted => if HasOverallScore(e.payload) then Some("completed") else node
    case _ => node
  }

  function QuestionAfter(n: int, e: Event): int {
    match e.kind
    case NextQuestion => Or(e.payload.own.questionNo, n)
    case NodeStarted => Or(e.payload.currentQuestion, n)
    case _ => n
  }

  /** One step as the durable part sees it: it depends on nothing else in the hook. */
  function DurableNext(d: Durable, step: Step): Durable {
    if !step.Delivered? || SeenIn(d.seen, step.event) then d
    else
      var e := step.event;
      Durable(d.events + [e], d.seen + Number(e), NodeAfter(d.currentNode, e), QuestionAfter(d.currentQuestion, e),
              if e.kind == NodeCompleted then NonEmpty(e.payload.checkpointId) else d.lastCheckpointId,
              CheckpointAfter(d.checkpoint, e))
  }

  function DurableRun(d: Durable, steps: seq<Step>): Durable {
    if steps == [] then d else DurableNext(DurableRun(d, steps[..|steps| - 1]), steps[|steps| - 1])
  }

  lemma DispatchedFields(s: WsState, e: Event)
    ensures var r := Dispatched(s, e);
      && r.events == s.events && r.seenSequences == s.seenSequences
      && r.currentNode == NodeAfter(s.currentNode, e) && r.currentQuestion == QuestionAfter(s.currentQuestion, e)
      && r.lastCheckpointId ==
           (if e.kind == NodeCompleted then NonEmpty(e.payload.checkpointId) else s.lastCheckpointId)
      && r.streamingText == TextAfter(s.streamingText, e)
  {
  }

  lemma NextProjects(h: Hook, step: Step)
    ensures DurableOf(Next(h, step)) == DurableNext(DurableOf(h), step)
  {
    if step.Delivered? && !Seen(h.state, step.event) {
      var r := Recorded(h.state, step.event);
      DispatchedFields(r, step.event);
      assert r.seenSequences == h.state.seenSequences + Number(step.event);
    }
  }

  lemma {:induction false} RunProjects(h: Hook, steps: seq<Step>)
    ensures DurableOf(Run(h, steps)) == DurableRun(DurableOf(h), steps)
  {
    if steps != [] {
      RunProjects(h, steps[..|steps| - 1]);
      NextProjects(Run(h, steps[..|steps| - 1]), steps[|steps| - 1]);
    }
  }

  /** Deliveries of the given events, one step each. */
  function Deliveries(events: seq<Event>): (steps: seq<Step>)
    ensures |steps| == |events|
  {
    seq(|events|, i requires 0 <= i < |events| => Step.Delivered(events[i]))
  }

  lemma {:induction false} ApplyAllProjects(h: Hook, events: seq<Event>)
    ensures DurableOf(ApplyAll(h, events)) == DurableRun(DurableOf(h), Deliveries(events))
  {
    if events != [] {
      var m := |events| - 1;
      ApplyAllProjects(h, events[..m]);
      NextProjects(ApplyAll(h, events[..m]), Step.Delivered(events[m]));
      assert Deliveries(events)[..m] == Deliveries(events[..m]);
    }
  }

  const NOTHING := Durable([], [], None, 0, None, None)

  /** The durable part has seen exactly the numbers it started with and those the run carried. */
  lemma {:induction false} SeenIffCarried(d: Durable, steps: seq<Step>, v: int)
    ensures v in DurableRun(d, steps).seen <==> v in d.seen || Carries(steps, v)
  {
    if steps != [] {
      var earlier, step := steps[..|steps| - 1], steps[|steps| - 1];
      SeenIffCarried(d, earlier, v);
      CarriesLast(earlier, step, v);
      assert earlier + [step] == steps;
    }
  }

  lemma {:induction false} RepeatIffSeen(d: Durable, earlier: seq<Step>, step: Step)
    ensures IsRepeat(d.seen, earlier, step) <==> step.Delivered? && SeenIn(DurableRun(d, earlier).seen, step.event)
  {
    if step.Delivered? && step.event.sequence.Some? {
      SeenIffCarried(d, earlier, step.event.sequence.value);
    }
  }

  lemma NotRepeatNotSeen(h: Hook, earlier: seq<Step>, step: Step)
    requires !IsRepeat(h.state.seenSequences, earlier, step)
    ensures step.Delivered? ==> !Seen(Run(h, earlier).state, step.event)
  {
    RepeatIffSeen(DurableOf(h), earlier, step);
    RunProjects(h, earlier);
    DurableFields(Run(h, earlier));
    DurableFields(h);
  }

  /** A repeat leaves the whole hook as it was. */
  lemma {:induction false} RepeatChangesNothing(h: Hook, earlier: seq<Step>, step: Step)
    requires IsRepeat(h.state.seenSequences, earlier, step)
    ensures Next(Run(h, earlier), step) == Run(h, earlier)
  {
    RepeatIffSeen(DurableOf(h), earlier, step);
    RunProjects(h, earlier);
    assert Seen(Run(h, earlier).state, step.event) by {
      assert DurableOf(Run(h, earlier)).seen == Run(h, earlier).state.seenSequences;
    }
  }

  lemma RunLast(h: Hook, steps: seq<Step>, step: Step)
    ensures Run(h, steps + [step]) == Next(Run(h, steps), step)
  {
  }

  /** Taking out all later repeats of a sequence number changes nothing at all in the final hook. */
  lemma {:induction false} DedupeEquivalence(h: Hook, steps: seq<Step>)
    ensures Run(h, steps) == Run(h, WithoutRepeats(h.state.seenSequences, steps))
  {
    if steps != [] {
      var earlier, step := steps[..|steps| - 1], steps[|steps| - 1];
      var kept := WithoutRepeats(h.state.seenSequences, earlier);
      DedupeEquivalence(h, earlier);
      if IsRepeat(h.state.seenSequences, earlier, step) {
        RepeatChangesNothing(h, earlier, step);
        assert kept + [] == kept;
      } else {
        RunLast(h, kept, step);
      }
    }
  }

  lemma {:induction false} StoredEventsDurable(d: Durable, steps: seq<Step>)
    ensures var events := Delivered(WithoutRepeats(d.seen, steps));
      DurableRun(d, steps).events == d.events + events && DurableRun(d, steps).seen == d.seen + Sequences(events)
  {
    if steps == [] {
      assert d.events + [] == d.events && d.seen + [] == d.seen;
    } else {
      var earlier, step := steps[..|steps| - 1], steps[|steps| - 1];
      var kept := WithoutRepeats(d.seen, earlier);
      var events := Delivered(kept);
      StoredEventsDurable(d, earlier);
      RepeatIffSeen(d, earlier, step);
      if IsRepeat(d.seen, earlier, step) {
        assert WithoutRepeats(d.seen, steps) == kept;
      } else {
        assert WithoutRepeats(d.seen, steps) == kept + [step];
        DeliveredLast(kept, step);
        if step.Delivered? {
          SequencesLast(events, step.event);
          ConcatAssoc(d.events, events, [step.event]);
          ConcatAssoc(d.seen, Sequences(events), Number(step.event));
        } else {
          assert events + [] == events;
        }
      }
    }
  }

  /** The stored events are those the repeat-free run delivers, and the seen numbers are theirs, in order. */
  lemma {:induction false} StoredEvents(h: Hook, steps: seq<Step>)
    ensures var events := Delivered(WithoutRepeats(h.state.seenSequences, steps));
      Run(h, steps).state.events == h.state.events + events &&
      Run(h, steps).state.seenSequences == h.state.seenSequences + Sequences(events)
  {
    RunProjects(h, steps);
    StoredEventsDurable(DurableOf(h), steps);
    assert DurableOf(Run(h, steps)).events == Run(h, steps).state.events;
  }

  predicate NoDuplicates(xs: seq<int>) {
    forall i, j :: 0 <= i < j < |xs| ==> xs[i] != xs[j]
  }

  lemma {:induction false} SeenOnce(d: Durable, steps: seq<Step>)
    requires NoDuplicates(d.seen)
    ensures NoDuplicates(DurableRun(d, steps).seen)
  {
    if steps != [] {
      SeenOnce(d, steps[..|steps| - 1]);
    }
  }

  lemma SeenDistinct(total: nat, steps: seq<Step>)
    ensures NoDuplicates(Run(InitialHook(total), steps).state.seenSequences)
  {
    RunProjects(InitialHook(total), steps);
    SeenOnce(NOTHING, steps);
    DurableFields(Run(InitialHook(total), steps));
  }

  /** In every reachable state the seen numbers are those of the stored events, each exactly once. */
  lemma {:induction false} SeenNumbersExact(total: nat, steps: seq<Step>)
    ensures var s := Run(InitialHook(total), steps).state;
      s.seenSequences == Sequences(s.events) && NoDuplicates(s.seenSequences)
  {
    var events := Delivered(WithoutRepeats([], steps));
    StoredEvents(InitialHook(total), steps);
    EmptyFirst(events);
    EmptyFirst(Sequences(events));
    SeenDistinct(total, steps);
  }

  // Exactly-once effect under replay

  /** The server's log: its entries are numbered 1, 2, 3 and so on. */
  predicate IsLog(log: seq<Event>) {
    forall i :: 0 <= i < |log| ==> log[i].sequence == Some(i + 1)
  }

  /**
    * How far a run has got in the log, when each delivery is an entry delivered before or the next
    * one; None when some delivery is neither.
    */
  function Progress(log: seq<Event>, steps: seq<Step>): Option<nat> { ProgressFrom(log, 0, steps) }

  function ProgressFrom(log: seq<Event>, p: nat, steps: seq<Step>): (q: Option<nat>)
    requires p <= |log|
    ensures q.Some? ==> p <= q.value <= |log|
  {
    if steps == [] then Some(p)
    else
      match ProgressFrom(log, p, steps[..|steps| - 1])
      case None => None
      case Some(q) => ProgressNext(log, q, steps[|steps| - 1])
  }

  function ProgressNext(log: seq<Event>, p: nat, step: Step): (q: Option<nat>)
    requires p <= |log|
    ensures q.Some? ==> p <= q.value <= |log|
  {
    if !step.Delivered? then Some(p)
    else if p < |log| && step.event == log[p] then Some(p + 1)
    else if step.event in log[..p] then Some(p)
    else None
  }

  /** The numbers 1 to p. */
  function UpTo(p: nat): (xs: seq<int>)
    ensures |xs| == p && forall i :: 0 <= i < p ==> xs[i] == i + 1
  {
    seq(p, i => i + 1)
  }

  lemma LargestUpTo(p: nat)
    ensures MaxSeen(UpTo(p)) == if p == 0 then None else Some(p)
  {
    var xs := UpTo(p);
    assert p == 0 ==> xs == [];
    if p > 0 {
      assert xs[p - 1] == p && p in xs;
      var i :| 0 <= i < p && xs[i] == MaxSeen(xs).value;
    }
  }

  lemma SeenInPrefix(log: seq<Event>, p: nat, e: Event)
    requires IsLog(log) && p <= |log|
    ensures e in log[..p] ==> SeenIn(UpTo(p), e)
    ensures p < |log| && e == log[p] ==> !SeenIn(UpTo(p), e)
  {
    if e in log[..p] {
      var i :| 0 <= i < p && e == log[i];
      assert UpTo(p)[i] == i + 1;
    }
  }

  /** The fold of the reducer over the first p entries of the log. */
  function AfterPrefix(log: seq<Event>, p: nat): Durable
    requires p <= |log|
  {
    DurableRun(NOTHING, Deliveries(log[..p]))
  }

  lemma AfterOneMore(log: seq<Event>, p: nat)
    requires p < |log|
    ensures AfterPrefix(log, p + 1) == DurableNext(AfterPrefix(log, p), Step.Delivered(log[p]))
  {
    assert log[..p + 1][..p] == log[..p];
    assert Deliveries(log[..p + 1])[..p] == Deliveries(log[..p]);
  }

  lemma {:induction false} PrefixFold(log: seq<Event>, p: nat)
    requires IsLog(log) && p <= |log|
    ensures AfterPrefix(log, p).events == log[..p] && AfterPrefix(log, p).seen == UpTo(p)
  {
    for i := 0 to p
      invariant AfterPrefix(log, i).events == log[..i] && AfterPrefix(log, i).seen == UpTo(i)
    {
      AfterOneMore(log, i);
      SeenInPrefix(log, i, log[i]);
      assert log[..i + 1] == log[..i] + [log[i]] && UpTo(i + 1) == UpTo(i) + [i + 1];
    }
  }

  lemma {:induction false} ExactlyOnceDurable(log: seq<Event>, steps: seq<Step>)
    requires IsLog(log) && Progress(log, steps).Some?
    ensures DurableRun(NOTHING, steps) == AfterPrefix(log, Progress(log, steps).value)
  {
    if steps != [] {
      var earlier, step := steps[..|steps| - 1], steps[|steps| - 1];
      var p := Progress(log, earlier).value;
      ExactlyOnceDurable(log, earlier);
      PrefixFold(log, p);
      if p < |log| {
        AfterOneMore(log, p);
      }
      if step.Delivered? {
        SeenInPrefix(log, p, step.event);
      }
    }
  }

  /**
    * In every run that replays and repeats the log in any way without skipping ahead, the durable
    * part of the hook is the fold of the reducer over a log prefix, each entry once, and the next
    * replay request asks for exactly what follows that prefix.
    */
  lemma {:induction false} ExactlyOnce(total: nat, log: seq<Event>, steps: seq<Step>)
    requires IsLog(log) && Progress(log, steps).Some?
    ensures var p := Progress(log, steps).value;
      var h := Run(InitialHook(total), steps);
      && DurableOf(h) == DurableOf(ApplyAll(InitialHook(total), log[..p]))
      && h.state.events == log[..p]
      && MaxSeen(h.state.seenSequences) == if p == 0 then None else Some(p)
  {
    var p := Progress(log, steps).value;
    RunProjects(InitialHook(total), steps);
    ApplyAllProjects(InitialHook(total), log[..p]);
    ExactlyOnceDurable(log, steps);
    PrefixFold(log, p);
    LargestUpTo(p);
    assert DurableOf(InitialHook(total)) == NOTHING;
    DurableFields(Run(InitialHook(total), steps));
  }

  lemma DurableFields(h: Hook)
    ensures DurableOf(h).events == h.state.events && DurableOf(h).seen == h.state.seenSequences
    ensures DurableOf(h).checkpoint == h.checkpoint && DurableOf(h).lastCheckpointId == h.state.lastCheckpointId
  {
  }

  /** Delivering entry i when the progress is i or more. */
  lemma ProgressNextReplay(log: seq<Event>, p: nat, i: nat)
    requires IsLog(log) && i < |log| && i <= p <= |log|
    ensures ProgressNext(log, p, Step.Delivered(log[i])) == Some(if p <= i then i + 1 else p)
  {
  }

  lemma {:induction false} ProgressConcat(log: seq<Event>, p: nat, a: seq<Step>, b: seq<Step>)
    requires p <= |log| && ProgressFrom(log, p, a).Some?
    ensures ProgressFrom(log, p, a + b) == ProgressFrom(log, ProgressFrom(log, p, a).value, b)
  {
    if b == [] {
      assert a + b == a;
    } else {
      assert (a + b)[..|a + b| - 1] == a + b[..|b| - 1];
      ProgressConcat(log, p, a, b[..|b| - 1]);
    }
  }

  /** Delivering entries from place lo on, when the progress is lo or more. */
  lemma {:induction false} ProgressOfReplay(log: seq<Event>, lo: nat, p: nat, more: seq<Step>)
    requires IsLog(log) && lo <= p <= |log| && lo + |more| <= |log|
    requires forall k :: 0 <= k < |more| ==> more[k] == Step.Delivered(log[lo + k])
    ensures ProgressFrom(log, p, more) == Some(if p < lo + |more| then lo + |more| else p)
  {
    if more != [] {
      var n := |more| - 1;
      ProgressOfReplay(log, lo, p, more[..n]);
      ProgressNextReplay(log, if p < lo + n then lo + n else p, lo + n);
    }
  }

  lemma RestDelivered(log: seq<Event>, steps: seq<Step>, lo: nat)
    requires IsLog(log) && Progress(log, steps).Some? && lo <= Progress(log, steps).value
    ensures Progress(log, steps + Deliveries(log[lo..])) == Some(|log|)
  {
    ProgressConcat(log, 0, steps, Deliveries(log[lo..]));
    ProgressOfReplay(log, lo, Progress(log, steps).value, Deliveries(log[lo..]));
  }

  /** What a replay request says, when there is an open socket to say it on. */
  predicate AsksFor(h: Hook, after: Option<int>) {
    IsOpen(h.wires) ==>
      h.sent != [] && h.sent[|h.sent| - 1].ReconnectMessage? && h.sent[|h.sent| - 1].after == after
  }

  lemma AskingSends(h: Hook, id: string, given: string)
    ensures AsksFor(Next(h, AskedReplay(id, given)), MaxSeen(h.state.seenSequences))
  {
  }

  /** A replay request sent at any point asks for exactly what follows the delivered prefix. */
  lemma ReplayRequestIsExact(total: nat, log: seq<Event>, steps: seq<Step>, id: string, given: string)
    requires IsLog(log) && Progress(log, steps).Some?
    ensures var p := Progress(log, steps).value;
      AsksFor(Run(InitialHook(total), steps + [AskedReplay(id, given)]), if p == 0 then None else Some(p))
  {
    ExactlyOnce(total, log, steps);
    RunLast(InitialHook(total), steps, AskedReplay(id, given));
    AskingSends(Run(InitialHook(total), steps), id, given);
  }

  /**
    * Receive the rest of the log from the point asked for, or from anywhere earlier: the hook ends
    * as if the whole log had been delivered once.
    */
  lemma {:induction false} ReplayCatchesUp(total: nat, log: seq<Event>, steps: seq<Step>, lo: nat)
    requires IsLog(log) && Progress(log, steps).Some? && lo <= Progress(log, steps).value
    ensures var caughtUp := Run(InitialHook(total), steps + Deliveries(log[lo..]));
      DurableOf(caughtUp) == DurableOf(ApplyAll(InitialHook(total), log)) && caughtUp.state.events == log
  {
    RestDelivered(log, steps, lo);
    WholeLog(total, log, steps + Deliveries(log[lo..]));
  }

  lemma {:induction false} WholeLog(total: nat, log: seq<Event>, steps: seq<Step>)
    requires IsLog(log) && Progress(log, steps) == Some(|log|)
    ensures DurableOf(Run(InitialHook(total), steps)) == DurableOf(ApplyAll(InitialHook(total), log))
    ensures Run(InitialHook(total), steps).state.events == log
  {
    assert log[..|log|] == log;
    ExactlyOnce(total, log, steps);
  }

  // Gaps

  /** Every delivery is some entry of the log, in any order. */
  predicate FromLog(log: seq<Event>, steps: seq<Step>) {
    forall i :: 0 <= i < |steps| && steps[i].Delivered? ==> steps[i].event in log
  }

  predicate Within(xs: seq<int>, m: nat) { forall i :: 0 <= i < |xs| ==> 1 <= xs[i] <= m }

  predicate Covers(xs: seq<int>, m: nat) { forall v :: 1 <= v <= m ==> v in xs }

  lemma WithoutOne(xs: seq<int>, i: nat, m: nat)
    requires NoDuplicates(xs) && Within(xs, m) && i < |xs| && xs[i] == m
    ensures var rest := xs[..i] + xs[i + 1..];
      m > 0 && NoDuplicates(rest) && Within(rest, m - 1) && (Covers(xs, m) <==> Covers(rest, m - 1))
  {
    var rest := xs[..i] + xs[i + 1..];
    assert xs == xs[..i] + [m] + xs[i + 1..];
    forall v | v != m ensures v in rest <==> v in xs {
    }
    assert 1 <= xs[i];
  }

  /** m different numbers within 1 to m are all of them, and fewer are not. */
  lemma {:induction false} DistinctCount(xs: seq<int>, m: nat)
    requires NoDuplicates(xs) && Within(xs, m)
    ensures |xs| <= m
    ensures |xs| == m <==> Covers(xs, m)
    decreases m
  {
    if xs == [] {
      assert m > 0 ==> m !in xs;
    } else if m in xs {
      var i :| 0 <= i < |xs| && xs[i] == m;
      WithoutOne(xs, i, m);
      DistinctCount(xs[..i] + xs[i + 1..], m - 1);
    } else {
      assert 1 <= xs[0] <= m;
      DistinctCount(xs, m - 1);
    }
  }

  lemma SeenWithinLog(log: seq<Event>, steps: seq<Step>, v: int)
    requires IsLog(log) && FromLog(log, steps)
    requires v in DurableRun(NOTHING, steps).seen
    ensures 1 <= v <= |log|
  {
  }

  /**
    * A server may skip ahead. Asking only for what follows the largest number seen then misses
    * nothing if and only if that number equals how many numbers were seen.
    */
  lemma NothingMissedIff(total: nat, log: seq<Event>, steps: seq<Step>)
    requires IsLog(log) && FromLog(log, steps)
    requires Run(InitialHook(total), steps).state.seenSequences != []
    ensures var seen := Run(InitialHook(total), steps).state.seenSequences;
      var after := MaxSeen(seen).value;
      (forall v :: 1 <= v <= after ==> v in seen) <==> after == |seen|
  {
    var seen := Run(InitialHook(total), steps).state.seenSequences;
    var after := MaxSeen(seen).value;
    SeenNumbersExact(total, steps);
    RunProjects(InitialHook(total), steps);
    DurableFields(Run(InitialHook(total), steps));
    forall i | 0 <= i < |seen| ensures 1 <= seen[i] <= after {
      SeenWithinLog(log, steps, seen[i]);
      assert seen[i] in seen;
    }
    SeenWithinLog(log, steps, after);
    DistinctCount(seen, after);
  }

  // Streamed text and checkpoints

  function TextAfter(text: string, e: Event): string {
    if e.kind == NodeStarted && e.node == "question_gen" then ""
    else if e.kind == TokenDelta then text + e.payload.content
    else text
  }

  /** A question starts to be generated, or an answer is submitted: the text starts over. */
  predicate IsReset(step: Step) {
    step.Submitted? || (step.Delivered? && step.event.kind == NodeStarted && step.event.node == "question_gen")
  }

  function Delta(step: Step): string {
    if step.Delivered? && step.event.kind == TokenDelta then step.event.payload.content else ""
  }

  /** The contents of the delivered token deltas, concatenated. */
  function Deltas(steps: seq<Step>): string {
    if steps == [] then "" else Deltas(steps[..|steps| - 1]) + Delta(steps[|steps| - 1])
  }

  lemma DeltasLast(base: string, steps: seq<Step>, step: Step)
    ensures base + Deltas(steps + [step]) == base + Deltas(steps) + Delta(step)
  {
  }

  lemma {:induction false} TextNext(h: Hook, step: Step)
    requires step.Delivered? ==> !Seen(h.state, step.event)
    ensures Next(h, step).state.streamingText == if IsReset(step) then "" else h.state.streamingText + Delta(step)
  {
    if step.Delivered? {
      DispatchedFields(Recorded(h.state, step.event), step.event);
    }
    assert h.state.streamingText + "" == h.state.streamingText;
  }

  lemma {:induction false} TextAfterStep(h: Hook, earlier: seq<Step>, step: Step)
    ensures Run(h, earlier + [step]).state.streamingText ==
            if IsRepeat(h.state.seenSequences, earlier, step) then Run(h, earlier).state.streamingText
            else if IsReset(step) then ""
            else Run(h, earlier).state.streamingText + Delta(step)
  {
    RunLast(h, earlier, step);
    if IsRepeat(h.state.seenSequences, earlier, step) {
      RepeatChangesNothing(h, earlier, step);
    } else {
      NotRepeatNotSeen(h, earlier, step);
      TextNext(Run(h, earlier), step);
    }
  }

  /** The text of a run, told from its steps alone. */
  function TextOf(seen: seq<int>, text: string, steps: seq<Step>): string {
    if steps == [] then text
    else
      var earlier, step := steps[..|steps| - 1], steps[|steps| - 1];
      if IsRepeat(seen, earlier, step) then TextOf(seen, text, earlier)
      else if IsReset(step) then ""
      else TextOf(seen, text, earlier) + Delta(step)
  }

  lemma {:induction false} TextOfRun(h: Hook, steps: seq<Step>)
    ensures Run(h, steps).state.streamingText == TextOf(h.state.seenSequences, h.state.streamingText, steps)
  {
    if steps != [] {
      var earlier, step := steps[..|steps| - 1], steps[|steps| - 1];
      TextOfRun(h, earlier);
      TextAfterStep(h, earlier, step);
      assert earlier + [step] == steps;
    }
  }

  /** r is just after the last step of kept that satisfies what happened there, or 0 when none does. */
  predicate LastReset(kept: seq<Step>, r: nat) {
    r <= |kept| && (r == 0 || IsReset(kept[r - 1])) && forall i :: r <= i < |kept| ==> !IsReset(kept[i])
  }

  lemma LastResetShorter(before: seq<Step>, step: Step, r: nat)
    requires LastReset(before + [step], r)
    ensures if r == |before| + 1 then IsReset(step)
            else LastReset(before, r) && !IsReset(step) && (before + [step])[r..] == before[r..] + [step]
  {
    var kept := before + [step];
    assert kept[|before|] == step;
    assert forall i :: 0 <= i < |before| ==> before[i] == kept[i];
  }

  lemma {:induction false} TextSinceReset(seen: seq<int>, text: string, steps: seq<Step>, r: nat)
    requires LastReset(WithoutRepeats(seen, steps), r)
    ensures TextOf(seen, text, steps) == (if r == 0 then text else "") + Deltas(WithoutRepeats(seen, steps)[r..])
  {
    var base := if r == 0 then text else "";
    if steps == [] {
      assert base + "" == base;
    } else {
      var earlier, step := steps[..|steps| - 1], steps[|steps| - 1];
      var before := WithoutRepeats(seen, earlier);
      if IsRepeat(seen, earlier, step) {
        assert before + [] == before;
        TextSinceReset(seen, text, earlier, r);
      } else {
        LastResetShorter(before, step, r);
        if r < |before| + 1 {
          TextSinceReset(seen, text, earlier, r);
          DeltasLast(base, before[r..], step);
        } else {
          assert (before + [step])[r..] == [];
        }
      }
    }
  }

  /**
    * At any point the streamed text is the concatenation of the token deltas delivered since the last
    * reset, repeats not counted, after what was there before if there was no reset.
    */
  lemma StreamedText(h: Hook, steps: seq<Step>, r: nat)
    requires LastReset(WithoutRepeats(h.state.seenSequences, steps), r)
    ensures Run(h, steps).state.streamingText ==
            (if r == 0 then h.state.streamingText else "") + Deltas(WithoutRepeats(h.state.seenSequences, steps)[r..])
  {
    TextOfRun(h, steps);
    TextSinceReset(h.state.seenSequences, h.state.streamingText, steps, r);
  }

  /** A completed node that names a checkpoint. */
  predicate NamesCheckpoint(step: Step) {
    step.Delivered? && step.event.kind == NodeCompleted && step.event.payload.checkpointId != ""
  }

  /** r is just after the last step of kept that names a checkpoint, or 0 when none does. */
  predicate LastNamed(kept: seq<Step>, r: nat) {
    r <= |kept| && (r == 0 || NamesCheckpoint(kept[r - 1])) && forall i :: r <= i < |kept| ==> !NamesCheckpoint(kept[i])
  }

  lemma {:induction false} CheckpointDurable(d: Durable, steps: seq<Step>, r: nat)
    requires LastNamed(WithoutRepeats(d.seen, steps), r)
    ensures DurableRun(d, steps).checkpoint ==
            if r == 0 then d.checkpoint else Some(WithoutRepeats(d.seen, steps)[r - 1].event.payload.checkpointId)
  {
    if steps != [] {
      var kept := WithoutRepeats(d.seen, steps);
      var earlier, step := steps[..|steps| - 1], steps[|steps| - 1];
      var before := WithoutRepeats(d.seen, earlier);
      RepeatIffSeen(d, earlier, step);
      if IsRepeat(d.seen, earlier, step) {
        assert kept == before;
        CheckpointDurable(d, earlier, r);
      } else {
        assert kept == before + [step] && kept[|before|] == step;
        assert forall i :: 0 <= i < |before| ==> before[i] == kept[i];
        if r < |kept| {
          CheckpointDurable(d, earlier, r);
        }
      }
    }
  }

  /** The checkpoint a reconnect sends is the latest one named in the run, repeats not counted. */
  lemma CheckpointIsLatest(h: Hook, steps: seq<Step>, r: nat)
    requires LastNamed(WithoutRepeats(h.state.seenSequences, steps), r)
    ensures Run(h, steps).checkpoint ==
            if r == 0 then h.checkpoint
            else Some(WithoutRepeats(h.state.seenSequences, steps)[r - 1].event.payload.checkpointId)
  {
    RunProjects(h, steps);
    CheckpointDurable(DurableOf(h), steps, r);
    DurableFields(Run(h, steps));
  }

  predicate ShownIsSent(d: Durable) { d.lastCheckpointId.Some? ==> d.checkpoint == d.lastCheckpointId }

  lemma {:induction false} ShownIsSentDurable(d: Durable, steps: seq<Step>)
    requires ShownIsSent(d)
    ensures ShownIsSent(DurableRun(d, steps))
  {
    if steps != [] {
      ShownIsSentDurable(d, steps[..|steps| - 1]);
    }
  }

  /** Whenever the state shows a checkpoint, it is the one a reconnect would send. */
  lemma ShownCheckpointIsSent(total: nat, steps: seq<Step>)
    ensures var h := Run(InitialHook(total), steps);
      h.state.lastCheckpointId.Some? ==> h.checkpoint == h.state.lastCheckpointId
  {
    RunProjects(InitialHook(total), steps);
    ShownIsSentDurable(NOTHING, steps);
    DurableFields(Run(InitialHook(total), steps));
  }
}

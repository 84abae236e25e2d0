/**
  * The interview stream hook, field by field over whole runs: at any point each field of the state is
  * what the last step to set it left, and what was sent is what was submitted and asked for.
  */
module InterviewFields {
  import opened Lists
  import opened Options
  import opened InterviewEvents
  import opened InterviewSocket
  import opened InterviewReplay
  import opened InterviewReconnect

  // The last step that sets a field

  /** r is just after the last kept step that sets something, or 0 when none does. */
  ghost predicate LastSet<T>(w: Wires, kept: seq<Step>, sets: (Wires, Step) -> Option<T>, r: nat) {
    r <= |kept| && (r == 0 || sets(WiresRun(w, kept[..r - 1]), kept[r - 1]).Some?) &&
    forall i :: r <= i < |kept| ==> sets(WiresRun(w, kept[..i]), kept[i]).None?
  }

  /** What that step left: it is told from the step and from which sockets there were before it. */
  function Left<T>(w: Wires, kept: seq<Step>, sets: (Wires, Step) -> Option<T>, r: nat, first: T): T
    requires r <= |kept|
  {
    if r == 0 then first else Or(sets(WiresRun(w, kept[..r - 1]), kept[r - 1]), first)
  }

  /** The run without its repeats. */
  function Kept(h: Hook, steps: seq<Step>): seq<Step> { WithoutRepeats(h.state.seenSequences, steps) }

  /** A delivery is no repeat. */
  predicate IsNew(h: Hook, step: Step) { step.Delivered? ==> !Seen(h.state, step.event) }

  /** Every step sets the field to that, or leaves it alone. */
  ghost predicate Tells<T>(get: WsState -> T, sets: (Wires, Step) -> Option<T>) {
    forall h: Hook, step: Step :: IsNew(h, step) ==> get(Next(h, step).state) == Or(sets(h.wires, step), get(h.state))
  }

  lemma LastSetShorter<T>(w: Wires, before: seq<Step>, step: Step, sets: (Wires, Step) -> Option<T>, r: nat, first: T)
    requires LastSet(w, before + [step], sets, r)
    ensures if r == |before| + 1 then
              sets(WiresRun(w, before), step).Some? &&
              Left(w, before + [step], sets, r, first) == sets(WiresRun(w, before), step).value
            else
              LastSet(w, before, sets, r) && sets(WiresRun(w, before), step).None? &&
              Left(w, before + [step], sets, r, first) == Left(w, before, sets, r, first)
  {
    var kept := before + [step];
    assert kept[..|before|] == before && kept[|before|] == step;
    assert forall i :: 0 <= i < |before| ==> kept[..i] == before[..i] && kept[i] == before[i];
  }

  lemma LastSetLonger<T>(w: Wires, before: seq<Step>, step: Step, sets: (Wires, Step) -> Option<T>, r: nat)
    requires LastSet(w, before, sets, r)
    ensures LastSet(w, before + [step], sets, if sets(WiresRun(w, before), step).Some? then |before| + 1 else r)
  {
    var kept := before + [step];
    assert kept[..|before|] == before && kept[|before|] == step;
    assert forall i :: 0 <= i < |before| ==> kept[..i] == before[..i] && kept[i] == before[i];
  }

  /** There is always such an r. */
  lemma {:induction false} LastSetExists<T>(w: Wires, kept: seq<Step>, sets: (Wires, Step) -> Option<T>)
    returns (r: nat)
    ensures LastSet(w, kept, sets, r)
  {
    if kept == [] {
      r := 0;
    } else {
      var before, step := kept[..|kept| - 1], kept[|kept| - 1];
      r := LastSetExists(w, before, sets);
      LastSetLonger(w, before, step, sets, r);
      assert before + [step] == kept;
      r := if sets(WiresRun(w, before), step).Some? then |kept| else r;
    }
  }

  lemma KeptRun(h: Hook, steps: seq<Step>)
    ensures Run(h, steps).wires == WiresRun(h.wires, Kept(h, steps))
  {
    DedupeEquivalence(h, steps);
    RunWires(h, Kept(h, steps));
  }

  /** The last step that sets the field wins, repeats not counted. */
  lemma {:induction false} LastSetWins<T>(h: Hook, steps: seq<Step>, get: WsState -> T,
                                          sets: (Wires, Step) -> Option<T>, r: nat)
    requires Tells(get, sets)
    requires LastSet(h.wires, Kept(h, steps), sets, r)
    ensures get(Run(h, steps).state) ==
            Left(h.wires, Kept(h, steps), sets, r, get(h.state))
  {
    if steps != [] {
      var earlier, step := steps[..|steps| - 1], steps[|steps| - 1];
      var before := Kept(h, earlier);
      if IsRepeat(h.state.seenSequences, earlier, step) {
        RepeatChangesNothing(h, earlier, step);
        assert Kept(h, steps) == before;
        LastSetWins(h, earlier, get, sets, r);
      } else {
        NotRepeatNotSeen(h, earlier, step);
        KeptRun(h, earlier);
        assert IsNew(Run(h, earlier), step);
        LastSetShorter(h.wires, before, step, sets, r, get(h.state));
        if r <= |before| {
          LastSetWins(h, earlier, get, sets, r);
        }
      }
    }
  }

  // What each step sets

  /** The phase a step puts the turn in, if any. A score event ends the scoring, a next question the turn. */
  function PhaseSet(w: Wires, step: Step): Option<TurnPhase> {
    match step
    case Submitted(_, _, _) => Some(Scoring)
    case Delivered(e) =>
      if e.kind == NodeStarted && e.node == "question_gen" then Some(GeneratingQuestion)
      else if e.kind == NodeStarted && e.node == "score" then Some(Scoring)
      else if e.kind == RoundScore || e.kind == ScoreDelivered then Some(AwaitingQuestion)
      else if e.kind == NextQuestion || e.kind == ErrorEvent then Some(Idle)
      else if e.kind == NodeCompleted && e.payload.summary.Some? then CompletedPhase(e.node, e.payload.summary.value)
      else None
    case _ => None
  }

  /** A positive score goes before an overall score, whatever else the summary of a score node says. */
  function CompletedPhase(node: string, summary: Card): Option<TurnPhase> {
    if node == "score" && summary.score > 0.0 then Some(AwaitingQuestion)
    else if (node == "question_gen" && summary.question != "") || summary.overallScore.Some? then Some(Idle)
    else None
  }

  /** An error event is kept until a socket opens. */
  function ErrorSet(w: Wires, step: Step): Option<Option<Event>> {
    match step
    case Delivered(e) => if e.kind == ErrorEvent then Some(Some(e)) else None
    case Opened(socket) => if In(w, socket, Connecting) then Some(None) else None
    case _ => None
  }

  /** The task a step names: a delivery by a non-empty id, a hydration when it is given one or none. */
  function TaskSet(w: Wires, step: Step): Option<Option<string>> {
    match step
    case Delivered(e) => if e.payload.taskId != "" then Some(Some(e.payload.taskId)) else None
    case Hydrated(r) => r.taskId
    case _ => None
  }

  function ExecutionSet(w: Wires, step: Step): Option<Option<string>> {
    match step
    case Delivered(e) => if e.payload.executionId != "" then Some(Some(e.payload.executionId)) else None
    case Hydrated(r) => r.executionId
    case _ => None
  }

  function ActionsSet(w: Wires, step: Step): Option<seq<string>> {
    match step
    case Delivered(e) => e.payload.availableActions
    case Hydrated(r) => r.availableActions
    case _ => None
  }

  function PointsSet(w: Wires, step: Step): Option<Option<PointsSummary>> {
    match step
    case Delivered(e) => if e.payload.pointsSummary == None then None else Some(e.payload.pointsSummary)
    case Hydrated(r) => r.pointsSummary
    case _ => None
  }

  /** The node shown: the one started last, the score's, or the word for a report with an overall score. */
  function NodeSet(w: Wires, step: Step): Option<Option<string>> {
    if !step.Delivered? then None
    else
      var e := step.event;
      if e.kind == NodeStarted then Some(Some(e.node))
      else if e.kind == RoundScore || e.kind == ScoreDelivered then Some(Some("score"))
      else if e.kind == NodeCompleted && e.payload.summary.Some? && e.payload.summary.value.overallScore.Some? then
        Some(Some("completed"))
      else None
  }

  /** The question counter: a started node gives the current one, a next question its own number. */
  function QuestionSet(w: Wires, step: Step): Option<int> {
    if !step.Delivered? then None
    else if step.event.kind == NodeStarted then step.event.payload.currentQuestion
    else if step.event.kind == NextQuestion then step.event.payload.own.questionNo
    else None
  }

  /** The checkpoint shown: that of the node completed last, if it names one. */
  function ShownCheckpointSet(w: Wires, step: Step): Option<Option<string>> {
    if step.Delivered? && step.event.kind == NodeCompleted then
      var id := step.event.payload.checkpointId;
      Some(if id == "" then None else Some(id))
    else None
  }

  function ConnectedSet(w: Wires, step: Step): Option<bool> {
    match step
    case Opened(socket) => if In(w, socket, Connecting) then Some(true) else None
    case Closed(socket) => if MayClose(w, socket) then Some(false) else None
    case Disconnected => Some(false)
    case _ => None
  }

  /** A close promises a reconnect while fewer than five were tried since the last open. */
  function ReconnectingSet(w: Wires, step: Step): Option<bool> {
    match step
    case Opened(socket) => if In(w, socket, Connecting) then Some(false) else None
    case Closed(socket) => if MayClose(w, socket) && w.attempts < 5 then Some(true) else None
    case Disconnected => Some(false)
    case _ => None
  }

  function AttemptSet(w: Wires, step: Step): Option<nat> {
    match step
    case Opened(socket) => if In(w, socket, Connecting) then Some(0) else None
    case Closed(socket) => if MayClose(w, socket) && w.attempts < 5 then Some(w.attempts + 1) else None
    case _ => None
  }

  lemma SwitchedShows(s: WsState, e: Event)
    ensures Switched(s, e).turnPhase == if e.kind == ErrorEvent then Idle else s.turnPhase
    ensures Switched(s, e).error == if e.kind == ErrorEvent then Some(e) else s.error
  {
  }

  lemma ScoreFirstShows(s: WsState, e: Event)
    ensures ScoreFirst(s, e).turnPhase ==
            if e.kind == RoundScore || e.kind == ScoreDelivered then AwaitingQuestion
            else if e.kind == NextQuestion then Idle else s.turnPhase
    ensures ScoreFirst(s, e).error == s.error
  {
  }

  lemma DispatchedShows(s: WsState, e: Event, w: Wires)
    ensures Dispatched(s, e).turnPhase == Or(PhaseSet(w, Step.Delivered(e)), s.turnPhase)
    ensures Dispatched(s, e).error == Or(ErrorSet(w, Step.Delivered(e)), s.error)
  {
    SwitchedShows(ScoreFirst(WithPhase(s, e), e), e);
    ScoreFirstShows(WithPhase(s, e), e);
  }

  lemma DispatchedKeepsEnvelope(s: WsState, e: Event)
    ensures var t := Dispatched(s, e);
      && t.taskId == s.taskId && t.executionId == s.executionId && t.availableActions == s.availableActions
      && t.pointsSummary == s.pointsSummary && t.totalQuestions == s.totalQuestions
    ensures var t := Dispatched(s, e);
      t.connected == s.connected && t.reconnecting == s.reconnecting && t.reconnectAttempt == s.reconnectAttempt
  {
  }

  lemma RecordedFields(s: WsState, e: Event, w: Wires)
    ensures var t, step := Recorded(s, e), Step.Delivered(e);
      && t.taskId == Or(TaskSet(w, step), s.taskId) && t.executionId == Or(ExecutionSet(w, step), s.executionId)
      && t.availableActions == Or(ActionsSet(w, step), s.availableActions)
      && t.pointsSummary == Or(PointsSet(w, step), s.pointsSummary)
  {
  }

  lemma FieldsAfterStep(h: Hook, step: Step)
    requires IsNew(h, step)
    ensures var s, t, w := h.state, Next(h, step).state, h.wires;
      && t.turnPhase == Or(PhaseSet(w, step), s.turnPhase) && t.error == Or(ErrorSet(w, step), s.error)
      && t.currentNode == Or(NodeSet(w, step), s.currentNode)
      && t.currentQuestion == Or(QuestionSet(w, step), s.currentQuestion)
      && t.lastCheckpointId == Or(ShownCheckpointSet(w, step), s.lastCheckpointId)
  {
    if step.Delivered? {
      DispatchedFields(Recorded(h.state, step.event), step.event);
      DispatchedShows(Recorded(h.state, step.event), step.event, h.wires);
    }
  }

  lemma EnvelopeFields(h: Hook, step: Step)
    requires IsNew(h, step)
    ensures var s, t, w := h.state, Next(h, step).state, h.wires;
      && t.taskId == Or(TaskSet(w, step), s.taskId) && t.executionId == Or(ExecutionSet(w, step), s.executionId)
      && t.availableActions == Or(ActionsSet(w, step), s.availableActions)
      && t.pointsSummary == Or(PointsSet(w, step), s.pointsSummary)
  {
    if step.Delivered? {
      RecordedFields(h.state, step.event, h.wires);
      DispatchedKeepsEnvelope(Recorded(h.state, step.event), step.event);
    }
  }

  lemma ConnectionFields(h: Hook, step: Step)
    requires IsNew(h, step)
    ensures var s, t, w := h.state, Next(h, step).state, h.wires;
      && t.connected == Or(ConnectedSet(w, step), s.connected)
      && t.reconnecting == Or(ReconnectingSet(w, step), s.reconnecting)
      && t.reconnectAttempt == Or(AttemptSet(w, step), s.reconnectAttempt)
  {
    if step.Delivered? {
      DispatchedKeepsEnvelope(Recorded(h.state, step.event), step.event);
    }
  }

  // The laws

  /** The turn phase is at every point the one set last. */
  lemma {:induction false} PhaseIsLatest(h: Hook, steps: seq<Step>, r: nat)
    requires LastSet(h.wires, Kept(h, steps), PhaseSet, r)
    ensures Run(h, steps).state.turnPhase == Left(h.wires, Kept(h, steps), PhaseSet, r, h.state.turnPhase)
  {
    var get := (s: WsState) => s.turnPhase;
    forall h: Hook, step | IsNew(h, step)
      ensures get(Next(h, step).state) == Or(PhaseSet(h.wires, step), get(h.state))
    {
      FieldsAfterStep(h, step);
    }
    LastSetWins(h, steps, get, PhaseSet, r);
  }

  /** The error shown is the event of the last error, unless a socket opened since. */
  lemma {:induction false} ErrorIsLatest(h: Hook, steps: seq<Step>, r: nat)
    requires LastSet(h.wires, Kept(h, steps), ErrorSet, r)
    ensures Run(h, steps).state.error == Left(h.wires, Kept(h, steps), ErrorSet, r, h.state.error)
  {
    var get := (s: WsState) => s.error;
    forall h: Hook, step | IsNew(h, step)
      ensures get(Next(h, step).state) == Or(ErrorSet(h.wires, step), get(h.state))
    {
      FieldsAfterStep(h, step);
    }
    LastSetWins(h, steps, get, ErrorSet, r);
  }

  /** The node shown. */
  lemma {:induction false} NodeIsLatest(h: Hook, steps: seq<Step>, r: nat)
    requires LastSet(h.wires, Kept(h, steps), NodeSet, r)
    ensures Run(h, steps).state.currentNode == Left(h.wires, Kept(h, steps), NodeSet, r, h.state.currentNode)
  {
    var get := (s: WsState) => s.currentNode;
    forall h: Hook, step | IsNew(h, step)
      ensures get(Next(h, step).state) == Or(NodeSet(h.wires, step), get(h.state))
    {
      FieldsAfterStep(h, step);
    }
    LastSetWins(h, steps, get, NodeSet, r);
  }

  /** The question counter. */
  lemma {:induction false} QuestionIsLatest(h: Hook, steps: seq<Step>, r: nat)
    requires LastSet(h.wires, Kept(h, steps), QuestionSet, r)
    ensures Run(h, steps).state.currentQuestion ==
            Left(h.wires, Kept(h, steps), QuestionSet, r, h.state.currentQuestion)
  {
    var get := (s: WsState) => s.currentQuestion;
    forall h: Hook, step | IsNew(h, step)
      ensures get(Next(h, step).state) == Or(QuestionSet(h.wires, step), get(h.state))
    {
      FieldsAfterStep(h, step);
    }
    LastSetWins(h, steps, get, QuestionSet, r);
  }

  /** The checkpoint shown. */
  lemma {:induction false} ShownCheckpointIsLatest(h: Hook, steps: seq<Step>, r: nat)
    requires LastSet(h.wires, Kept(h, steps), ShownCheckpointSet, r)
    ensures Run(h, steps).state.lastCheckpointId ==
            Left(h.wires, Kept(h, steps), ShownCheckpointSet, r, h.state.lastCheckpointId)
  {
    var get := (s: WsState) => s.lastCheckpointId;
    forall h: Hook, step | IsNew(h, step)
      ensures get(Next(h, step).state) == Or(ShownCheckpointSet(h.wires, step), get(h.state))
    {
      FieldsAfterStep(h, step);
    }
    LastSetWins(h, steps, get, ShownCheckpointSet, r);
  }

  /** The task is the one that the last delivery naming one, or the last hydration, left. */
  lemma {:induction false} TaskIsLatest(h: Hook, steps: seq<Step>, r: nat)
    requires LastSet(h.wires, Kept(h, steps), TaskSet, r)
    ensures Run(h, steps).state.taskId == Left(h.wires, Kept(h, steps), TaskSet, r, h.state.taskId)
  {
    var get := (s: WsState) => s.taskId;
    forall h: Hook, step | IsNew(h, step)
      ensures get(Next(h, step).state) == Or(TaskSet(h.wires, step), get(h.state))
    {
      EnvelopeFields(h, step);
    }
    LastSetWins(h, steps, get, TaskSet, r);
  }

  /** So is the execution. */
  lemma {:induction false} ExecutionIsLatest(h: Hook, steps: seq<Step>, r: nat)
    requires LastSet(h.wires, Kept(h, steps), ExecutionSet, r)
    ensures Run(h, steps).state.executionId == Left(h.wires, Kept(h, steps), ExecutionSet, r, h.state.executionId)
  {
    var get := (s: WsState) => s.executionId;
    forall h: Hook, step | IsNew(h, step)
      ensures get(Next(h, step).state) == Or(ExecutionSet(h.wires, step), get(h.state))
    {
      EnvelopeFields(h, step);
    }
    LastSetWins(h, steps, get, ExecutionSet, r);
  }

  /** The actions on offer are those listed last, even if none. */
  lemma {:induction false} ActionsIsLatest(h: Hook, steps: seq<Step>, r: nat)
    requires LastSet(h.wires, Kept(h, steps), ActionsSet, r)
    ensures Run(h, steps).state.availableActions ==
            Left(h.wires, Kept(h, steps), ActionsSet, r, h.state.availableActions)
  {
    var get := (s: WsState) => s.availableActions;
    forall h: Hook, step | IsNew(h, step)
      ensures get(Next(h, step).state) == Or(ActionsSet(h.wires, step), get(h.state))
    {
      EnvelopeFields(h, step);
    }
    LastSetWins(h, steps, get, ActionsSet, r);
  }

  /** The points summary. */
  lemma {:induction false} PointsIsLatest(h: Hook, steps: seq<Step>, r: nat)
    requires LastSet(h.wires, Kept(h, steps), PointsSet, r)
    ensures Run(h, steps).state.pointsSummary == Left(h.wires, Kept(h, steps), PointsSet, r, h.state.pointsSummary)
  {
    var get := (s: WsState) => s.pointsSummary;
    forall h: Hook, step | IsNew(h, step)
      ensures get(Next(h, step).state) == Or(PointsSet(h.wires, step), get(h.state))
    {
      EnvelopeFields(h, step);
    }
    LastSetWins(h, steps, get, PointsSet, r);
  }

  /** Connected means that after the last open no socket closed and nobody disconnected. */
  lemma {:induction false} ConnectedIsLatest(h: Hook, steps: seq<Step>, r: nat)
    requires LastSet(h.wires, Kept(h, steps), ConnectedSet, r)
    ensures Run(h, steps).state.connected == Left(h.wires, Kept(h, steps), ConnectedSet, r, h.state.connected)
  {
    var get := (s: WsState) => s.connected;
    forall h: Hook, step | IsNew(h, step)
      ensures get(Next(h, step).state) == Or(ConnectedSet(h.wires, step), get(h.state))
    {
      ConnectionFields(h, step);
    }
    LastSetWins(h, steps, get, ConnectedSet, r);
  }

  /** Reconnecting means that the last of these was a close with attempts left. */
  lemma {:induction false} ReconnectingIsLatest(h: Hook, steps: seq<Step>, r: nat)
    requires LastSet(h.wires, Kept(h, steps), ReconnectingSet, r)
    ensures Run(h, steps).state.reconnecting == Left(h.wires, Kept(h, steps), ReconnectingSet, r, h.state.reconnecting)
  {
    var get := (s: WsState) => s.reconnecting;
    forall h: Hook, step | IsNew(h, step)
      ensures get(Next(h, step).state) == Or(ReconnectingSet(h.wires, step), get(h.state))
    {
      ConnectionFields(h, step);
    }
    LastSetWins(h, steps, get, ReconnectingSet, r);
  }

  /** The attempt shown is that of the last close with attempts left, or 0 after an open. */
  lemma {:induction false} AttemptIsLatest(h: Hook, steps: seq<Step>, r: nat)
    requires LastSet(h.wires, Kept(h, steps), AttemptSet, r)
    ensures Run(h, steps).state.reconnectAttempt ==
            Left(h.wires, Kept(h, steps), AttemptSet, r, h.state.reconnectAttempt)
  {
    var get := (s: WsState) => s.reconnectAttempt;
    forall h: Hook, step | IsNew(h, step)
      ensures get(Next(h, step).state) == Or(AttemptSet(h.wires, step), get(h.state))
    {
      ConnectionFields(h, step);
    }
    LastSetWins(h, steps, get, AttemptSet, r);
  }

  /** The number of questions never changes. */
  lemma {:induction false} TotalStays(h: Hook, steps: seq<Step>)
    ensures Run(h, steps).state.totalQuestions == h.state.totalQuestions
  {
    if steps != [] {
      TotalStays(h, steps[..|steps| - 1]);
      TotalAfterStep(Run(h, steps[..|steps| - 1]), steps[|steps| - 1]);
    }
  }

  lemma TotalAfterStep(h: Hook, step: Step)
    ensures Next(h, step).state.totalQuestions == h.state.totalQuestions
  {
    if step.Delivered? {
      DispatchedKeepsEnvelope(Recorded(h.state, step.event), step.event);
    }
  }

  // What is sent

  function Answer(m: Message): Option<Message> { if m.AnswerMessage? then Some(m) else None }

  function Request(m: Message): Option<Message> { if m.ReconnectMessage? then Some(m) else None }

  /** The answer that a step sends: what was submitted, if an open socket is held. */
  function AnswerFor(w: Wires, step: Step): seq<Message> {
    if step.Submitted? && IsOpen(w) then [AnswerMessage(step.sessionId, step.content, step.sequenceNo)] else []
  }

  /**
    * The request that a step sends. A socket that opens asks from the checkpoint of before, if there is
    * one; a replay request names the checkpoint given or that one, and the largest number seen.
    */
  function RequestFor(h: Hook, step: Step): seq<Message> {
    var checkpoint := h.checkpoint;
    match step
    case Opened(socket) =>
      if In(h.wires, socket, Connecting) && checkpoint != None && checkpoint != Some("") then
        [ReconnectMessage("", checkpoint, None)]
      else []
    case AskedReplay(id, given) =>
      if !IsOpen(h.wires) then []
      else [ReconnectMessage(id, if given == "" then checkpoint else Some(given), MaxSeen(h.state.seenSequences))]
    case _ => []
  }

  function AnswersOver(w: Wires, steps: seq<Step>): seq<Message> {
    if steps == [] then []
    else
      AnswersOver(w, steps[..|steps| - 1]) +
      AnswerFor(WiresRun(w, steps[..|steps| - 1]), steps[|steps| - 1])
  }

  function RequestsOver(h: Hook, steps: seq<Step>): seq<Message> {
    if steps == [] then []
    else RequestsOver(h, steps[..|steps| - 1]) + RequestFor(Run(h, steps[..|steps| - 1]), steps[|steps| - 1])
  }

  lemma SentAfterStep(h: Hook, step: Step)
    ensures Next(h, step).sent == h.sent + (AnswerFor(h.wires, step) + RequestFor(h, step))
    ensures AnswerFor(h.wires, step) == [] || RequestFor(h, step) == []
  {
  }

  lemma MessagesAfterStep(h: Hook, step: Step)
    ensures FilterMap(Next(h, step).sent, Answer) == FilterMap(h.sent, Answer) + AnswerFor(h.wires, step)
    ensures FilterMap(Next(h, step).sent, Request) == FilterMap(h.sent, Request) + RequestFor(h, step)
  {
    var more := AnswerFor(h.wires, step) + RequestFor(h, step);
    SentAfterStep(h, step);
    FilterMapConcat(h.sent, more, Answer);
    FilterMapConcat(h.sent, more, Request);
    AtMostOne(AnswerFor(h.wires, step), RequestFor(h, step));
  }

  lemma AtMostOne(answers: seq<Message>, requests: seq<Message>)
    requires |answers| + |requests| <= 1
    requires (answers != [] ==> answers[0].AnswerMessage?) && (requests != [] ==> requests[0].ReconnectMessage?)
    ensures FilterMap(answers + requests, Answer) == answers && FilterMap(answers + requests, Request) == requests
  {
    var more := answers + requests;
    assert |more| == 1 ==> more == [more[0]] && more[..0] == [];
  }

  /** The answers sent are those submitted while an open socket was held, word for word and in order. */
  lemma {:induction false} AnswersGoOut(h: Hook, steps: seq<Step>)
    ensures FilterMap(Run(h, steps).sent, Answer) == FilterMap(h.sent, Answer) + AnswersOver(h.wires, steps)
  {
    if steps == [] {
      assert AnswersOver(h.wires, steps) == [];
    } else {
      var earlier, step := steps[..|steps| - 1], steps[|steps| - 1];
      AnswersGoOut(h, earlier);
      RunWires(h, earlier);
      MessagesAfterStep(Run(h, earlier), step);
      ConcatAssoc(FilterMap(h.sent, Answer), AnswersOver(h.wires, earlier),
                  AnswerFor(WiresRun(h.wires, earlier), step));
    }
  }

  /** Replay requests are sent exactly when asked for or at an open, from the checkpoint of that moment. */
  lemma {:induction false} RequestsGoOut(h: Hook, steps: seq<Step>)
    ensures FilterMap(Run(h, steps).sent, Request) == FilterMap(h.sent, Request) + RequestsOver(h, steps)
  {
    if steps == [] {
      assert RequestsOver(h, steps) == [];
    } else {
      var earlier, step := steps[..|steps| - 1], steps[|steps| - 1];
      RequestsGoOut(h, earlier);
      MessagesAfterStep(Run(h, earlier), step);
      ConcatAssoc(FilterMap(h.sent, Request), RequestsOver(h, earlier), RequestFor(Run(h, earlier), step));
    }
  }
}

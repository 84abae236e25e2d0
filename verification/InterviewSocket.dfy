/**
  * src/hooks/useInterviewWS.ts: a reducer over the interview event stream, with sequence dedupe,
  * checkpoints, reconnect backoff and the one-shot mock stream.
  */
module InterviewSocket {
  import opened Lists
  import opened Options
  import opened InterviewEvents

  datatype TurnPhase = Idle | Scoring | AwaitingQuestion | GeneratingQuestion

  datatype WsState = WsState(connected: bool, reconnecting: bool, reconnectAttempt: nat,
                             currentNode: Option<string>, currentQuestion: int, totalQuestions: nat,
                             streamingText: string, lastCheckpointId: Option<string>, error: Option<Event>,
                             events: seq<Event>, turnPhase: TurnPhase, taskId: Option<string>,
                             executionId: Option<string>, availableActions: seq<string>,
                             pointsSummary: Option<PointsSummary>, seenSequences: seq<int>)

  datatype Message =
    | ReconnectMessage(sessionId: string, lastSeen: Option<string>, after: Option<int>)
    | AnswerMessage(sessionId: string, content: string, sequenceNo: int)

  /** A socket's ready state; closing may take time and ends with a close event. */
  datatype SocketState = Connecting | Open | Closing | Gone

  /**
    * The sockets ever made, which of them the socket reference holds, how many reconnect attempts were
    * used; the delays of all timers ever set, which of them are still to fire, and which one the timer
    * reference holds.
    */
  datatype Wires = Wires(sockets: seq<SocketState>, held: Option<nat>, attempts: nat,
                         timers: seq<nat>, pending: set<nat>, timerRef: Option<nat>)

  /** The hook: its React state, its refs with sockets and timers behind them, and what it has sent. */
  datatype Hook = Hook(state: WsState, checkpoint: Option<string>, wires: Wires, sent: seq<Message>)

  const BACKOFF: seq<nat> := [1000, 2000, 4000, 8000, 16000]
  const MAX_RECONNECT_ATTEMPTS := 5
  const UNWIRED := Wires([], None, 0, [], {}, None)

  function InitialState(totalQuestions: nat): WsState {
    WsState(false, false, 0, None, 0, totalQuestions, "", None, None, [], Idle, None, None, [], None, [])
  }

  function InitialHook(totalQuestions: nat): Hook {
    Hook(InitialState(totalQuestions), None, UNWIRED, [])
  }

  // The reducer

  predicate HasOverallScore(p: Payload) { p.summary.Some? && p.summary.value.overallScore.Some? }

  /** applyTurnPhaseFromEvent; None leaves the phase alone. */
  function TurnPhaseFor(e: Event, prev: WsState): Option<TurnPhase> {
    match e.kind
    case NodeStarted =>
      if e.node == "score" then Some(Scoring)
      else if e.node == "question_gen" then Some(GeneratingQuestion)
      else None
    case NodeCompleted =>
      if e.node == "score" && e.payload.summary.Some? && e.payload.summary.value.score > 0.0 then
        Some(AwaitingQuestion)
      else if e.node == "question_gen" && e.payload.summary.Some? && e.payload.summary.value.question != "" then
        Some(Idle)
      else if HasOverallScore(e.payload) then Some(Idle)
      else None
    case ErrorEvent => Some(Idle)
    case PlanStatus => Some(prev.turnPhase)
    case _ => None
  }

  function NonEmpty(s: string): Option<string> {
    if s == "" then None else Some(s)
  }

  predicate Seen(s: WsState, e: Event) { e.sequence.Some? && e.sequence.value in s.seenSequences }

  /** The updates every accepted event makes: the event list, the sequence list, the runtime envelope. */
  function Recorded(s: WsState, e: Event): WsState {
    var p := e.payload;
    s.(events := s.events + [e],
       seenSequences := if e.sequence.Some? then s.seenSequences + [e.sequence.value] else s.seenSequences,
       taskId := if p.taskId != "" then Some(p.taskId) else s.taskId,
       executionId := if p.executionId != "" then Some(p.executionId) else s.executionId,
       availableActions := Or(p.availableActions, s.availableActions),
       pointsSummary := if p.pointsSummary.Some? then p.pointsSummary else s.pointsSummary)
  }

  function WithPhase(s: WsState, e: Event): WsState {
    s.(turnPhase := Or(TurnPhaseFor(e, s), s.turnPhase))
  }

  /** A dedicated score event completes the score; the next question ends the turn. */
  function ScoreFirst(s: WsState, e: Event): WsState {
    match e.kind
    case RoundScore => s.(turnPhase := AwaitingQuestion, currentNode := Some("score"))
    case ScoreDelivered => s.(turnPhase := AwaitingQuestion, currentNode := Some("score"))
    case NextQuestion =>
      s.(turnPhase := Idle, currentQuestion := Or(e.payload.own.questionNo, s.currentQuestion))
    case _ => s
  }

  /** The switch on the event type. */
  function Switched(s: WsState, e: Event): WsState {
    match e.kind
    case NodeStarted =>
      s.(currentNode := Some(e.node),
         currentQuestion := Or(e.payload.currentQuestion, s.currentQuestion),
         streamingText := if e.node == "question_gen" then "" else s.streamingText)
    case TokenDelta => s.(streamingText := s.streamingText + e.payload.content)
    case NodeCompleted =>
      s.(lastCheckpointId := NonEmpty(e.payload.checkpointId),
         currentNode := if HasOverallScore(e.payload) then Some("completed") else s.currentNode)
    case ErrorEvent => s.(error := Some(e), turnPhase := Idle)
    case _ => s
  }

  /** All updates that depend on the kind of event. */
  function Dispatched(s: WsState, e: Event): WsState {
    Switched(ScoreFirst(WithPhase(s, e), e), e)
  }

  /** The checkpoint ref moves at a completed node that names a checkpoint. */
  function CheckpointAfter(c: Option<string>, e: Event): Option<string> {
    if e.kind == NodeCompleted && e.payload.checkpointId != "" then Some(e.payload.checkpointId) else c
  }

  /** applyEvent on the whole hook. */
  function Apply(h: Hook, e: Event): Hook {
    if Seen(h.state, e) then h
    else h.(state := Dispatched(Recorded(h.state, e), e), checkpoint := CheckpointAfter(h.checkpoint, e))
  }

  function ApplyAll(h: Hook, es: seq<Event>): Hook {
    if es == [] then h else Apply(ApplyAll(h, es[..|es| - 1]), es[|es| - 1])
  }

  // Everything that can happen to the hook

  /** A partial record: the fields that are given replace the runtime envelope's. */
  datatype Runtime = Runtime(taskId: Option<Option<string>>, executionId: Option<Option<string>>,
                             availableActions: Option<seq<string>>, pointsSummary: Option<Option<PointsSummary>>)

  datatype Step =
    | Dialled
    | Fired(timer: nat)
    | Opened(socket: nat)
    | Delivered(event: Event)
    | Failed(socket: nat)
    | Closed(socket: nat)
    | Disconnected
    | Submitted(sessionId: string, content: string, sequenceNo: int)
    | AskedReplay(sessionId: string, given: string)
    | Hydrated(runtime: Runtime)

  // Sockets and timers

  predicate In(w: Wires, socket: nat, state: SocketState) { socket < |w.sockets| && w.sockets[socket] == state }

  /** The reference holds an open socket. */
  predicate IsOpen(w: Wires) { w.held.Some? && In(w, w.held.value, Open) }

  /** connect: a new socket, unless the held one is open. */
  function Dial(w: Wires): Wires {
    if IsOpen(w) then w else w.(sockets := w.sockets + [Connecting], held := Some(|w.sockets|))
  }

  function Fire(w: Wires, timer: nat): Wires {
    if timer in w.pending then Dial(w.(pending := w.pending - {timer})) else w
  }

  function OpenUp(w: Wires, socket: nat): Wires {
    if In(w, socket, Connecting) then w.(sockets := w.sockets[socket := Open], attempts := 0) else w
  }

  /** close() on a socket: nothing once it is closing or gone. */
  function StartClosing(w: Wires, socket: nat): Wires {
    if In(w, socket, Connecting) || In(w, socket, Open) then w.(sockets := w.sockets[socket := Closing]) else w
  }

  /** The socket still has its close event to come. */
  predicate MayClose(w: Wires, socket: nat) { socket < |w.sockets| && w.sockets[socket] != Gone }

  /** onclose: the reference is dropped, whichever socket it held, and a timer is set while attempts are left. */
  function CloseDown(w: Wires, socket: nat): Wires {
    if !MayClose(w, socket) then w
    else
      var w := w.(sockets := w.sockets[socket := Gone], held := None);
      if w.attempts < |BACKOFF| then
        w.(attempts := w.attempts + 1, timers := w.timers + [BACKOFF[w.attempts]],
           pending := w.pending + {|w.timers|}, timerRef := Some(|w.timers|))
      else w
  }

  function AsSet(t: Option<nat>): set<nat> { if t.Some? then {t.value} else {} }

  /** disconnect: the referenced timer is cleared, and the held socket told to close. */
  function Unplug(w: Wires): Wires {
    var w := w.(pending := w.pending - AsSet(w.timerRef), timerRef := None);
    (if w.held.Some? then StartClosing(w, w.held.value) else w).(held := None)
  }

  /** The largest sequence number seen, which asks the server for what comes after it. */
  function MaxSeen(seen: seq<int>): (m: Option<int>)
    ensures m.None? <==> seen == []
    ensures m.Some? ==> m.value in seen && forall x :: x in seen ==> x <= m.value
  {
    if seen == [] then None
    else
      var rest := MaxSeen(seen[1..]);
      assert forall x :: x in seen ==> x == seen[0] || x in seen[1..];
      if rest.Some? && rest.value > seen[0] then rest else Some(seen[0])
  }

  function Send(h: Hook, m: Message): Hook {
    if IsOpen(h.wires) then h.(sent := h.sent + [m]) else h
  }

  /** A step that cannot happen in this state changes nothing. */
  function Next(h: Hook, step: Step): Hook {
    match step
    case Dialled => h.(wires := Dial(h.wires))
    case Fired(t) => h.(wires := Fire(h.wires, t))
    case Opened(socket) =>
      if !In(h.wires, socket, Connecting) then h
      else
        var h := h.(state := h.state.(connected := true, reconnecting := false, reconnectAttempt := 0, error := None),
                    wires := OpenUp(h.wires, socket));
        if Or(h.checkpoint, "") != "" then h.(sent := h.sent + [ReconnectMessage("", h.checkpoint, None)]) else h
    case Delivered(e) => Apply(h, e)
    case Failed(socket) => h.(wires := StartClosing(h.wires, socket))
    case Closed(socket) =>
      if !MayClose(h.wires, socket) then h
      else
        var wires, retries := CloseDown(h.wires, socket), h.wires.attempts < MAX_RECONNECT_ATTEMPTS;
        h.(wires := wires,
           state := h.state.(connected := false, reconnecting := retries || h.state.reconnecting,
                             reconnectAttempt := if retries then wires.attempts else h.state.reconnectAttempt))
    case Disconnected =>
      h.(state := h.state.(connected := false, reconnecting := false), wires := Unplug(h.wires))
    case Submitted(id, content, n) =>
      Send(h.(state := h.state.(turnPhase := Scoring, streamingText := "")), AnswerMessage(id, content, n))
    case AskedReplay(id, given) =>
      Send(h, ReconnectMessage(id, if given != "" then Some(given) else h.checkpoint, MaxSeen(h.state.seenSequences)))
    case Hydrated(r) =>
      h.(state := h.state.(taskId := Or(r.taskId, h.state.taskId),
                           executionId := Or(r.executionId, h.state.executionId),
                           availableActions := Or(r.availableActions, h.state.availableActions),
                           pointsSummary := Or(r.pointsSummary, h.state.pointsSummary)))
  }

  function Run(h: Hook, steps: seq<Step>): Hook {
    if steps == [] then h else Next(Run(h, steps[..|steps| - 1]), steps[|steps| - 1])
  }

  // The hook as it is written: refs and state overwritten in place

  class InterviewWs {
    var state: WsState
    var lastCheckpoint: Option<string>
    var sockets: seq<SocketState>
    var socketRef: Option<nat>
    var reconnectCount: nat
    var timers: seq<nat>
    var pending: set<nat>
    var timerRef: Option<nat>
    var sent: seq<Message>

    constructor (totalQuestions: nat)
      ensures View() == InitialHook(totalQuestions)
    {
      state := InitialState(totalQuestions);
      lastCheckpoint, reconnectCount, sent := None, 0, [];
      sockets, socketRef := [], None;
      timers, pending, timerRef := [], {}, None;
    }

    ghost function View(): Hook
      reads this
    {
      Hook(state, lastCheckpoint, Wires(sockets, socketRef, reconnectCount, timers, pending, timerRef), sent)
    }

    /** The socket reference holds a socket whose ready state is open. */
    predicate HoldsOpenSocket()
      reads this
      ensures HoldsOpenSocket() <==> IsOpen(View().wires)
    {
      socketRef.Some? && socketRef.value < |sockets| && sockets[socketRef.value] == Open
    }

    /** close() on a socket. */
    method CloseSocket(socket: nat)
      modifies this`sockets
      ensures View() == old(View()).(wires := StartClosing(old(View()).wires, socket))
    {
      if socket < |sockets| && (sockets[socket] == Connecting || sockets[socket] == Open) {
        sockets := sockets[socket := Closing];
      }
    }

    /** The switch of applyEvent; the mock branch of connect has the same cases but for token.delta. */
    method RunSwitch(draft: WsState, e: Event) returns (next: WsState)
      modifies this`lastCheckpoint
      ensures next == Switched(draft, e)
      ensures lastCheckpoint == CheckpointAfter(old(lastCheckpoint), e)
    {
      next := draft;
      match e.kind {
        case NodeStarted =>
          next := next.(currentNode := Some(e.node));
          if e.payload.currentQuestion.Some? {
            next := next.(currentQuestion := e.payload.currentQuestion.value);
          }
          if e.node == "question_gen" {
            next := next.(streamingText := "");
          }
        case TokenDelta =>
          next := next.(streamingText := draft.streamingText + e.payload.content);
        case NodeCompleted =>
          next := next.(lastCheckpointId := NonEmpty(e.payload.checkpointId));
          if e.payload.checkpointId != "" {
            lastCheckpoint := Some(e.payload.checkpointId);
          }
          if HasOverallScore(e.payload) {
            next := next.(currentNode := Some("completed"));
          }
        case ErrorEvent =>
          next := next.(error := Some(e), turnPhase := Idle);
        case _ =>
      }
    }

    method ApplyEvent(e: Event)
      modifies this
      ensures View() == Apply(old(View()), e)
    {
      if e.sequence.Some? && e.sequence.value in state.seenSequences {
        return;
      }
      var next := Recorded(state, e);
      var phase := TurnPhaseFor(e, next);
      if phase.Some? {
        next := next.(turnPhase := phase.value);
      }
      assert next == WithPhase(Recorded(state, e), e);
      if e.kind == RoundScore || e.kind == ScoreDelivered {
        next := next.(turnPhase := AwaitingQuestion, currentNode := Some("score"));
      }
      if e.kind == NextQuestion {
        next := next.(turnPhase := Idle);
        if e.payload.own.questionNo.Some? {
          next := next.(currentQuestion := e.payload.own.questionNo.value);
        }
      }
      assert next == ScoreFirst(WithPhase(Recorded(state, e), e), e);
      next := RunSwitch(next, e);
      state := next;
    }

    /** connect in mock mode: one batched update that walks the whole mock stream. */
    method ConnectMock(events: seq<Event>)
      modifies this
      ensures View() == MockConnected(old(View()), events)
    {
      ghost var start := Opening(View(), events);
      var next := state.(connected := true, error := None, events := state.events + events);
      for i := 0 to |events|
        modifies this`lastCheckpoint
        invariant View().(state := next) == MockWalk(start, events[..i])
      {
        var e := events[i];
        assert events[..i + 1][..i] == events[..i];
        var phase := TurnPhaseFor(e, next);
        if phase.Some? {
          next := next.(turnPhase := phase.value);
        }
        if e.kind != TokenDelta {
          next := RunSwitch(next, e);
        }
      }
      assert events[..|events|] == events;
      state := next;
    }

    /** connect outside mock mode. */
    method Connect()
      modifies this
      ensures View() == Next(old(View()), Dialled)
    {
      if HoldsOpenSocket() {
        return;
      }
      socketRef := Some(|sockets|);
      sockets := sockets + [Connecting];
    }

    /** A reconnect timer that was not cleared runs connect. */
    method OnTimer(timer: nat)
      requires timer in pending
      modifies this
      ensures View() == Next(old(View()), Fired(timer))
    {
      pending := pending - {timer};
      Connect();
    }

    method OnOpen(socket: nat)
      requires socket < |sockets| && sockets[socket] == Connecting
      modifies this
      ensures View() == Next(old(View()), Opened(socket))
    {
      sockets := sockets[socket := Open];
      state := state.(connected := true, reconnecting := false, reconnectAttempt := 0, error := None);
      reconnectCount := 0;
      if lastCheckpoint.Some? && lastCheckpoint.value != "" {
        sent := sent + [ReconnectMessage("", lastCheckpoint, None)];
      }
    }

    method OnError(socket: nat)
      modifies this
      ensures View() == Next(old(View()), Failed(socket))
    {
      CloseSocket(socket);
    }

    method OnClose(socket: nat)
      requires socket < |sockets| && sockets[socket] != Gone
      modifies this
      ensures View() == Next(old(View()), Closed(socket))
    {
      sockets := sockets[socket := Gone];
      state := state.(connected := false);
      socketRef := None;
      if reconnectCount < MAX_RECONNECT_ATTEMPTS {
        var delay := BACKOFF[reconnectCount];
        reconnectCount := reconnectCount + 1;
        state := state.(reconnecting := true, reconnectAttempt := reconnectCount);
        timerRef := Some(|timers|);
        pending := pending + {|timers|};
        timers := timers + [delay];
      }
    }

    /** The timer reference ends up with a constant that is no timer of this hook. */
    method Disconnect()
      modifies this
      ensures View() == Next(old(View()), Disconnected)
    {
      if timerRef.Some? {
        pending := pending - {timerRef.value};
      }
      timerRef := None;
      if socketRef.Some? {
        CloseSocket(socketRef.value);
      }
      socketRef := None;
      state := state.(connected := false, reconnecting := false);
    }

    method SubmitAnswer(sessionId: string, content: string, sequenceNo: int)
      modifies this
      ensures View() == Next(old(View()), Submitted(sessionId, content, sequenceNo))
    {
      state := state.(turnPhase := Scoring, streamingText := "");
      if HoldsOpenSocket() {
        sent := sent + [AnswerMessage(sessionId, content, sequenceNo)];
      }
    }

    method Reconnect(sessionId: string, lastCheckpointId: string)
      modifies this
      ensures View() == Next(old(View()), AskedReplay(sessionId, lastCheckpointId))
    {
      if HoldsOpenSocket() {
        var lastSeen := if lastCheckpointId != "" then Some(lastCheckpointId) else lastCheckpoint;
        sent := sent + [ReconnectMessage(sessionId, lastSeen, MaxSeen(state.seenSequences))];
      }
    }

    method HydrateRuntime(r: Runtime)
      modifies this
      ensures View() == Next(old(View()), Hydrated(r))
    {
      state := state.(taskId := Or(r.taskId, state.taskId), executionId := Or(r.executionId, state.executionId),
                      availableActions := Or(r.availableActions, state.availableActions),
                      pointsSummary := Or(r.pointsSummary, state.pointsSummary));
    }
  }

  // The mock stream

  /** connect's first update: connected, and all events appended at once. */
  function Opening(h: Hook, events: seq<Event>): Hook {
    h.(state := h.state.(connected := true, error := None, events := h.state.events + events))
  }

  /** One turn of connect's loop: no dedupe, no recording, no score-first step, no token deltas. */
  function MockStep(h: Hook, e: Event): Hook {
    var s := WithPhase(h.state, e);
    h.(state := if e.kind == TokenDelta then s else Switched(s, e), checkpoint := CheckpointAfter(h.checkpoint, e))
  }

  function MockWalk(h: Hook, events: seq<Event>): Hook {
    if events == [] then h else MockStep(MockWalk(h, events[..|events| - 1]), events[|events| - 1])
  }

  function MockConnected(h: Hook, events: seq<Event>): Hook {
    MockWalk(Opening(h, events), events)
  }

  /** The events buildMockEvents makes: unsequenced, of three kinds, without runtime fields. */
  predicate IsMockEvent(e: Event) {
    (e.kind == NodeStarted || e.kind == NodeCompleted || e.kind == ErrorEvent) &&
    e.sequence.None? && e.payload.taskId == "" && e.payload.executionId == "" &&
    e.payload.availableActions.None? && e.payload.pointsSummary.None?
  }

  function WithEvents(h: Hook, events: seq<Event>): Hook {
    h.(state := h.state.(events := events))
  }

  /** On a mock event one turn of the loop does what applyEvent does, but for the event list. */
  lemma MockStepMatches(h: Hook, e: Event, all: seq<Event>)
    requires IsMockEvent(e)
    ensures MockStep(WithEvents(h, all), e) == WithEvents(Apply(h, e), all)
    ensures Apply(h, e).state.events == h.state.events + [e]
  {
  }

  lemma {:induction false} MockWalkMatches(h: Hook, events: seq<Event>, all: seq<Event>)
    requires forall i :: 0 <= i < |events| ==> IsMockEvent(events[i])
    ensures MockWalk(WithEvents(h, all), events) == WithEvents(ApplyAll(h, events), all)
    ensures ApplyAll(h, events).state.events == h.state.events + events
  {
    if events != [] {
      var earlier, e := events[..|events| - 1], events[|events| - 1];
      MockWalkMatches(h, earlier, all);
      MockStepMatches(ApplyAll(h, earlier), e, all);
      AppendLast(h.state.events, events);
    }
  }

  /** The one-shot mock update equals applying applyEvent to each event of the stream in turn. */
  lemma {:induction false} MockConnectRefinesReducer(h: Hook, events: seq<Event>)
    requires forall i :: 0 <= i < |events| ==> IsMockEvent(events[i])
    ensures MockConnected(h, events) == ApplyAll(h.(state := h.state.(connected := true, error := None)), events)
  {
    var start := h.(state := h.state.(connected := true, error := None));
    MockWalkMatches(start, events, h.state.events + events);
  }
}

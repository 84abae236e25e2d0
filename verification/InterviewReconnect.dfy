/**
  * The reconnect protocol of src/hooks/useInterviewWS.ts: sockets, timers and attempts over whole runs,
  * whatever the events, answers and replay requests in between.
  */
module InterviewReconnect {
  import opened Lists
  import opened Options
  import opened InterviewSocket

  /** A step as sockets and timers see it: nothing else in the hook matters to them. */
  function WiresNext(w: Wires, step: Step): Wires {
    match step
    case Dialled => Dial(w)
    case Fired(t) => Fire(w, t)
    case Opened(socket) => OpenUp(w, socket)
    case Failed(socket) => StartClosing(w, socket)
    case Closed(socket) => CloseDown(w, socket)
    case Disconnected => Unplug(w)
    case _ => w
  }

  function WiresRun(w: Wires, steps: seq<Step>): Wires {
    if steps == [] then w else WiresNext(WiresRun(w, steps[..|steps| - 1]), steps[|steps| - 1])
  }

  lemma NextWires(h: Hook, step: Step)
    ensures Next(h, step).wires == WiresNext(h.wires, step)
  {
  }

  lemma {:induction false} RunWires(h: Hook, steps: seq<Step>)
    ensures Run(h, steps).wires == WiresRun(h.wires, steps)
  {
    if steps != [] {
      RunWires(h, steps[..|steps| - 1]);
      NextWires(Run(h, steps[..|steps| - 1]), steps[|steps| - 1]);
    }
  }

  lemma WiresRunLast(w: Wires, steps: seq<Step>, step: Step)
    ensures WiresRun(w, steps + [step]) == WiresNext(WiresRun(w, steps), step)
  {
    assert (steps + [step])[..|steps|] == steps;
  }

  // Backoff

  /** How many sockets of the run closed. */
  function Closes(w: Wires, steps: seq<Step>): (n: nat)
    ensures n <= |steps|
  {
    if steps == [] then 0
    else
      var step := steps[|steps| - 1];
      Closes(w, steps[..|steps| - 1]) +
      if step.Closed? && MayClose(WiresRun(w, steps[..|steps| - 1]), step.socket) then 1 else 0
  }

  function AtMostFive(n: nat): nat { if n < |BACKOFF| then n else |BACKOFF| }

  lemma {:induction false} BackoffOfWires(w: Wires, steps: seq<Step>)
    requires w.attempts == 0 && forall i :: 0 <= i < |steps| ==> !steps[i].Opened?
    ensures var w' := WiresRun(w, steps);
      w'.timers == w.timers + BACKOFF[..AtMostFive(Closes(w, steps))] && w'.attempts == AtMostFive(Closes(w, steps))
  {
    if steps == [] {
      assert w.timers + BACKOFF[..0] == w.timers;
    } else {
      var earlier, step := steps[..|steps| - 1], steps[|steps| - 1];
      var n := AtMostFive(Closes(w, earlier));
      BackoffOfWires(w, earlier);
      OnlyClosesSetTimers(WiresRun(w, earlier), step);
      if n < |BACKOFF| {
        assert BACKOFF[..n + 1] == BACKOFF[..n] + [BACKOFF[n]];
        ConcatAssoc(w.timers, BACKOFF[..n], [BACKOFF[n]]);
      }
    }
  }

  lemma OnlyClosesSetTimers(w: Wires, step: Step)
    requires !step.Opened?
    ensures var w', sets := WiresNext(w, step), step.Closed? && MayClose(w, step.socket) && w.attempts < |BACKOFF|;
      w'.timers == (if sets then w.timers + [BACKOFF[w.attempts]] else w.timers) &&
      w'.attempts == if sets then w.attempts + 1 else w.attempts
  {
  }

  /**
    * Between two opens the timers set are the first of these delays, one a close and five at most, and
    * disconnecting in between makes no difference to that.
    */
  lemma {:induction false} BackoffSinceOpen(h: Hook, steps: seq<Step>)
    requires h.wires.attempts == 0 && forall i :: 0 <= i < |steps| ==> !steps[i].Opened?
    ensures var w, n := Run(h, steps).wires, if Closes(h.wires, steps) < 5 then Closes(h.wires, steps) else 5;
      w.timers == h.wires.timers + [1000, 2000, 4000, 8000, 16000][..n] && w.attempts == n
  {
    RunWires(h, steps);
    BackoffOfWires(h.wires, steps);
  }

  // Timers

  /** Step i is a close that sets timer t. */
  predicate SetsAt(w: Wires, steps: seq<Step>, i: nat, t: nat) {
    i < |steps| && steps[i].Closed? &&
    var before := WiresRun(w, steps[..i]);
    MayClose(before, steps[i].socket) && before.attempts < |BACKOFF| && t == |before.timers|
  }

  /** Step i stops timer t: it fires, or a disconnect clears it while the reference holds it. */
  predicate StopsAt(w: Wires, steps: seq<Step>, i: nat, t: nat) {
    i < |steps| &&
    (steps[i] == Fired(t) || (steps[i].Disconnected? && WiresRun(w, steps[..i]).timerRef == Some(t)))
  }

  ghost predicate Runs(w: Wires, steps: seq<Step>, t: nat) {
    exists i: nat :: SetsAt(w, steps, i, t) && forall j :: i < j < |steps| ==> !StopsAt(w, steps, j, t)
  }

  lemma EarlierTimers(w: Wires, steps: seq<Step>, i: nat, t: nat)
    requires steps != [] && i < |steps| - 1
    ensures SetsAt(w, steps[..|steps| - 1], i, t) <==> SetsAt(w, steps, i, t)
    ensures StopsAt(w, steps[..|steps| - 1], i, t) <==> StopsAt(w, steps, i, t)
  {
    assert steps[..|steps| - 1][..i] == steps[..i];
  }

  lemma RunsLater(w: Wires, steps: seq<Step>, t: nat)
    requires steps != [] && Runs(w, steps[..|steps| - 1], t) && !StopsAt(w, steps, |steps| - 1, t)
    ensures Runs(w, steps, t)
  {
    var n := |steps| - 1;
    var i: nat :| SetsAt(w, steps[..n], i, t) && forall j :: i < j < n ==> !StopsAt(w, steps[..n], j, t);
    EarlierTimers(w, steps, i, t);
    forall j | i < j < |steps| ensures !StopsAt(w, steps, j, t) {
      if j < n {
        EarlierTimers(w, steps, j, t);
      }
    }
  }

  lemma RanEarlier(w: Wires, steps: seq<Step>, t: nat)
    requires steps != [] && Runs(w, steps, t) && !SetsAt(w, steps, |steps| - 1, t)
    ensures Runs(w, steps[..|steps| - 1], t) && !StopsAt(w, steps, |steps| - 1, t)
  {
    var n := |steps| - 1;
    var i: nat :| SetsAt(w, steps, i, t) && forall j :: i < j < |steps| ==> !StopsAt(w, steps, j, t);
    EarlierTimers(w, steps, i, t);
    forall j | i < j < n ensures !StopsAt(w, steps[..n], j, t) {
      EarlierTimers(w, steps, j, t);
    }
  }

  lemma PendingNext(w: Wires, step: Step, t: nat)
    requires forall p :: p in w.pending ==> p < |w.timers|
    ensures forall p :: p in WiresNext(w, step).pending ==> p < |WiresNext(w, step).timers|
    ensures t in WiresNext(w, step).pending <==>
            (step.Closed? && MayClose(w, step.socket) && w.attempts < |BACKOFF| && t == |w.timers|) ||
            (t in w.pending && step != Fired(t) && !(step.Disconnected? && w.timerRef == Some(t)))
  {
  }

  /** A timer runs exactly from the close that sets it until it fires, once, or a disconnect clears it. */
  lemma {:induction false} RunningIff(w: Wires, steps: seq<Step>, t: nat)
    requires w.pending == {}
    ensures t in WiresRun(w, steps).pending <==> Runs(w, steps, t)
    ensures forall p :: p in WiresRun(w, steps).pending ==> p < |WiresRun(w, steps).timers|
  {
    if steps != [] {
      RunningIff(w, steps[..|steps| - 1], t);
      PendingNext(WiresRun(w, steps[..|steps| - 1]), steps[|steps| - 1], t);
      if t in WiresRun(w, steps).pending && !SetsAt(w, steps, |steps| - 1, t) {
        RunsLater(w, steps, t);
      }
      if Runs(w, steps, t) && !SetsAt(w, steps, |steps| - 1, t) {
        RanEarlier(w, steps, t);
      }
    }
  }

  /** The timer that the last close to set one set, unless somebody disconnected since. */
  function LatestTimer(w: Wires, steps: seq<Step>): Option<nat> {
    if steps == [] then w.timerRef
    else
      var n := |steps| - 1;
      if SetsAt(w, steps, n, |WiresRun(w, steps[..n]).timers|) then Some(|WiresRun(w, steps[..n]).timers|)
      else if steps[n].Disconnected? then None
      else LatestTimer(w, steps[..n])
  }

  lemma {:induction false} ReferenceIsLatest(w: Wires, steps: seq<Step>)
    ensures WiresRun(w, steps).timerRef == LatestTimer(w, steps)
  {
    if steps != [] {
      ReferenceIsLatest(w, steps[..|steps| - 1]);
      ReferenceNext(WiresRun(w, steps[..|steps| - 1]), steps[|steps| - 1]);
    }
  }

  lemma ReferenceNext(w: Wires, step: Step)
    ensures WiresNext(w, step).timerRef ==
            if step.Closed? && MayClose(w, step.socket) && w.attempts < |BACKOFF| then Some(|w.timers|)
            else if step.Disconnected? then None
            else w.timerRef
  {
  }

  // Reconnecting on its own

  /** Step i of the run is a timer that fires while no open socket is held, and so dials. */
  predicate RedialsAt(w: Wires, steps: seq<Step>, i: nat) {
    i < |steps| && steps[i].Fired? &&
    var before := WiresRun(w, steps[..i]);
    steps[i].timer in before.pending && !IsOpen(before)
  }

  /** Such a step makes a socket. */
  lemma RedialMakesASocket(w: Wires, steps: seq<Step>, i: nat)
    requires RedialsAt(w, steps, i)
    ensures |WiresNext(WiresRun(w, steps[..i]), steps[i]).sockets| == |WiresRun(w, steps[..i]).sockets| + 1
  {
  }

  /** Some run without a call of connect still comes to a timer that dials. */
  ghost predicate Redials(w: Wires) {
    exists steps: seq<Step>, i: nat :: (forall j :: 0 <= j < |steps| ==> !steps[j].Dialled?) && RedialsAt(w, steps, i)
  }

  /** A timer is running; or a socket may still open, and then close; or one may close with an attempt left. */
  ghost predicate CanRedial(w: Wires) {
    w.pending != {} || (exists s: nat :: In(w, s, Connecting)) ||
    (w.attempts < |BACKOFF| && exists s: nat :: MayClose(w, s))
  }

  lemma StaysStill(w: Wires, step: Step)
    requires !CanRedial(w) && !step.Dialled?
    ensures !CanRedial(WiresNext(w, step))
  {
    var w' := WiresNext(w, step);
    assert w'.pending == {} && (w.attempts < |BACKOFF| ==> w' == w.(held := w'.held, timerRef := w'.timerRef)) by {
      match step
      case Opened(s) => assert !In(w, s, Connecting);
      case Failed(s) => assert !In(w, s, Connecting) && (w.attempts < |BACKOFF| ==> !MayClose(w, s));
      case Closed(s) => assert w.attempts < |BACKOFF| ==> !MayClose(w, s);
      case Disconnected =>
        if w.held.Some? {
          assert !In(w, w.held.value, Connecting) && (w.attempts < |BACKOFF| ==> !MayClose(w, w.held.value));
        }
      case _ =>
    }
    forall s: nat ensures !In(w', s, Connecting) {
      assert !In(w, s, Connecting);
    }
    forall s: nat ensures w'.attempts < |BACKOFF| ==> !MayClose(w', s) {
      assert w.attempts < |BACKOFF| ==> !MayClose(w, s);
    }
  }

  lemma {:induction false} StaysStillOver(w: Wires, steps: seq<Step>)
    requires !CanRedial(w) && forall j :: 0 <= j < |steps| ==> !steps[j].Dialled?
    ensures !CanRedial(WiresRun(w, steps))
  {
    if steps != [] {
      StaysStillOver(w, steps[..|steps| - 1]);
      StaysStill(WiresRun(w, steps[..|steps| - 1]), steps[|steps| - 1]);
    }
  }

  lemma FiresNext(w: Wires, before: seq<Step>, timer: nat)
    requires forall j :: 0 <= j < |before| ==> !before[j].Dialled?
    requires timer in WiresRun(w, before).pending && !IsOpen(WiresRun(w, before))
    ensures Redials(w)
  {
    var steps := before + [Fired(timer)];
    assert steps[..|before|] == before;
    assert RedialsAt(w, steps, |before|);
  }

  /** A timer that runs while an open socket is held dials once that socket has closed. */
  lemma PendingRedials(w: Wires, timer: nat)
    requires timer in w.pending
    ensures Redials(w)
  {
    if IsOpen(w) {
      WiresRunLast(w, [], Closed(w.held.value));
      EmptyFirst([Closed(w.held.value)]);
      FiresNext(w, [Closed(w.held.value)], timer);
    } else {
      FiresNext(w, [], timer);
    }
  }

  lemma ClosesThenFires(w: Wires, before: seq<Step>, s: nat)
    requires forall j :: 0 <= j < |before| ==> !before[j].Dialled?
    requires MayClose(WiresRun(w, before), s) && WiresRun(w, before).attempts < |BACKOFF|
    ensures Redials(w)
  {
    WiresRunLast(w, before, Closed(s));
    FiresNext(w, before + [Closed(s)], |WiresRun(w, before).timers|);
  }

  /** In any state a hook reconnects on its own at some time, or cannot, exactly by that condition. */
  lemma {:induction false} RedialsIff(w: Wires)
    ensures Redials(w) <==> CanRedial(w)
  {
    if CanRedial(w) {
      if w.pending != {} {
        var t :| t in w.pending;
        PendingRedials(w, t);
      } else if s: nat :| In(w, s, Connecting) {
        WiresRunLast(w, [], Opened(s));
        EmptyFirst([Opened(s)]);
        ClosesThenFires(w, [Opened(s)], s);
      } else {
        var s: nat :| MayClose(w, s);
        ClosesThenFires(w, [], s);
      }
    } else if Redials(w) {
      var steps: seq<Step>, i: nat :| (forall j :: 0 <= j < |steps| ==> !steps[j].Dialled?) && RedialsAt(w, steps, i);
      StaysStillOver(w, steps[..i]);
    }
  }

  /** What disconnect leaves running, told from the state before it. */
  ghost predicate StillWired(w: Wires) {
    w.pending - AsSet(w.timerRef) != {} || (exists s: nat :: In(w, s, Connecting) && w.held != Some(s)) ||
    (w.attempts < |BACKOFF| && exists s: nat :: MayClose(w, s))
  }

  lemma UnpluggedSockets(w: Wires, s: nat)
    ensures In(Unplug(w), s, Connecting) <==> In(w, s, Connecting) && w.held != Some(s)
    ensures MayClose(Unplug(w), s) <==> MayClose(w, s)
  {
  }

  lemma {:induction false} UnplugRedialsIff(w: Wires)
    ensures Redials(Unplug(w)) <==> StillWired(w)
  {
    RedialsIff(Unplug(w));
    forall s: nat
      ensures In(Unplug(w), s, Connecting) <==> In(w, s, Connecting) && w.held != Some(s)
      ensures MayClose(Unplug(w), s) <==> MayClose(w, s)
    {
      UnpluggedSockets(w, s);
    }
  }

  lemma WiresAfterDisconnect(total: nat, steps: seq<Step>)
    ensures Run(InitialHook(total), steps + [Disconnected]).wires == Unplug(Run(InitialHook(total), steps).wires)
  {
    var h := InitialHook(total);
    RunWires(h, steps);
    RunWires(h, steps + [Disconnected]);
    WiresRunLast(h.wires, steps, Disconnected);
  }

  /**
    * After any run, disconnect leaves a hook that can still reconnect on its own if and only if, before
    * the call, a timer other than the referenced one was running, or a socket other than the held one was
    * connecting, or some socket had its close event to come with attempts left.
    */
  lemma {:induction false} DisconnectStillReconnectsIff(total: nat, steps: seq<Step>)
    ensures Redials(Run(InitialHook(total), steps + [Disconnected]).wires) <==>
            StillWired(Run(InitialHook(total), steps).wires)
  {
    WiresAfterDisconnect(total, steps);
    UnplugRedialsIff(Run(InitialHook(total), steps).wires);
  }

  lemma {:induction false} OpenThenDisconnect(w: Wires)
    requires w == UNWIRED
    ensures CanRedial(Unplug(OpenUp(Dial(w), 0)))
  {
    var v := Unplug(OpenUp(Dial(w), 0));
    assert v.sockets == [Closing];
    assert MayClose(v, 0);
  }

  /** The plainest run of all shows it: connect, open, disconnect. */
  lemma {:induction false} DisconnectMayReconnect(total: nat)
    ensures Redials(Run(InitialHook(total), [Dialled] + [Opened(0)] + [Disconnected]).wires)
  {
    var h := InitialHook(total);
    RunWires(h, [Dialled] + [Opened(0)] + [Disconnected]);
    WiresRunLast(UNWIRED, [], Dialled);
    EmptyFirst([Dialled]);
    WiresRunLast(UNWIRED, [Dialled], Opened(0));
    WiresRunLast(UNWIRED, [Dialled] + [Opened(0)], Disconnected);
    OpenThenDisconnect(UNWIRED);
    RedialsIff(Unplug(OpenUp(Dial(UNWIRED), 0)));
  }

  /** For the usual hook, with one live socket and one running timer at most, both referenced. */
  lemma {:induction false} LoneDisconnectIff(total: nat, steps: seq<Step>)
    requires var w := Run(InitialHook(total), steps).wires;
      w.pending <= AsSet(w.timerRef) && forall s: nat :: MayClose(w, s) ==> w.held == Some(s)
    ensures var w := Run(InitialHook(total), steps).wires;
      Redials(Run(InitialHook(total), steps + [Disconnected]).wires) <==>
      w.attempts < |BACKOFF| && w.held.Some? && MayClose(w, w.held.value)
  {
    DisconnectStillReconnectsIff(total, steps);
  }
}

/**
  * src/api/client.ts as it is written: the retry loop of request, over the token storage it changes
  * in place. With no other request under way it takes exactly the steps of the AuthFlow machine.
  */
module ApiClient {
  import opened Options
  import opened TokenStorage
  import opened AuthFlow
  import AuthRequests
  import opened AuthReplies

  /** The caller's arguments, and what the n-th fetch, the n-th refresh POST and the n-th jitter give. */
  datatype World = World(verb: Method, skipAuth: bool, given: Option<string>, server: nat -> Response,
                         refreshes: nat -> RefreshReply, jitter: nat -> nat)

  /** The only step a lone request can take next: nothing once it is done. */
  function Due(w: World, c: Client): Option<Step> {
    if c.requests == [] then Some(Start(w.verb, w.skipAuth, w.given))
    else
      var q := c.requests[0];
      match q.phase
      case Sent => if q.fetches == 0 then None else Some(Answered(0, w.server(q.fetches - 1), w.jitter(q.attempt)))
      case BackingOff => Some(BackoffOver(0))
      case Refreshing(f, reply) =>
        if f < |c.posts| && c.posts[f].verdict.None? then Some(RefreshSettled(w.refreshes(f))) else Some(Resumed(0))
      case Denied(reply) => Some(BodyRead(0))
      case Done(outcome) => None
  }

  /** Every step of the run was the one due, so the run is the lone request's. */
  ghost predicate Alone(w: World, start: Client, steps: seq<Step>) {
    forall i :: 0 <= i < |steps| ==> Due(w, Run(start, steps[..i])) == Some(steps[i])
  }

  /** The run of a lone request so far, and where it has got to. */
  ghost predicate Ran(w: World, start: Client, steps: seq<Step>, c: Client) {
    Alone(w, start, steps) && c == Run(start, steps)
  }

  lemma {:induction false} TakeStep(w: World, start: Client, steps: seq<Step>, c: Client, step: Step)
    requires Ran(w, start, steps, c) && Due(w, c) == Some(step)
    ensures Ran(w, start, steps + [step], Next(c, step))
  {
    RunLast(start, steps, step);
    forall i | 0 <= i < |steps + [step]|
      ensures Due(w, Run(start, (steps + [step])[..i])) == Some((steps + [step])[i])
    {
      assert (steps + [step])[..i] == steps[..i];
      assert i == |steps| ==> steps[..i] == steps;
    }
  }

  /** The loop's variables: how many fetches were answered, how many refreshes sent, how long it waited. */
  datatype Loop = Loop(hadAuth: bool, header: Option<string>, attempt: nat, sent: nat, asked: nat, waited: nat)

  /** The machine's one request, when the loop stands at the fetch. */
  predicate AtFetch(w: World, c: Client, l: Loop) {
    |c.requests| == 1 && c.flight == None && |c.posts| == l.asked && l.attempt <= 2 &&
    var q := c.requests[0];
    q.verb == w.verb && q.phase == Sent && q.hadAuth == l.hadAuth && q.header == l.header && q.attempt == l.attempt &&
    q.fetches == l.sent + 1 && q.backoff == l.waited
  }

  predicate AtDenied(c: Client, reply: Response, l: Loop) {
    |c.requests| == 1 && c.flight == None && c.requests[0].phase == Denied(reply) &&
    c.requests[0].fetches == l.sent + 1 && c.requests[0].backoff == l.waited
  }

  /** The flight a 401 starts, before and after its verdict. */
  predicate AtVerdict(w: World, c: Client, l: Loop, verdict: Option<bool>) {
    |c.requests| == 1 && |c.posts| == l.asked + 1 && c.posts[l.asked].verdict == verdict && l.attempt <= 2 &&
    c.flight == (if verdict.None? then Some(l.asked) else None) &&
    var q := c.requests[0];
    q.verb == w.verb && q.phase == Refreshing(l.asked, w.server(l.sent)) && q.hadAuth == l.hadAuth &&
    q.header == l.header && q.attempt == l.attempt && q.fetches == l.sent + 1 && q.backoff == l.waited
  }

  predicate Finished(c: Client, outcome: Outcome, sent: nat, waited: nat) {
    |c.requests| == 1 && c.flight == None && c.requests[0].phase == Done(outcome) && c.requests[0].fetches == sent &&
    c.requests[0].backoff == waited
  }

  predicate Tokens(c: Client, tab: Tab, mirror: Option<string>) { c.tab == tab && c.mirror == mirror }

  predicate Rejected(l: Loop, reply: Response) { reply.Reply? && reply.status == 401 && l.hadAuth }

  predicate Retried(w: World, l: Loop, reply: Response) {
    !Rejected(l, reply) && reply.Reply? && reply.status >= 500 && w.verb == Get && l.attempt < 2
  }

  function Answer(w: World, l: Loop): Step { Answered(0, w.server(l.sent), w.jitter(l.attempt)) }

  function AfterRetry(w: World, l: Loop): Loop {
    l.(attempt := l.attempt + 1, sent := l.sent + 1, waited := l.waited + BackoffMs(l.attempt + 1, w.jitter(l.attempt)))
  }

  function AfterReplay(l: Loop, access: Option<string>): Loop {
    l.(header := if Truthy(access) then access else l.header, sent := l.sent + 1, asked := l.asked + 1)
  }

  /** What tryRefresh leaves of the tab and the mirror. */
  function Refreshed(tab: Tab, mirror: Option<string>, reply: RefreshReply): (Tab, Option<string>) {
    if !Truthy(RefreshOf(tab, false)) then (AfterRefresh(tab, false), mirror)
    else if Grants(reply) then (AfterSet(reply.tokens.value), Some(reply.tokens.value.access))
    else if EndsSession(reply) then (EMPTY_TAB, None)
    else (AfterRefresh(tab, false), mirror)
  }

  // One step of the machine at a time

  lemma RetrySteps(w: World, c: Client, l: Loop)
    requires AtFetch(w, c, l) && Retried(w, l, w.server(l.sent))
    ensures Due(w, Next(c, Answer(w, l))) == Some(BackoffOver(0))
    ensures var d := Next(Next(c, Answer(w, l)), BackoffOver(0));
      AtFetch(w, d, AfterRetry(w, l)) && Tokens(d, c.tab, c.mirror)
  {
  }

  lemma SurfaceStep(w: World, c: Client, l: Loop)
    requires AtFetch(w, c, l) && !Retried(w, l, w.server(l.sent)) && !Rejected(l, w.server(l.sent))
    ensures var d := Next(c, Answer(w, l));
      Tokens(d, c.tab, c.mirror) && Finished(d, Surface(w.server(l.sent), false), l.sent + 1, l.waited)
  {
  }

  lemma DeniedWithoutToken(w: World, c: Client, l: Loop)
    requires AtFetch(w, c, l) && Rejected(l, w.server(l.sent)) && !Truthy(RefreshOf(c.tab, false))
    ensures AtDenied(Next(c, Answer(w, l)), w.server(l.sent), l)
    ensures Tokens(Next(c, Answer(w, l)), AfterRefresh(c.tab, false), c.mirror)
  {
  }

  lemma DenialStep(w: World, c: Client, reply: Response, l: Loop)
    requires AtDenied(c, reply, l) && reply.Reply?
    ensures Due(w, c) == Some(BodyRead(0)) && Finished(Next(c, BodyRead(0)), Surface(reply, true), l.sent + 1, l.waited)
    ensures if IsDefinitive(reply.code) then Tokens(Next(c, BodyRead(0)), EMPTY_TAB, None)
            else Tokens(Next(c, BodyRead(0)), c.tab, c.mirror)
  {
  }

  lemma FlightStarts(w: World, c: Client, l: Loop)
    requires AtFetch(w, c, l) && Rejected(l, w.server(l.sent)) && Truthy(RefreshOf(c.tab, false))
    ensures var d := Next(c, Answer(w, l));
      AtVerdict(w, d, l, None) && Tokens(d, AfterRefresh(c.tab, false), c.mirror) &&
      Due(w, d) == Some(RefreshSettled(w.refreshes(l.asked)))
  {
  }

  lemma FlightSettles(w: World, c: Client, l: Loop)
    requires AtVerdict(w, c, l, None)
    ensures var reply := w.refreshes(l.asked); var d := Next(c, RefreshSettled(reply));
      AtVerdict(w, d, l, Some(Grants(reply))) && Due(w, d) == Some(Resumed(0)) &&
      if Grants(reply) then Tokens(d, AfterSet(reply.tokens.value), Some(reply.tokens.value.access))
      else if EndsSession(reply) then Tokens(d, EMPTY_TAB, None) else Tokens(d, c.tab, c.mirror)
  {
  }

  lemma VerdictHeard(w: World, c: Client, l: Loop, verdict: bool)
    requires AtVerdict(w, c, l, Some(verdict))
    ensures var d := Next(c, Resumed(0)); var access := AccessOf(c.tab, c.mirror, false);
      if verdict then AtFetch(w, d, AfterReplay(l, access)) && Tokens(d, AfterAccess(c.tab, c.mirror, false), c.mirror)
      else AtDenied(d, w.server(l.sent), l) && Tokens(d, c.tab, c.mirror)
  {
  }

  // The stretches of the loop, as runs of the machine

  /** A run of the lone request that has come back to the fetch, with these tokens stored. */
  ghost predicate Looping(w: World, start: Client, steps: seq<Step>, l: Loop, tab: Tab, mirror: Option<string>) {
    Alone(w, start, steps) && AtFetch(w, Run(start, steps), l) && Tokens(Run(start, steps), tab, mirror)
  }

  ghost predicate Denying(w: World, start: Client, steps: seq<Step>, l: Loop, tab: Tab, mirror: Option<string>) {
    Alone(w, start, steps) && AtDenied(Run(start, steps), w.server(l.sent), l) && Tokens(Run(start, steps), tab, mirror)
  }

  /** A run of the lone request from start to its outcome. */
  ghost predicate Over(w: World, start: Client, steps: seq<Step>, outcome: Outcome, sent: nat, waited: nat, tab: Tab,
                       mirror: Option<string>)
  {
    Alone(w, start, steps) && Finished(Run(start, steps), outcome, sent, waited) &&
    Tokens(Run(start, steps), tab, mirror)
  }

  lemma {:induction false} LoopStarts(w: World, tab: Tab, mirror: Option<string>) returns (steps: seq<Step>)
    ensures var own := !w.skipAuth && w.given.None?; var access := AccessOf(tab, mirror, false);
      var header := if own && Truthy(access) then access else w.given;
      Looping(w, Fresh(tab, mirror), steps, Loop(!w.skipAuth && Truthy(header), header, 0, 0, 0, 0),
              if own then AfterAccess(tab, mirror, false) else tab, mirror)
  {
    steps := [] + [Start(w.verb, w.skipAuth, w.given)];
    TakeStep(w, Fresh(tab, mirror), [], Fresh(tab, mirror), Start(w.verb, w.skipAuth, w.given));
  }

  lemma {:induction false} LoopRetries(w: World, start: Client, steps: seq<Step>, l: Loop, tab: Tab,
                                       mirror: Option<string>)
    returns (steps': seq<Step>)
    requires Looping(w, start, steps, l, tab, mirror) && Retried(w, l, w.server(l.sent))
    ensures Looping(w, start, steps', AfterRetry(w, l), tab, mirror)
  {
    var c := Run(start, steps);
    RetrySteps(w, c, l);
    TakeStep(w, start, steps, c, Answer(w, l));
    TakeStep(w, start, steps + [Answer(w, l)], Next(c, Answer(w, l)), BackoffOver(0));
    steps' := steps + [Answer(w, l)] + [BackoffOver(0)];
  }

  lemma {:induction false} LoopSurfaces(w: World, start: Client, steps: seq<Step>, l: Loop, tab: Tab,
                                        mirror: Option<string>)
    returns (steps': seq<Step>)
    requires Looping(w, start, steps, l, tab, mirror)
    requires !Retried(w, l, w.server(l.sent)) && !Rejected(l, w.server(l.sent))
    ensures Over(w, start, steps', Surface(w.server(l.sent), false), l.sent + 1, l.waited, tab, mirror)
  {
    SurfaceStep(w, Run(start, steps), l);
    TakeStep(w, start, steps, Run(start, steps), Answer(w, l));
    steps' := steps + [Answer(w, l)];
  }

  lemma {:induction false} LoopIsRejected(w: World, start: Client, steps: seq<Step>, l: Loop, tab: Tab,
                                          mirror: Option<string>)
    returns (steps': seq<Step>)
    requires Looping(w, start, steps, l, tab, mirror) && Rejected(l, w.server(l.sent))
    ensures var reply := w.refreshes(l.asked); var after := Refreshed(tab, mirror, reply);
      var access := AccessOf(after.0, after.1, false);
      if Truthy(RefreshOf(tab, false)) && Grants(reply)
      then Looping(w, start, steps', AfterReplay(l, access), AfterAccess(after.0, after.1, false), after.1)
      else Denying(w, start, steps', l, after.0, after.1)
  {
    var c, d := Run(start, steps), Next(Run(start, steps), Answer(w, l));
    TakeStep(w, start, steps, c, Answer(w, l));
    steps' := steps + [Answer(w, l)];
    if Truthy(RefreshOf(tab, false)) {
      FlightStarts(w, c, l);
      steps' := FlightEnds(w, start, steps', l, d);
    } else {
      DeniedWithoutToken(w, c, l);
    }
  }

  lemma {:induction false} FlightEnds(w: World, start: Client, steps: seq<Step>, l: Loop, c: Client)
    returns (steps': seq<Step>)
    requires Ran(w, start, steps, c) && AtVerdict(w, c, l, None)
    ensures var reply := w.refreshes(l.asked);
      if Grants(reply) then
        var tab, mirror := AfterSet(reply.tokens.value), Some(reply.tokens.value.access);
        Looping(w, start, steps', AfterReplay(l, AccessOf(tab, mirror, false)), AfterAccess(tab, mirror, false), mirror)
      else if EndsSession(reply) then Denying(w, start, steps', l, EMPTY_TAB, None)
      else Denying(w, start, steps', l, c.tab, c.mirror)
  {
    var settle := RefreshSettled(w.refreshes(l.asked));
    FlightSettles(w, c, l);
    TakeStep(w, start, steps, c, settle);
    VerdictHeard(w, Next(c, settle), l, Grants(w.refreshes(l.asked)));
    TakeStep(w, start, steps + [settle], Next(c, settle), Resumed(0));
    steps' := steps + [settle] + [Resumed(0)];
  }

  lemma {:induction false} LoopIsDenied(w: World, start: Client, steps: seq<Step>, l: Loop, tab: Tab,
                                        mirror: Option<string>)
    returns (steps': seq<Step>)
    requires Denying(w, start, steps, l, tab, mirror) && w.server(l.sent).Reply?
    ensures var ended := IsDefinitive(w.server(l.sent).code);
      Over(w, start, steps', Surface(w.server(l.sent), true), l.sent + 1, l.waited,
           if ended then EMPTY_TAB else tab, if ended then None else mirror)
  {
    DenialStep(w, Run(start, steps), w.server(l.sent), l);
    TakeStep(w, start, steps, Run(start, steps), BodyRead(0));
    steps' := steps + [BodyRead(0)];
  }

  /** What a call of request counts and waits, from what holds of every request in every interleaving. */
  lemma {:induction false} LoneCallBounds(w: World, tab0: Tab, mirror0: Option<string>, steps: seq<Step>,
                                          outcome: Outcome, sent: nat, waited: nat, tab: Tab, mirror: Option<string>)
    requires Over(w, Fresh(tab0, mirror0), steps, outcome, sent, waited, tab, mirror)
    ensures waited <= 2598 && (w.verb != Get ==> waited == 0)
    ensures 1 <= sent <= 3 + AuthRequests.Granted(Run(Fresh(tab0, mirror0), steps).posts)
  {
    AuthRequests.RequestsAccounted(tab0, mirror0, steps);
    AuthRequests.ReplaysWithinGrants(tab0, mirror0, steps, 0);
    assert AuthRequests.Accounted(Run(Fresh(tab0, mirror0), steps).requests[0]);
    LoneRequest(w, tab0, mirror0, steps);
  }

  /** A lone run without its last step is one, and that step was due. */
  lemma AloneEarlier(w: World, start: Client, steps: seq<Step>)
    requires Alone(w, start, steps) && steps != []
    ensures Alone(w, start, steps[..|steps| - 1])
    ensures Due(w, Run(start, steps[..|steps| - 1])) == Some(steps[|steps| - 1])
  {
    var earlier := steps[..|steps| - 1];
    forall i | 0 <= i < |earlier| ensures Due(w, Run(start, earlier[..i])) == Some(earlier[i]) {
      assert earlier[..i] == steps[..i];
    }
  }

  // What the server's replies decide

  /** The call sends a token: the caller's, or else the stored one. */
  predicate SendsToken(w: World, tab: Tab, mirror: Option<string>) {
    !w.skipAuth && Truthy(if w.given.Some? then w.given else AccessOf(tab, mirror, false))
  }

  /** The first n replies. */
  function Served(w: World, n: nat): (replies: seq<Response>)
    ensures |replies| == n && forall i :: 0 <= i < n ==> replies[i] == w.server(i)
  {
    seq(n, i requires 0 <= i => w.server(i))
  }

  /**
    * Every reply but the last is a server error to a GET or a 401 to a token that was sent; the waits are
    * those of as many retries as there are server errors among them, two at most; and the last reply is
    * none of the first kind, unless two were retried, and surfaces as the outcome.
    */
  predicate Heeds(w: World, hadAuth: bool, outcome: Outcome, sent: nat, waited: nat) {
    sent >= 1 &&
    (forall i :: 0 <= i < sent - 1 ==> MayRetry(w.verb, w.server(i)) || Unauthorized(hadAuth, w.server(i))) &&
    (var retries := ServerErrors(Served(w, sent - 1));
     && retries <= 2 && (MayRetry(w.verb, w.server(sent - 1)) ==> retries == 2)
     && (if retries == 0 then waited == 0 else if retries == 1 then 600 <= waited <= 699
         else 2400 <= waited <= 2598)) &&
    Surfaces(hadAuth, w.server(sent - 1), outcome)
  }

  /** The reply of a due step is the next one. */
  lemma LoneStepReply(w: World, c: Client, step: Step, replies: seq<Response>)
    requires |c.requests| == 1 && Decided(c.requests[0], replies) && Due(w, c) == Some(step)
    requires Receives(c, step, 0) && replies == Served(w, |replies|)
    ensures replies + [step.reply] == Served(w, |replies| + 1)
  {
  }

  lemma LoneNext(w: World, c: Client, step: Step)
    requires |c.requests| == 1 && Due(w, c) == Some(step)
    ensures |Next(c, step).requests| == 1 && Next(c, step).requests[0].hadAuth == c.requests[0].hadAuth
    ensures Next(c, step).requests[0].verb == c.requests[0].verb
  {
  }

  lemma LoneStart(w: World, tab: Tab, mirror: Option<string>)
    ensures var d := Next(Fresh(tab, mirror), Start(w.verb, w.skipAuth, w.given));
      |d.requests| == 1 && d.requests[0].hadAuth == SendsToken(w, tab, mirror) && d.requests[0].verb == w.verb
  {
  }

  lemma {:induction false} LoneRequest(w: World, tab: Tab, mirror: Option<string>, steps: seq<Step>)
    requires Alone(w, Fresh(tab, mirror), steps) && steps != []
    ensures var qs := Run(Fresh(tab, mirror), steps).requests;
      |qs| == 1 && qs[0].hadAuth == SendsToken(w, tab, mirror) && qs[0].verb == w.verb
  {
    var start, earlier := Fresh(tab, mirror), steps[..|steps| - 1];
    AloneEarlier(w, start, steps);
    if earlier == [] {
      LoneStart(w, tab, mirror);
    } else {
      LoneRequest(w, tab, mirror, earlier);
      LoneNext(w, Run(start, earlier), steps[|steps| - 1]);
    }
  }

  lemma {:induction false} LoneReplies(w: World, tab: Tab, mirror: Option<string>, steps: seq<Step>)
    requires Alone(w, Fresh(tab, mirror), steps)
    ensures var replies := RepliesTo(Fresh(tab, mirror), steps, 0); replies == Served(w, |replies|)
  {
    if steps != [] {
      var start, earlier, step := Fresh(tab, mirror), steps[..|steps| - 1], steps[|steps| - 1];
      AloneEarlier(w, start, steps);
      LoneReplies(w, tab, mirror, earlier);
      RepliesNext(start, steps, 0);
      if Receives(Run(start, earlier), step, 0) {
        LoneRequest(w, tab, mirror, earlier);
        RepliesDecide(tab, mirror, earlier, 0);
        LoneStepReply(w, Run(start, earlier), step, RepliesTo(start, earlier, 0));
      }
    }
  }

  lemma DoneHeeds(w: World, q: Request, outcome: Outcome, sent: nat)
    requires Decided(q, Served(w, sent)) && AuthRequests.Accounted(q) && q.phase == Done(outcome) && q.verb == w.verb
    ensures Heeds(w, q.hadAuth, outcome, sent, q.backoff)
  {
    assert Served(w, sent)[..sent - 1] == Served(w, sent - 1);
  }

  /** The server's replies alone decide how often a call fetches, how long it waits and what comes of it. */
  lemma {:induction false} LoneCallHeeds(w: World, tab0: Tab, mirror0: Option<string>, steps: seq<Step>,
                                         outcome: Outcome, sent: nat, waited: nat, tab: Tab, mirror: Option<string>)
    requires Over(w, Fresh(tab0, mirror0), steps, outcome, sent, waited, tab, mirror)
    ensures Heeds(w, SendsToken(w, tab0, mirror0), outcome, sent, waited)
  {
    assert steps != [];
    LoneRequest(w, tab0, mirror0, steps);
    LoneReplies(w, tab0, mirror0, steps);
    RepliesDecide(tab0, mirror0, steps, 0);
    AuthRequests.RequestsAccounted(tab0, mirror0, steps);
    DoneHeeds(w, Run(Fresh(tab0, mirror0), steps).requests[0], outcome, sent);
  }

  class Api {
    const storage: Storage

    constructor (storage: Storage)
      ensures this.storage == storage
    {
      this.storage := storage;
    }

    /** posted: a refresh token was there and was sent. */
    method TryRefresh(reply: RefreshReply) returns (refreshed: bool, posted: bool)
      requires !storage.useMock
      modifies storage, storage.local
      ensures (storage.View(), storage.local.accessToken) ==
              Refreshed(old(storage.View()), old(storage.local.accessToken), reply)
      ensures posted <==> Truthy(RefreshOf(old(storage.View()), false))
      ensures refreshed <==> posted && Grants(reply)
    {
      var refresh := storage.GetRefreshToken();
      if !Truthy(refresh) {
        return false, false;
      }
      match reply
      case RefreshNetworkError => return false, true;
      case RefreshRefused(code) =>
        if IsDefinitive(code) {
          storage.ClearTokens();
        }
        return false, true;
      case RefreshBody(tokens) =>
        if tokens.None? || tokens.value.access == "" || tokens.value.refresh == "" {
          storage.ClearTokens();
          return false, true;
        }
        storage.SetTokens(tokens.value);
        return true, true;
    }

    /** A 401 whose refresh failed: the session ends on a definitive code only. */
    method Deny(res: Response) returns (outcome: Outcome)
      requires res.Reply?
      modifies storage, storage.local
      ensures outcome == Surface(res, true)
      ensures storage.View() == if IsDefinitive(res.code) then EMPTY_TAB else old(storage.View())
      ensures storage.local.accessToken == if IsDefinitive(res.code) then None else old(storage.local.accessToken)
    {
      if IsDefinitive(res.code) {
        storage.ClearTokens();
      }
      outcome := if res.code == Some("auth.session_evicted") then SessionEvicted else TokenInvalid;
    }

    /** The token a replay carries: the one stored now, or the one it had. */
    method FreshHeader(header: Option<string>) returns (current: Option<string>)
      requires !storage.useMock
      modifies storage
      ensures var access := AccessOf(old(storage.View()), storage.local.accessToken, false);
        current == if Truthy(access) then access else header
      ensures storage.View() == AfterAccess(old(storage.View()), storage.local.accessToken, false)
    {
      var access := storage.GetAccessToken();
      current := if Truthy(access) then access else header;
    }

    /** A 401 to a request that sent a token: refresh, then replay it with the token stored now or deny it. */
    method Refuse(w: World, l: Loop, ghost start: Client, ghost steps: seq<Step>)
      returns (denial: Option<Outcome>, header: Option<string>, ghost steps': seq<Step>)
      requires !storage.useMock
      requires Looping(w, start, steps, l, storage.View(), storage.local.accessToken)
      requires Rejected(l, w.server(l.sent))
      modifies storage, storage.local
      ensures denial.None? ==>
                Grants(w.refreshes(l.asked)) &&
                Looping(w, start, steps', l.(header := header, sent := l.sent + 1, asked := l.asked + 1),
                        storage.View(), storage.local.accessToken)
      ensures denial.Some? ==>
                Over(w, start, steps', denial.value, l.sent + 1, l.waited, storage.View(), storage.local.accessToken)
    {
      steps' := LoopIsRejected(w, start, steps, l, storage.View(), storage.local.accessToken);
      var refreshed, posted := TryRefresh(w.refreshes(l.asked));
      if refreshed {
        header := FreshHeader(l.header);
        denial := None;
      } else {
        header := l.header;
        steps' := LoopIsDenied(w, start, steps', l, storage.View(), storage.local.accessToken);
        var outcome := Deny(w.server(l.sent));
        denial := Some(outcome);
      }
    }

    /** The wait before a retry, attempt having been counted up. */
    method Backoff(w: World, l: Loop, ghost start: Client, ghost steps: seq<Step>)
      returns (ms: nat, ghost steps': seq<Step>)
      requires Looping(w, start, steps, l, storage.View(), storage.local.accessToken)
      requires Retried(w, l, w.server(l.sent))
      ensures Looping(w, start, steps', l.(attempt := l.attempt + 1, sent := l.sent + 1, waited := l.waited + ms),
                      storage.View(), storage.local.accessToken)
    {
      steps' := LoopRetries(w, start, steps, l, storage.View(), storage.local.accessToken);
      ms := BackoffMs(l.attempt + 1, w.jitter(l.attempt));
    }

    /**
      * One call of request. It ends if the server grants tokens at most bound times, and then the
      * outcome, the tokens, the number of fetches and the time waited are those of the lone run.
      */
    method Request(w: World, ghost bound: nat)
      returns (outcome: Outcome, sent: nat, waited: nat, ghost steps: seq<Step>)
      requires !storage.useMock
      requires forall n: nat :: n >= bound ==> !Grants(w.refreshes(n))
      modifies storage, storage.local
      ensures Over(w, Fresh(old(storage.View()), old(storage.local.accessToken)), steps, outcome, sent, waited,
                   storage.View(), storage.local.accessToken)
      ensures Heeds(w, SendsToken(w, old(storage.View()), old(storage.local.accessToken)), outcome, sent, waited)
      ensures 1 <= sent <= 3 + bound
    {
      ghost var start := Fresh(storage.View(), storage.local.accessToken);
      steps := LoopStarts(w, storage.View(), storage.local.accessToken);
      var header := w.given;
      if !w.skipAuth && header.None? {
        header := FreshHeader(header);
      }
      var hadAuth := !w.skipAuth && Truthy(header);
      var attempt, asked := 0, 0;
      sent, waited := 0, 0;
      while true
        invariant Looping(w, start, steps, Loop(hadAuth, header, attempt, sent, asked, waited), storage.View(),
                          storage.local.accessToken)
        invariant attempt <= 2 && asked <= bound && sent == asked + attempt
        decreases bound - asked, 2 - attempt
      {
        var l := Loop(hadAuth, header, attempt, sent, asked, waited);
        var res := w.server(sent);
        sent := sent + 1;
        if res.Reply? && res.status == 401 && hadAuth {
          var denial;
          denial, header, steps := Refuse(w, l, start, steps);
          if denial.Some? {
            outcome := denial.value;
            break;
          }
          asked := asked + 1;
          continue;
        }
        if res.Reply? && res.status >= 500 && w.verb == Get && attempt < 2 {
          var ms;
          ms, steps := Backoff(w, l, start, steps);
          attempt, waited := attempt + 1, waited + ms;
          continue;
        }
        steps := LoopSurfaces(w, start, steps, l, storage.View(), storage.local.accessToken);
        outcome := Surface(res, false);
        break;
      }
      LoneCallHeeds(w, old(storage.View()), old(storage.local.accessToken), steps, outcome, sent, waited,
                    storage.View(), storage.local.accessToken);
    }
  }
}

/**
  * What the replies to a request of src/api/client.ts decide, in any interleaving: which are retried,
  * which lead to a refresh, which end the request, and as what.
  */
module AuthReplies {
  import opened Options
  import opened TokenStorage
  import opened AuthFlow
  import AuthRequests

  predicate Receives(c: Client, step: Step, r: nat) {
    step.Answered? && step.r == r && r < |c.requests| && c.requests[r].phase == Sent
  }

  /** The replies to the fetches of request r, in order. */
  function RepliesTo(start: Client, steps: seq<Step>, r: nat): seq<Response> {
    if steps == [] then []
    else
      var earlier, step := steps[..|steps| - 1], steps[|steps| - 1];
      RepliesTo(start, earlier, r) + if Receives(Run(start, earlier), step, r) then [step.reply] else []
  }

  /** The server failed, and the request may be sent again. */
  predicate MayRetry(verb: Method, reply: Response) { verb == Get && reply.Reply? && reply.status >= 500 }

  /** A 401 to a token that was sent. */
  predicate Unauthorized(hadAuth: bool, reply: Response) { hadAuth && reply.Reply? && reply.status == 401 }

  function ServerErrors(replies: seq<Response>): (n: nat)
    ensures n <= |replies|
  {
    if replies == [] then 0
    else
      var last := replies[|replies| - 1];
      ServerErrors(replies[..|replies| - 1]) + if last.Reply? && last.status >= 500 then 1 else 0
  }

  /** Which last replies surface as which outcome. */
  predicate Surfaces(hadAuth: bool, last: Response, outcome: Outcome) {
    if last == NetworkError then outcome == Network
    else if Unauthorized(hadAuth, last) then
      outcome == if last.code == Some("auth.session_evicted") then SessionEvicted else TokenInvalid
    else
      match outcome
      case Value => 200 <= last.status <= 299
      case Validation => last.enveloped && last.status == 422
      case RateLimit => last.enveloped && last.status == 429
      case Api => last.enveloped && !(200 <= last.status <= 299) && last.status != 422 && last.status != 429
      case Classified => !last.enveloped && !(200 <= last.status <= 299)
      case _ => false
  }

  /** The replies after which the request went on: all, but for the one that ended it. */
  function Survived(q: Request, replies: seq<Response>): seq<Response> {
    if q.phase.Done? && replies != [] then replies[..|replies| - 1] else replies
  }

  /**
    * A request went on after a reply only if that may be retried or was a 401 to its token, and it was
    * retried once for each server error among them. It ended with a reply that is none of these, or
    * with a server error after two retries, or with a 401.
    */
  ghost predicate Decided(q: Request, replies: seq<Response>) {
    && q.attempt == ServerErrors(Survived(q, replies))
    && |replies| == q.fetches - (if q.phase == Sent then 1 else 0)
    && q.attempt <= 2
    && (forall i :: 0 <= i < |Survived(q, replies)| ==>
          MayRetry(q.verb, replies[i]) || Unauthorized(q.hadAuth, replies[i]))
    && (q.phase != Sent ==> replies != [])
    && (q.phase == BackingOff ==> MayRetry(q.verb, replies[|replies| - 1]))
    && (q.phase.Refreshing? || q.phase.Denied? ==>
          q.phase.reply == replies[|replies| - 1] && Unauthorized(q.hadAuth, q.phase.reply))
    && (q.phase.Done? ==> Ended(q, replies[|replies| - 1]))
  }

  predicate Ended(q: Request, last: Response)
    requires q.phase.Done?
  {
    (MayRetry(q.verb, last) ==> q.attempt == 2) && Surfaces(q.hadAuth, last, q.phase.outcome)
  }

  lemma ServerErrorsLast(replies: seq<Response>, reply: Response)
    ensures ServerErrors(replies + [reply]) ==
            ServerErrors(replies) + if reply.Reply? && reply.status >= 500 then 1 else 0
  {
    assert (replies + [reply])[..|replies|] == replies;
  }

  lemma SurfaceSurfaces(hadAuth: bool, reply: Response)
    ensures Surfaces(hadAuth, reply, Surface(reply, Unauthorized(hadAuth, reply)))
  {
  }

  /** What becomes of a request at a reply. */
  predicate Follows(q: Request, reply: Response, d: Request) {
    d.verb == q.verb && d.hadAuth == q.hadAuth && d.fetches == q.fetches &&
    if Unauthorized(q.hadAuth, reply) then
      d.attempt == q.attempt && (d.phase.Refreshing? || d.phase.Denied?) && d.phase.reply == reply
    else if MayRetry(q.verb, reply) && q.attempt < 2 then d.attempt == q.attempt + 1 && d.phase == BackingOff
    else d.attempt == q.attempt && d.phase.Done? && Surfaces(q.hadAuth, reply, d.phase.outcome)
  }

  lemma AnswerFollows(c: Client, r: nat, reply: Response, jitter: nat)
    requires r < |c.requests|
    ensures Follows(c.requests[r], reply, AnsweredBy(c, r, reply, jitter).requests[r])
  {
    SurfaceSurfaces(c.requests[r].hadAuth, reply);
  }

  lemma SurvivedAfter(q: Request, reply: Response, d: Request, replies: seq<Response>)
    requires q.phase == Sent && Follows(q, reply, d)
    ensures Survived(q, replies) == replies
    ensures Survived(d, replies + [reply]) == if d.phase.Done? then replies else replies + [reply]
  {
    assert (replies + [reply])[..|replies|] == replies;
  }

  lemma FollowingDecides(q: Request, reply: Response, d: Request, replies: seq<Response>)
    requires q.phase == Sent && Decided(q, replies) && Follows(q, reply, d)
    ensures Decided(d, replies + [reply])
  {
    var all := replies + [reply];
    ServerErrorsLast(replies, reply);
    SurvivedAfter(q, reply, d, replies);
    assert all[|all| - 1] == reply;
    forall i | 0 <= i < |Survived(d, all)|
      ensures MayRetry(d.verb, all[i]) || Unauthorized(d.hadAuth, all[i])
    {
      assert i < |replies| ==> all[i] == replies[i];
    }
  }

  /** The steps that act on the request without a reply. */
  lemma StepDecides(c: Client, step: Step, r: nat, replies: seq<Response>)
    requires r < |c.requests| && Decided(c.requests[r], replies)
    requires AuthRequests.ActsOn(step, r) && !Receives(c, step, r)
    ensures r < |Next(c, step).requests| && Decided(Next(c, step).requests[r], replies)
  {
    var q, d := c.requests[r], Next(c, step).requests[r];
    if d.phase.Done? && !q.phase.Done? {
      assert step.BodyRead?;
    }
  }

  lemma {:induction false} NoRepliesYet(start: Client, steps: seq<Step>, r: nat)
    requires r >= |Run(start, steps).requests|
    ensures RepliesTo(start, steps, r) == []
  {
    if steps != [] {
      var c, step := Run(start, steps[..|steps| - 1]), steps[|steps| - 1];
      RequestsStay(c, step);
      NoRepliesYet(start, steps[..|steps| - 1], r);
    }
  }

  lemma RequestsStay(c: Client, step: Step)
    ensures |Next(c, step).requests| == |c.requests| + if step.Start? then 1 else 0
  {
  }

  lemma StartDecides(c: Client, verb: Method, skipAuth: bool, given: Option<string>)
    ensures Decided(Started(c, verb, skipAuth, given).requests[|c.requests|], [])
  {
  }

  lemma RepliesNext(start: Client, steps: seq<Step>, r: nat)
    requires steps != []
    ensures var earlier, step := steps[..|steps| - 1], steps[|steps| - 1];
      RepliesTo(start, steps, r) ==
      if Receives(Run(start, earlier), step, r) then RepliesTo(start, earlier, r) + [step.reply]
      else RepliesTo(start, earlier, r)
  {
  }

  lemma DecidesNext(c: Client, step: Step, r: nat, replies: seq<Response>)
    requires r < |c.requests| && Decided(c.requests[r], replies)
    ensures r < |Next(c, step).requests|
    ensures Decided(Next(c, step).requests[r], if Receives(c, step, r) then replies + [step.reply] else replies)
  {
    RequestsStay(c, step);
    if Receives(c, step, r) {
      AnswerFollows(c, r, step.reply, step.jitter);
      FollowingDecides(c.requests[r], step.reply, Next(c, step).requests[r], replies);
    } else if AuthRequests.ActsOn(step, r) {
      StepDecides(c, step, r, replies);
    } else {
      AuthRequests.OthersUntouched(c, step, r);
    }
  }

  /** In every reachable state the replies to a request have decided it so. */
  lemma {:induction false} RepliesDecide(tab: Tab, mirror: Option<string>, steps: seq<Step>, r: nat)
    requires r < |Run(Fresh(tab, mirror), steps).requests|
    ensures Decided(Run(Fresh(tab, mirror), steps).requests[r], RepliesTo(Fresh(tab, mirror), steps, r))
  {
    var start, earlier, step := Fresh(tab, mirror), steps[..|steps| - 1], steps[|steps| - 1];
    var c := Run(start, earlier);
    RequestsStay(c, step);
    RepliesNext(start, steps, r);
    if r == |c.requests| {
      NoRepliesYet(start, earlier, r);
      StartDecides(c, step.verb, step.skipAuth, step.given);
    } else {
      RepliesDecide(tab, mirror, earlier, r);
      DecidesNext(c, step, r, RepliesTo(start, earlier, r));
    }
  }
}

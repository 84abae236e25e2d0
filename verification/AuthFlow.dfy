/**
  * src/api/client.ts: any number of concurrent requests over one token store, sharing one refresh
  * flight, as a state machine whose steps are the stretches of code between two awaits.
  */
module AuthFlow {
  import opened Options
  import opened TokenStorage

  datatype Method = Get | Post | Patch | Put | Delete

  /** What a fetch settles to. enveloped says whether the body is an object with an error field. */
  datatype Response = NetworkError | Reply(status: nat, enveloped: bool, code: Option<string>)

  /** What the refresh POST settles to; a body that does not parse counts as a network error. */
  datatype RefreshReply =
    | RefreshNetworkError
    | RefreshRefused(code: Option<string>)
    | RefreshBody(tokens: Option<TokenPair>)

  datatype Outcome = Value | Network | TokenInvalid | SessionEvicted | Validation | RateLimit | Api | Classified

  const DEFINITIVE: set<string> := {"auth.token_invalid", "auth.token_expired", "auth.refresh_expired"}

  predicate IsDefinitive(code: Option<string>) { code.Some? && code.value in DEFINITIVE }

  predicate Ok(r: Response) { r.Reply? && 200 <= r.status < 300 }

  /** How a settled fetch surfaces when no branch retries it. denied: a 401 whose refresh failed. */
  function Surface(r: Response, denied: bool): Outcome {
    match r
    case NetworkError => Network
    case Reply(status, enveloped, code) =>
      if denied then (if code == Some("auth.session_evicted") then SessionEvicted else TokenInvalid)
      else if Ok(r) then Value
      else if !enveloped then Classified
      else if status == 422 then Validation
      else if status == 429 then RateLimit
      else Api
  }

  /** A refresh body grants tokens only when both are there and non-empty. */
  predicate Grants(reply: RefreshReply) {
    reply.RefreshBody? && reply.tokens.Some? && reply.tokens.value.access != "" && reply.tokens.value.refresh != ""
  }

  /** A refresh reply that ends the session: a definitive code, or a body without usable tokens. */
  predicate EndsSession(reply: RefreshReply) {
    (reply.RefreshRefused? && IsDefinitive(reply.code)) || (reply.RefreshBody? && !Grants(reply))
  }

  // Requests

  datatype Phase =
    | Sent
    | Refreshing(flight: nat, reply: Response)
    | Denied(reply: Response)
    | BackingOff
    | Done(outcome: Outcome)

  /** Which flight a request waited for and what it was told. */
  datatype Heard = Heard(flight: nat, verdict: bool)

  datatype Request = Request(verb: Method, hadAuth: bool, header: Option<string>, phase: Phase, attempt: nat,
                             fetches: nat, backoff: nat, heard: seq<Heard>, last: Option<Response>)

  /** One refresh POST: the token it sent, and its verdict once it has settled. */
  datatype RefreshPost = RefreshPost(token: string, verdict: Option<bool>)

  datatype Client = Client(tab: Tab, mirror: Option<string>, requests: seq<Request>, flight: Option<nat>,
                           posts: seq<RefreshPost>)

  datatype Step =
    | Start(verb: Method, skipAuth: bool, given: Option<string>)
    | Answered(r: nat, reply: Response, jitter: nat)
    | RefreshSettled(refreshed: RefreshReply)
    | Resumed(r: nat)
    | BodyRead(r: nat)
    | BackoffOver(r: nat)
    | Login(tokens: TokenPair)
    | Logout

  /** 200 * 3^attempt plus a jitter below 100, where attempt has already been counted up. */
  function BackoffMs(attempt: nat, jitter: nat): nat {
    200 * (if attempt == 0 then 1 else if attempt == 1 then 3 else 9) + jitter % 100
  }

  function WithRequest(c: Client, r: nat, q: Request): (c': Client)
    requires r < |c.requests|
  {
    c.(requests := c.requests[r := q])
  }

  function Cleared(c: Client): Client { c.(tab := EMPTY_TAB, mirror := None) }

  function Stored(c: Client, p: TokenPair): Client { c.(tab := AfterSet(p), mirror := Some(p.access)) }

  /** The Authorization header a request starts with, and whether a 401 may be refreshed away. */
  function Started(c: Client, verb: Method, skipAuth: bool, given: Option<string>): Client {
    var own := !skipAuth && given.None?;
    var access := AccessOf(c.tab, c.mirror, false);
    var header := if own && Truthy(access) then access else given;
    var q := Request(verb, !skipAuth && Truthy(header), header, Sent, 0, 1, 0, [], None);
    c.(tab := if own then AfterAccess(c.tab, c.mirror, false) else c.tab, requests := c.requests + [q])
  }

  /** tryRefresh at a 401: no refresh token, an existing flight, or a new one. */
  function TryRefresh(c: Client, r: nat, reply: Response): Client
    requires r < |c.requests|
  {
    var token := RefreshOf(c.tab, false);
    var c := c.(tab := AfterRefresh(c.tab, false));
    var q := c.requests[r].(last := Some(reply));
    if !Truthy(token) then WithRequest(c, r, q.(phase := Denied(reply)))
    else if c.flight.Some? then WithRequest(c, r, q.(phase := Refreshing(c.flight.value, reply)))
    else
      WithRequest(c, r, q.(phase := Refreshing(|c.posts|, reply))).(
        flight := Some(|c.posts|), posts := c.posts + [RefreshPost(token.value, None)])
  }

  predicate Retries(q: Request, reply: Response) {
    reply.Reply? && reply.status >= 500 && q.verb == Get && q.attempt < 2
  }

  predicate Refreshes(q: Request, reply: Response) { reply.Reply? && reply.status == 401 && q.hadAuth }

  function AnsweredBy(c: Client, r: nat, reply: Response, jitter: nat): Client
    requires r < |c.requests|
  {
    var q := c.requests[r].(last := Some(reply));
    if Refreshes(q, reply) then TryRefresh(c, r, reply)
    else if Retries(q, reply) then
      WithRequest(c, r, q.(phase := BackingOff, attempt := q.attempt + 1,
                           backoff := q.backoff + BackoffMs(q.attempt + 1, jitter)))
    else WithRequest(c, r, q.(phase := Done(Surface(reply, false))))
  }

  /** The refresh settles: tokens change, and the flight is over, in one stretch. */
  function Settled(c: Client, reply: RefreshReply): Client
    requires c.flight.Some? && c.flight.value < |c.posts|
  {
    var f := c.flight.value;
    var c := if Grants(reply) then Stored(c, reply.tokens.value) else if EndsSession(reply) then Cleared(c) else c;
    c.(flight := None, posts := c.posts[f := c.posts[f].(verdict := Some(Grants(reply)))])
  }

  /** A waiting request hears the verdict: replay with the token of the day, or read the 401's body. */
  function HearsVerdict(c: Client, r: nat): Client
    requires r < |c.requests| && c.requests[r].phase.Refreshing?
    requires c.requests[r].phase.flight < |c.posts| && c.posts[c.requests[r].phase.flight].verdict.Some?
  {
    var q, f := c.requests[r], c.requests[r].phase.flight;
    var q := q.(heard := q.heard + [Heard(f, c.posts[f].verdict.value)]);
    if c.posts[f].verdict.value then
      var access := AccessOf(c.tab, c.mirror, false);
      var header := if Truthy(access) then access else q.header;
      WithRequest(c, r, q.(phase := Sent, fetches := q.fetches + 1, header := header))
        .(tab := AfterAccess(c.tab, c.mirror, false))
    else WithRequest(c, r, q.(phase := Denied(q.phase.reply)))
  }

  function DeniedFor(c: Client, r: nat): Client
    requires r < |c.requests| && c.requests[r].phase.Denied?
  {
    var q := c.requests[r];
    var reply := q.phase.reply;
    var c := if reply.Reply? && IsDefinitive(reply.code) then Cleared(c) else c;
    WithRequest(c, r, q.(phase := Done(Surface(reply, true))))
  }

  /** A step that the code could not take in this state changes nothing. */
  function Next(c: Client, step: Step): Client {
    match step
    case Start(verb, skipAuth, given) => Started(c, verb, skipAuth, given)
    case Answered(r, reply, jitter) =>
      if r < |c.requests| && c.requests[r].phase == Sent then AnsweredBy(c, r, reply, jitter) else c
    case RefreshSettled(reply) =>
      if c.flight.Some? && c.flight.value < |c.posts| then Settled(c, reply) else c
    case Resumed(r) =>
      if r < |c.requests| && c.requests[r].phase.Refreshing? && c.requests[r].phase.flight < |c.posts| &&
         c.posts[c.requests[r].phase.flight].verdict.Some?
      then HearsVerdict(c, r) else c
    case BodyRead(r) => if r < |c.requests| && c.requests[r].phase.Denied? then DeniedFor(c, r) else c
    case BackoffOver(r) =>
      if r < |c.requests| && c.requests[r].phase == BackingOff then
        WithRequest(c, r, c.requests[r].(phase := Sent, fetches := c.requests[r].fetches + 1))
      else c
    case Login(p) => Stored(c, p)
    case Logout => Cleared(c)
  }

  function Run(c: Client, steps: seq<Step>): Client {
    if steps == [] then c else Next(Run(c, steps[..|steps| - 1]), steps[|steps| - 1])
  }

  /** No request yet, no refresh ever sent, whatever tokens are stored. */
  function Fresh(tab: Tab, mirror: Option<string>): Client { Client(tab, mirror, [], None, []) }

  lemma RunLast(c: Client, steps: seq<Step>, step: Step)
    ensures Run(c, steps + [step]) == Next(Run(c, steps), step)
  {
  }

  // Single flight

  /** The refresh POSTs still outstanding are exactly the flight. */
  predicate SingleFlight(c: Client) {
    (c.flight.Some? ==> c.flight.value < |c.posts|) &&
    forall i :: 0 <= i < |c.posts| ==> (c.posts[i].verdict.None? <==> c.flight == Some(i))
  }

  /** Every request waits for a POST that was sent, and was told what that POST's verdict is. */
  predicate Truthful(c: Client, q: Request) {
    (q.phase.Refreshing? ==> q.phase.flight < |c.posts|) &&
    forall k :: 0 <= k < |q.heard| ==>
      q.heard[k].flight < |c.posts| && c.posts[q.heard[k].flight].verdict == Some(q.heard[k].verdict)
  }

  predicate Sound(c: Client) {
    SingleFlight(c) && forall r :: 0 <= r < |c.requests| ==> Truthful(c, c.requests[r])
  }

  /** POSTs are only added, and a verdict once given stands. */
  predicate PostsExtend(c: Client, d: Client) {
    |c.posts| <= |d.posts| &&
    forall i :: 0 <= i < |c.posts| ==>
      d.posts[i].token == c.posts[i].token && (c.posts[i].verdict.Some? ==> d.posts[i].verdict == c.posts[i].verdict)
  }

  /** A step that changes at most request r, and keeps POSTs and flight in order, keeps everything. */
  lemma SoundStays(c: Client, d: Client, r: nat)
    requires Sound(c) && SingleFlight(d) && PostsExtend(c, d)
    requires |d.requests| == |c.requests| && (r < |d.requests| ==> Truthful(d, d.requests[r]))
    requires forall i :: 0 <= i < |c.requests| && i != r ==> d.requests[i] == c.requests[i]
    ensures Sound(d)
  {
  }

  lemma StartedSound(c: Client, verb: Method, skipAuth: bool, given: Option<string>)
    requires Sound(c)
    ensures Sound(Started(c, verb, skipAuth, given))
  {
  }

  lemma TryRefreshSound(c: Client, r: nat, reply: Response)
    requires Sound(c) && r < |c.requests|
    ensures Sound(TryRefresh(c, r, reply)) && PostsExtend(c, TryRefresh(c, r, reply))
  {
  }

  lemma SettledSound(c: Client, reply: RefreshReply)
    requires Sound(c) && c.flight.Some?
    ensures Sound(Settled(c, reply)) && PostsExtend(c, Settled(c, reply))
  {
  }

  lemma HearsVerdictSound(c: Client, r: nat)
    requires Sound(c) && r < |c.requests| && c.requests[r].phase.Refreshing?
    requires c.posts[c.requests[r].phase.flight].verdict.Some?
    ensures Sound(HearsVerdict(c, r)) && HearsVerdict(c, r).posts == c.posts
  {
  }

  lemma AnsweredSound(c: Client, r: nat, reply: Response, jitter: nat)
    requires Sound(c) && r < |c.requests|
    ensures Sound(AnsweredBy(c, r, reply, jitter)) && PostsExtend(c, AnsweredBy(c, r, reply, jitter))
  {
    if Refreshes(c.requests[r], reply) {
      TryRefreshSound(c, r, reply);
    } else {
      SoundStays(c, AnsweredBy(c, r, reply, jitter), r);
    }
  }

  /** The steps that touch no POST and leave the flight alone. */
  lemma {:induction false} SameFlightSound(c: Client, step: Step)
    requires Sound(c) && (step.BodyRead? || step.BackoffOver? || step.Login? || step.Logout?)
    ensures Sound(Next(c, step)) && PostsExtend(c, Next(c, step))
  {
    SoundStays(c, Next(c, step), if step.BodyRead? || step.BackoffOver? then step.r else |c.requests|);
  }

  /** Every step keeps the flight single, the verdicts final and every request told the truth. */
  lemma {:induction false} NextSound(c: Client, step: Step)
    requires Sound(c)
    ensures Sound(Next(c, step)) && PostsExtend(c, Next(c, step))
  {
    match step
    case Start(verb, skipAuth, given) => StartedSound(c, verb, skipAuth, given);
    case Answered(r, reply, jitter) =>
      if r < |c.requests| {
        AnsweredSound(c, r, reply, jitter);
      }
    case RefreshSettled(reply) =>
      if c.flight.Some? {
        SettledSound(c, reply);
      }
    case Resumed(r) =>
      if r < |c.requests| && c.requests[r].phase.Refreshing? && c.posts[c.requests[r].phase.flight].verdict.Some? {
        HearsVerdictSound(c, r);
      }
    case _ => SameFlightSound(c, step);
  }

  lemma {:induction false} RunSound(c: Client, steps: seq<Step>)
    requires Sound(c)
    ensures Sound(Run(c, steps))
  {
    if steps != [] {
      RunSound(c, steps[..|steps| - 1]);
      NextSound(Run(c, steps[..|steps| - 1]), steps[|steps| - 1]);
    }
  }

  /** In every interleaving at most one refresh POST is outstanding. */
  lemma AtMostOneRefreshOutstanding(tab: Tab, mirror: Option<string>, steps: seq<Step>, i: nat, j: nat)
    requires var c := Run(Fresh(tab, mirror), steps);
      i < |c.posts| && j < |c.posts| && c.posts[i].verdict.None? && c.posts[j].verdict.None?
    ensures i == j
  {
    RunSound(Fresh(tab, mirror), steps);
  }

  /** In every interleaving all requests that waited for one flight were told the same verdict. */
  lemma WaitersHearOneVerdict(tab: Tab, mirror: Option<string>, steps: seq<Step>, q: nat, r: nat, k: nat, l: nat)
    requires var c := Run(Fresh(tab, mirror), steps);
      q < |c.requests| && r < |c.requests| && k < |c.requests[q].heard| && l < |c.requests[r].heard| &&
      c.requests[q].heard[k].flight == c.requests[r].heard[l].flight
    ensures var c := Run(Fresh(tab, mirror), steps);
      c.requests[q].heard[k].verdict == c.requests[r].heard[l].verdict
  {
    RunSound(Fresh(tab, mirror), steps);
  }
}

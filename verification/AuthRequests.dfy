/** What every single request of src/api/client.ts sends, waits and surfaces, in any interleaving. */
module AuthRequests {
  import opened Options
  import opened TokenStorage
  import opened AuthFlow
  import AuthTokens
  import Decimal
  import opened Lists

  // Accounting

  /** How often the request was told that a refresh succeeded, and so was replayed. */
  function Replays(heard: seq<Heard>): (n: nat)
    ensures n <= |heard|
  {
    if heard == [] then 0
    else Replays(heard[..|heard| - 1]) + if heard[|heard| - 1].verdict then 1 else 0
  }

  /** Between the given numbers of 5xx retries, the least and the most that the backoffs add up to. */
  predicate BackoffWithin(q: Request) {
    if q.attempt == 0 then q.backoff == 0
    else if q.attempt == 1 then 600 <= q.backoff <= 699
    else 2400 <= q.backoff <= 2598
  }

  /**
    * A request waiting for its backoff has counted the retry but not yet sent it. A 401 to a token that
    * was sent surfaces as an ended session, any other last response as itself.
    */
  predicate Accounted(q: Request) {
    && q.attempt <= 2
    && (q.verb != Get ==> q.attempt == 0)
    && (!q.hadAuth ==> q.heard == [])
    && q.fetches + (if q.phase == BackingOff then 1 else 0) == 1 + Replays(q.heard) + q.attempt
    && BackoffWithin(q)
    && (q.phase.Done? ==> q.last.Some? && q.phase.outcome == Surface(q.last.value, Refreshes(q, q.last.value)))
    && (q.phase.Refreshing? || q.phase.Denied? ==> q.last == Some(q.phase.reply) && Refreshes(q, q.phase.reply))
  }

  predicate AllAccounted(c: Client) { forall r :: 0 <= r < |c.requests| ==> Accounted(c.requests[r]) }

  lemma AnsweredAccounted(c: Client, r: nat, reply: Response, jitter: nat)
    requires r < |c.requests| && Accounted(c.requests[r]) && c.requests[r].phase == Sent
    ensures Accounted(AnsweredBy(c, r, reply, jitter).requests[r])
  {
    var q := c.requests[r];
    var q' := AnsweredBy(c, r, reply, jitter).requests[r];
    assert q'.heard == q.heard && q'.fetches == q.fetches && q'.last == Some(reply);
  }

  lemma HeardAccounted(c: Client, r: nat)
    requires r < |c.requests| && Accounted(c.requests[r]) && c.requests[r].phase.Refreshing?
    requires c.requests[r].phase.flight < |c.posts| && c.posts[c.requests[r].phase.flight].verdict.Some?
    ensures Accounted(HearsVerdict(c, r).requests[r])
    ensures var p, q := c.requests[r], HearsVerdict(c, r).requests[r];
      q.attempt == p.attempt &&
      q.phase == (if c.posts[p.phase.flight].verdict.value then Sent else Denied(p.phase.reply)) &&
      Replays(q.heard) == Replays(p.heard) + if c.posts[p.phase.flight].verdict.value then 1 else 0
  {
  }

  lemma DeniedAccounted(c: Client, r: nat)
    requires r < |c.requests| && Accounted(c.requests[r]) && c.requests[r].phase.Denied?
    ensures Accounted(DeniedFor(c, r).requests[r])
  {
  }

  lemma BackoffAccounted(c: Client, r: nat)
    requires r < |c.requests| && Accounted(c.requests[r])
    ensures |Next(c, BackoffOver(r)).requests| == |c.requests| && Accounted(Next(c, BackoffOver(r)).requests[r])
  {
  }

  /** The request that a step acts on, if it acts on one that was there before. */
  predicate ActsOn(step: Step, r: nat) {
    (step.Answered? || step.Resumed? || step.BodyRead? || step.BackoffOver?) && step.r == r
  }

  lemma OthersUntouched(c: Client, step: Step, r: nat)
    requires r < |c.requests| && !ActsOn(step, r)
    ensures r < |Next(c, step).requests| && Next(c, step).requests[r] == c.requests[r]
  {
  }

  lemma {:induction false} OneAccounted(c: Client, step: Step, r: nat)
    requires AllAccounted(c) && r < |c.requests| && ActsOn(step, r)
    ensures |Next(c, step).requests| == |c.requests| && Accounted(Next(c, step).requests[r])
  {
    match step
    case Answered(_, reply, jitter) =>
      if c.requests[r].phase == Sent {
        AnsweredAccounted(c, r, reply, jitter);
      }
    case Resumed(_) =>
      if c.requests[r].phase.Refreshing? && c.requests[r].phase.flight < |c.posts| &&
         c.posts[c.requests[r].phase.flight].verdict.Some? {
        HeardAccounted(c, r);
      }
    case BodyRead(_) =>
      if c.requests[r].phase.Denied? {
        DeniedAccounted(c, r);
      }
    case BackoffOver(_) => BackoffAccounted(c, r);
  }

  lemma {:induction false} NextAccounted(c: Client, step: Step)
    requires AllAccounted(c)
    ensures AllAccounted(Next(c, step))
  {
    var d := Next(c, step);
    forall r | 0 <= r < |d.requests| ensures Accounted(d.requests[r]) {
      if r < |c.requests| {
        if ActsOn(step, r) {
          OneAccounted(c, step, r);
        } else {
          OthersUntouched(c, step, r);
        }
      }
    }
  }

  /**
    * In every reachable state each request has sent one fetch, plus one for each refresh it was told
    * succeeded, plus one for each 5xx retry; retries are two at most, none unless GET, and wait no
    * longer than 2598 ms together; and it surfaces what its last response says, as an invalid token or an
    * evicted session exactly if that was a 401 to a token it sent.
    */
  lemma {:induction false} RequestsAccounted(tab: Tab, mirror: Option<string>, steps: seq<Step>)
    ensures AllAccounted(Run(Fresh(tab, mirror), steps))
  {
    if steps != [] {
      RequestsAccounted(tab, mirror, steps[..|steps| - 1]);
      NextAccounted(Run(Fresh(tab, mirror), steps[..|steps| - 1]), steps[|steps| - 1]);
    }
  }

  // Termination

  function Rank(phase: Phase): nat {
    match phase
    case BackingOff => 4
    case Sent => 3
    case Refreshing(flight, reply) => 2
    case Denied(reply) => 1
    case Done(outcome) => 0
  }

  /** Retries left, then how far the current attempt is from its end. */
  function Left(q: Request): nat {
    if q.attempt <= 2 then (2 - q.attempt) * 5 + Rank(q.phase) else Rank(q.phase)
  }

  /** The request is nearer its end, or it is replayed after a successful refresh. */
  predicate Advances(p: Request, q: Request) {
    if Replays(q.heard) == Replays(p.heard) then Left(q) < Left(p)
    else Replays(q.heard) == Replays(p.heard) + 1 && Left(q) == Left(p) + 1
  }

  lemma AnsweredAdvances(c: Client, r: nat, reply: Response, jitter: nat)
    requires r < |c.requests| && Accounted(c.requests[r]) && c.requests[r].phase == Sent
    ensures Advances(c.requests[r], AnsweredBy(c, r, reply, jitter).requests[r])
  {
    var q, q' := c.requests[r], AnsweredBy(c, r, reply, jitter).requests[r];
    assert q'.heard == q.heard && (q'.attempt == q.attempt || (q'.attempt == q.attempt + 1 && q.attempt < 2));
    assert q'.attempt == q.attempt ==> Rank(q'.phase) < Rank(q.phase);
  }

  lemma HeardAdvances(c: Client, r: nat)
    requires r < |c.requests| && Accounted(c.requests[r]) && c.requests[r].phase.Refreshing?
    requires c.requests[r].phase.flight < |c.posts| && c.posts[c.requests[r].phase.flight].verdict.Some?
    ensures Advances(c.requests[r], HearsVerdict(c, r).requests[r])
  {
  }

  lemma DeniedAdvances(c: Client, r: nat)
    requires r < |c.requests| && Accounted(c.requests[r]) && c.requests[r].phase.Denied?
    ensures Advances(c.requests[r], DeniedFor(c, r).requests[r])
  {
  }

  /** Every step that touches a request advances it. */
  lemma TouchedRequestAdvances(c: Client, step: Step, r: nat)
    requires r < |c.requests| && Accounted(c.requests[r])
    ensures r < |Next(c, step).requests|
    ensures Next(c, step).requests[r] == c.requests[r] || Advances(c.requests[r], Next(c, step).requests[r])
  {
    if !ActsOn(step, r) {
      OthersUntouched(c, step, r);
    } else {
      match step
      case Answered(_, reply, jitter) =>
        if c.requests[r].phase == Sent {
          AnsweredAdvances(c, r, reply, jitter);
        }
      case Resumed(_) =>
        if c.requests[r].phase.Refreshing? && c.requests[r].phase.flight < |c.posts| &&
           c.posts[c.requests[r].phase.flight].verdict.Some? {
          HeardAdvances(c, r);
        }
      case BodyRead(_) =>
        if c.requests[r].phase.Denied? {
          DeniedAdvances(c, r);
        }
      case BackoffOver(_) =>
    }
  }

  /** How many steps of a run touch request r. */
  function Touches(c: Client, steps: seq<Step>, r: nat): (n: nat)
    ensures n <= |steps|
  {
    if steps == [] then 0
    else
      var before := Run(c, steps[..|steps| - 1]);
      Touches(c, steps[..|steps| - 1], r) +
      if r < |before.requests| && Next(before, steps[|steps| - 1]).requests[r] != before.requests[r] then 1 else 0
  }

  lemma NextKeepsRequests(c: Client, step: Step)
    ensures |c.requests| <= |Next(c, step).requests|
  {
  }

  /**
    * A request is touched at most 13 times, plus twice for each time a refresh replays it: when
    * refreshes succeed finitely often, it ends. One that is done stays as it is.
    */
  lemma {:induction false} RequestsEnd(tab: Tab, mirror: Option<string>, steps: seq<Step>, r: nat)
    requires r < |Run(Fresh(tab, mirror), steps).requests|
    ensures var q := Run(Fresh(tab, mirror), steps).requests[r];
      Touches(Fresh(tab, mirror), steps, r) + Left(q) <= 13 + 2 * Replays(q.heard)
  {
    var earlier, step := steps[..|steps| - 1], steps[|steps| - 1];
    var before := Run(Fresh(tab, mirror), earlier);
    RequestsAccounted(tab, mirror, earlier);
    if r < |before.requests| {
      RequestsEnd(tab, mirror, earlier, r);
      TouchedRequestAdvances(before, step, r);
    } else {
      NoTouchYet(tab, mirror, earlier, r);
      JustStarted(before, step, r);
    }
  }

  lemma JustStarted(c: Client, step: Step, r: nat)
    requires |c.requests| <= r < |Next(c, step).requests|
    ensures Left(Next(c, step).requests[r]) == 13 && Replays(Next(c, step).requests[r].heard) == 0
  {
  }

  lemma {:induction false} NoTouchYet(tab: Tab, mirror: Option<string>, steps: seq<Step>, r: nat)
    requires r >= |Run(Fresh(tab, mirror), steps).requests|
    ensures Touches(Fresh(tab, mirror), steps, r) == 0
  {
    if steps != [] {
      NextKeepsRequests(Run(Fresh(tab, mirror), steps[..|steps| - 1]), steps[|steps| - 1]);
      NoTouchYet(tab, mirror, steps[..|steps| - 1], r);
    }
  }

  /** The step the code takes next for a request that is not done. */
  predicate Owes(c: Client, step: Step, r: nat)
    requires r < |c.requests|
  {
    match c.requests[r].phase
    case Sent => step.Answered? && step.r == r
    case BackingOff => step == BackoffOver(r)
    case Denied(_) => step == BodyRead(r)
    case Refreshing(f, _) =>
      if f < |c.posts| && c.posts[f].verdict.None? then step.RefreshSettled? else step == Resumed(r)
    case Done(_) => false
  }

  predicate Waits(c: Client, r: nat)
    requires r < |c.requests|
  {
    var phase := c.requests[r].phase;
    phase.Refreshing? && phase.flight < |c.posts| && c.posts[phase.flight].verdict.None?
  }

  /** The verdict that request r waits for is given by that step, and it can resume. */
  predicate Settles(c: Client, step: Step, r: nat)
    requires r < |c.requests| && c.requests[r].phase.Refreshing?
  {
    var d, f := Next(c, step), c.requests[r].phase.flight;
    |d.requests| == |c.requests| && d.requests[r] == c.requests[r] && f < |d.posts| && d.posts[f].verdict.Some?
  }

  lemma OwedStepMoves(c: Client, step: Step, r: nat)
    requires Sound(c) && r < |c.requests| && Owes(c, step, r)
    ensures if Waits(c, r) then Settles(c, step, r) else Next(c, step).requests[r] != c.requests[r]
  {
  }

  function SomeOwed(c: Client, r: nat): (step: Step)
    requires r < |c.requests| && !c.requests[r].phase.Done?
    ensures Owes(c, step, r)
  {
    match c.requests[r].phase
    case Sent => Answered(r, NetworkError, 0)
    case BackingOff => BackoffOver(r)
    case Denied(_) => BodyRead(r)
    case Refreshing(f, _) =>
      if f < |c.posts| && c.posts[f].verdict.None? then RefreshSettled(RefreshNetworkError) else Resumed(r)
  }

  /**
    * In every reachable state a request that is not done has a next step, and every such step changes it,
    * or gives the verdict it waits for. With the bound on changes, it ends.
    */
  lemma {:induction false} UnfinishedCanMove(tab: Tab, mirror: Option<string>, steps: seq<Step>, r: nat)
    requires var c := Run(Fresh(tab, mirror), steps);
      r < |c.requests| && !c.requests[r].phase.Done?
    ensures var c := Run(Fresh(tab, mirror), steps);
      (exists step :: Owes(c, step, r)) &&
      forall step :: Owes(c, step, r) ==>
        if Waits(c, r) then Settles(c, step, r) else Next(c, step).requests[r] != c.requests[r]
  {
    var c := Run(Fresh(tab, mirror), steps);
    RunSound(Fresh(tab, mirror), steps);
    assert Owes(c, SomeOwed(c, r), r);
    forall step | Owes(c, step, r)
      ensures if Waits(c, r) then Settles(c, step, r) else Next(c, step).requests[r] != c.requests[r]
    {
      OwedStepMoves(c, step, r);
    }
  }

  lemma DoneStaysDone(c: Client, step: Step, r: nat)
    requires r < |c.requests| && c.requests[r].phase.Done?
    ensures Next(c, step).requests[r] == c.requests[r]
  {
  }

  // No flight replays a request twice

  predicate Rising(heard: seq<Heard>) {
    forall i, j :: 0 <= i < j < |heard| ==> heard[i].flight < heard[j].flight
  }

  /** A request hears each flight once at most, and waits only for one it has not heard yet. */
  predicate Ordered(q: Request) {
    Rising(q.heard) &&
    (q.phase.Refreshing? ==> forall k :: 0 <= k < |q.heard| ==> q.heard[k].flight < q.phase.flight)
  }

  predicate AllOrdered(c: Client) {
    (c.flight.Some? ==> c.flight.value + 1 == |c.posts|) &&
    forall r :: 0 <= r < |c.requests| ==> Ordered(c.requests[r])
  }

  lemma TryRefreshOrdered(c: Client, r: nat, reply: Response)
    requires Sound(c) && AllOrdered(c) && r < |c.requests|
    ensures AllOrdered(TryRefresh(c, r, reply))
  {
  }

  lemma HeardOrdered(c: Client, r: nat)
    requires AllOrdered(c) && r < |c.requests| && c.requests[r].phase.Refreshing?
    requires c.requests[r].phase.flight < |c.posts| && c.posts[c.requests[r].phase.flight].verdict.Some?
    ensures AllOrdered(HearsVerdict(c, r))
  {
  }

  lemma NextOrdered(c: Client, step: Step)
    requires Sound(c) && AllOrdered(c)
    ensures AllOrdered(Next(c, step))
  {
    match step
    case Answered(r, reply, jitter) =>
      if r < |c.requests| && c.requests[r].phase == Sent && Refreshes(c.requests[r], reply) {
        TryRefreshOrdered(c, r, reply);
      }
    case Resumed(r) =>
      if r < |c.requests| && c.requests[r].phase.Refreshing? && c.posts[c.requests[r].phase.flight].verdict.Some? {
        HeardOrdered(c, r);
      }
    case _ =>
  }

  lemma {:induction false} RunOrdered(c: Client, steps: seq<Step>)
    requires Sound(c) && AllOrdered(c)
    ensures AllOrdered(Run(c, steps))
  {
    if steps != [] {
      RunOrdered(c, steps[..|steps| - 1]);
      RunSound(c, steps[..|steps| - 1]);
      NextOrdered(Run(c, steps[..|steps| - 1]), steps[|steps| - 1]);
    }
  }

  /** How many refresh POSTs were answered with tokens. */
  function Granted(posts: seq<RefreshPost>): nat {
    if posts == [] then 0
    else Granted(posts[..|posts| - 1]) + if posts[|posts| - 1].verdict == Some(true) then 1 else 0
  }

  lemma {:induction false} RisingReplays(posts: seq<RefreshPost>, heard: seq<Heard>)
    requires Rising(heard)
    requires forall k :: 0 <= k < |heard| ==>
      heard[k].flight < |posts| && posts[heard[k].flight].verdict == Some(heard[k].verdict)
    ensures Replays(heard) <= Granted(posts)
    decreases |posts|
  {
    if heard != [] {
      var n := |heard| - 1;
      assert heard[n].flight < |posts|;
      RisingReplays(posts[..|posts| - 1], if heard[n].flight == |posts| - 1 then heard[..n] else heard);
    }
  }

  /**
    * However the requests interleave, one of them is replayed no more often than the server granted
    * tokens in the whole run, so it sends 1 fetch, at most 2 retries and one replay per grant.
    */
  lemma {:induction false} ReplaysWithinGrants(tab: Tab, mirror: Option<string>, steps: seq<Step>, r: nat)
    requires r < |Run(Fresh(tab, mirror), steps).requests|
    ensures var c := Run(Fresh(tab, mirror), steps);
      Replays(c.requests[r].heard) <= Granted(c.posts) && c.requests[r].fetches <= 3 + Granted(c.posts)
  {
    var c := Run(Fresh(tab, mirror), steps);
    RunSound(Fresh(tab, mirror), steps);
    RunOrdered(Fresh(tab, mirror), steps);
    RequestsAccounted(tab, mirror, steps);
    assert Truthful(c, c.requests[r]) && Accounted(c.requests[r]);
    RisingReplays(c.posts, c.requests[r].heard);
  }

  /** Whatever the interleaving, the grants of a run bound how long any request can go on. */
  lemma {:induction false} GrantsBoundEveryRequest(tab: Tab, mirror: Option<string>, steps: seq<Step>, r: nat)
    requires r < |Run(Fresh(tab, mirror), steps).requests|
    ensures Touches(Fresh(tab, mirror), steps, r) <= 13 + 2 * Granted(Run(Fresh(tab, mirror), steps).posts)
  {
    RequestsEnd(tab, mirror, steps, r);
    ReplaysWithinGrants(tab, mirror, steps, r);
  }

  // The header comment speaks of one refresh a request; the code keeps no such count

  const STALE := Reply(401, true, None)

  function PairOf(k: nat): TokenPair { TokenPair("a" + Decimal.Print(k), "r" + Decimal.Print(k)) }

  function Grant(k: nat): (step: Step)
    ensures AuthTokens.IssuedBy(step) == Some(PairOf(k).refresh)
  {
    RefreshSettled(RefreshBody(Some(PairOf(k))))
  }

  /** A server that grants a new pair each time and goes on answering 401, k times over. */
  function Rejections(k: nat): seq<Step> {
    if k == 0 then [Login(PairOf(0))] + [Start(Get, false, None)]
    else Rejections(k - 1) + [Answered(0, STALE, 0)] + [Grant(k)] + [Resumed(0)]
  }

  /** One request, signed in, that heard of k granted refreshes, all there were, and was replayed each time. */
  predicate GoingOn(c: Client, k: nat) {
    c.tab == AfterSet(PairOf(k)) && c.flight == None && |c.posts| == k && Granted(c.posts) == k && |c.requests| == 1 &&
    c.requests[0].hadAuth && c.requests[0].phase == Sent && c.requests[0].fetches == k + 1 &&
    Replays(c.requests[0].heard) == k
  }

  predicate Awaiting(c: Client, k: nat, verdict: Option<bool>) {
    c.tab == AfterSet(PairOf(if verdict == Some(true) then k + 1 else k)) && |c.posts| == k + 1 &&
    Granted(c.posts) == (if verdict == Some(true) then k + 1 else k) && c.posts[k].verdict == verdict &&
    |c.requests| == 1 && c.requests[0].hadAuth && c.requests[0].phase == Refreshing(k, STALE) &&
    c.requests[0].fetches == k + 1 && Replays(c.requests[0].heard) == k &&
    c.flight == if verdict.None? then Some(k) else None
  }

  lemma GrantedLast(posts: seq<RefreshPost>, post: RefreshPost)
    ensures Granted(posts + [post]) == Granted(posts) + if post.verdict == Some(true) then 1 else 0
  {
    assert (posts + [post])[..|posts|] == posts;
  }

  lemma RejectionRefreshes(c: Client, k: nat)
    requires GoingOn(c, k)
    ensures Awaiting(Next(c, Answered(0, STALE, 0)), k, None)
  {
    GrantedLast(c.posts, RefreshPost(PairOf(k).refresh, None));
  }

  lemma GrantedOnce(posts: seq<RefreshPost>, post: RefreshPost)
    requires posts != [] && posts[|posts| - 1].verdict.None? && post.verdict == Some(true)
    ensures Granted(posts[|posts| - 1 := post]) == Granted(posts) + 1
  {
    var n := |posts| - 1;
    assert posts[n := post][..n] == posts[..n];
  }

  lemma GrantSettles(c: Client, k: nat)
    requires Awaiting(c, k, None)
    ensures Awaiting(Next(c, Grant(k + 1)), k, Some(true))
  {
    GrantedOnce(c.posts, c.posts[k].(verdict := Some(true)));
  }

  lemma GrantReplays(c: Client, k: nat)
    requires Awaiting(c, k, Some(true))
    ensures GoingOn(Next(c, Resumed(0)), k + 1)
  {
    var heard := c.requests[0].heard;
    assert (heard + [Heard(k, true)])[..|heard|] == heard;
  }

  lemma RejectedAgain(s: seq<Step>, k: nat)
    requires GoingOn(Run(Fresh(EMPTY_TAB, None), s), k)
    ensures GoingOn(Run(Fresh(EMPTY_TAB, None), s + [Answered(0, STALE, 0)] + [Grant(k + 1)] + [Resumed(0)]), k + 1)
  {
    var c, t := Fresh(EMPTY_TAB, None), s + [Answered(0, STALE, 0)];
    var u := t + [Grant(k + 1)];
    RunLast(c, s, Answered(0, STALE, 0));
    RejectionRefreshes(Run(c, s), k);
    RunLast(c, t, Grant(k + 1));
    GrantSettles(Run(c, t), k);
    RunLast(c, u, Resumed(0));
    GrantReplays(Run(c, u), k);
  }

  lemma LoginStarts(p: TokenPair)
    ensures Run(Fresh(EMPTY_TAB, None), [Login(p)]) == Stored(Fresh(EMPTY_TAB, None), p)
  {
    EmptyFirst([Login(p)]);
    RunLast(Fresh(EMPTY_TAB, None), [], Login(p));
  }

  lemma FirstRequestStarts(c: Client)
    requires c.tab == AfterSet(PairOf(0)) && c.flight == None && c.posts == [] && c.requests == []
    ensures GoingOn(Next(c, Start(Get, false, None)), 0)
  {
  }

  lemma FirstRequest()
    ensures GoingOn(Run(Fresh(EMPTY_TAB, None), [Login(PairOf(0))] + [Start(Get, false, None)]), 0)
  {
    LoginStarts(PairOf(0));
    RunLast(Fresh(EMPTY_TAB, None), [Login(PairOf(0))], Start(Get, false, None));
    FirstRequestStarts(Stored(Fresh(EMPTY_TAB, None), PairOf(0)));
  }

  lemma IssuedLast(steps: seq<Step>, step: Step)
    ensures AuthTokens.Known({}, steps + [step]) ==
            AuthTokens.Known({}, steps) + AuthTokens.AsSet(AuthTokens.IssuedBy(step))
    ensures AuthTokens.NeverReissues({}, steps + [step]) <==>
            AuthTokens.NeverReissues({}, steps) &&
            AuthTokens.AsSet(AuthTokens.IssuedBy(step)) !! AuthTokens.Known({}, steps)
  {
    assert (steps + [step])[..|steps|] == steps;
  }

  /** Every token handed out in the first k rounds carries a number up to k. */
  ghost predicate NumberedUpTo(known: set<string>, k: nat) {
    forall v :: v in known ==> IsNumbered(v, k)
  }

  ghost predicate IsNumbered(v: string, k: nat) { exists j: nat :: j <= k && v == PairOf(j).refresh }

  lemma NextNumberIsNew(known: set<string>, k: nat)
    requires NumberedUpTo(known, k)
    ensures PairOf(k + 1).refresh !in known
  {
    if PairOf(k + 1).refresh in known {
      var j: nat :| j <= k && PairOf(k + 1).refresh == PairOf(j).refresh;
      assert PairOf(k + 1).refresh[1..] == Decimal.Print(k + 1) && PairOf(j).refresh[1..] == Decimal.Print(j);
      Decimal.PrintInjective(k + 1, j);
    }
  }

  lemma OneMoreNumber(known: set<string>, k: nat)
    requires NumberedUpTo(known, k)
    ensures NumberedUpTo(known + {PairOf(k + 1).refresh}, k + 1)
  {
    var more := known + {PairOf(k + 1).refresh};
    forall v | v in more ensures IsNumbered(v, k + 1) {
      if v in known {
        assert IsNumbered(v, k);
        var j: nat :| j <= k && v == PairOf(j).refresh;
      }
    }
  }

  lemma RoundNeverReissues(s: seq<Step>, k: nat)
    requires AuthTokens.NeverReissues({}, s) && NumberedUpTo(AuthTokens.Known({}, s), k)
    ensures var t := s + [Answered(0, STALE, 0)] + [Grant(k + 1)] + [Resumed(0)];
      AuthTokens.NeverReissues({}, t) && NumberedUpTo(AuthTokens.Known({}, t), k + 1)
  {
    var known, t := AuthTokens.Known({}, s), s + [Answered(0, STALE, 0)];
    NextNumberIsNew(known, k);
    IssuedLast(s, Answered(0, STALE, 0));
    assert AuthTokens.Known({}, t) == known;
    IssuedLast(t, Grant(k + 1));
    OneMoreNumber(known, k);
    IssuedLast(t + [Grant(k + 1)], Resumed(0));
    assert AuthTokens.Known({}, t + [Grant(k + 1)] + [Resumed(0)]) == known + {PairOf(k + 1).refresh};
  }

  lemma FirstNeverReissues()
    ensures AuthTokens.NeverReissues({}, Rejections(0)) && NumberedUpTo(AuthTokens.Known({}, Rejections(0)), 0)
  {
    IssuedLast([], Login(PairOf(0)));
    IssuedLast([Login(PairOf(0))], Start(Get, false, None));
    assert [] + [Login(PairOf(0))] == [Login(PairOf(0))];
    assert AuthTokens.Known({}, Rejections(0)) == {PairOf(0).refresh};
  }

  /** That server never hands out the same refresh token twice. */
  lemma {:induction false} RejectionsNeverReissue(k: nat)
    ensures AuthTokens.NeverReissues({}, Rejections(k)) && NumberedUpTo(AuthTokens.Known({}, Rejections(k)), k)
  {
    if k == 0 {
      FirstNeverReissues();
    } else {
      RejectionsNeverReissue(k - 1);
      RoundNeverReissues(Rejections(k - 1), k - 1);
    }
  }

  /**
    * For every k there is a run, with a server that never reissues a token, in which one request hears of k
    * granted refreshes, is replayed each time and is still going.
    */
  lemma {:induction false} RefreshesWithoutBound(k: nat)
    ensures GoingOn(Run(Fresh(EMPTY_TAB, None), Rejections(k)), k) && AuthTokens.NeverReissues({}, Rejections(k))
  {
    RejectionsNeverReissue(k);
    if k == 0 {
      FirstRequest();
    } else {
      RefreshesWithoutBound(k - 1);
      RejectedAgain(Rejections(k - 1), k - 1);
    }
  }

  /** In a run with at most n grants request r is replayed at most m times. */
  ghost predicate ReplayedAtMost(n: nat, m: nat, tab: Tab, mirror: Option<string>, steps: seq<Step>, r: nat) {
    var c := Run(Fresh(tab, mirror), steps);
    r < |c.requests| && Granted(c.posts) <= n ==> Replays(c.requests[r].heard) <= m
  }

  /**
    * Every request of every run with at most n grants is replayed at most m times if and only if n <= m,
    * and a server that never reissues a token makes no difference. So one replay a request, as the header
    * comment says, is all that a caller can rely on only while the server grants tokens at most once.
    */
  lemma {:induction false} ReplayBoundIff(n: nat, m: nat)
    ensures (forall tab: Tab, mirror: Option<string>, steps: seq<Step>, r: nat ::
              ReplayedAtMost(n, m, tab, mirror, steps, r)) <==> n <= m
    ensures (forall tab: Tab, mirror: Option<string>, steps: seq<Step>, r: nat ::
              AuthTokens.NeverReissues(AuthTokens.AsSet(tab.sessionRefresh), steps) ==>
                ReplayedAtMost(n, m, tab, mirror, steps, r)) <==> n <= m
  {
    if n <= m {
      forall tab: Tab, mirror: Option<string>, steps: seq<Step>, r: nat
        ensures ReplayedAtMost(n, m, tab, mirror, steps, r)
      {
        if r < |Run(Fresh(tab, mirror), steps).requests| {
          ReplaysWithinGrants(tab, mirror, steps, r);
        }
      }
    } else {
      RefreshesWithoutBound(n);
      assert AuthTokens.NeverReissues(AuthTokens.AsSet(EMPTY_TAB.sessionRefresh), Rejections(n));
      assert !ReplayedAtMost(n, m, EMPTY_TAB, None, Rejections(n), 0);
    }
  }
}

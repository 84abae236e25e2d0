/** What the request protocol of src/api/client.ts does to the stored tokens, over whole runs. */
module AuthTokens {
  import opened Options
  import opened TokenStorage
  import opened AuthFlow

  // A refresh token is exchanged once

  function IssuedBy(step: Step): Option<string> {
    match step
    case RefreshSettled(reply) => if Grants(reply) then Some(reply.tokens.value.refresh) else None
    case Login(p) => Some(p.refresh)
    case _ => None
  }

  function AsSet(v: Option<string>): set<string> { if v.Some? then {v.value} else {} }

  /** The refresh tokens known during a run: those at its start and those the server handed out. */
  function Known(first: set<string>, steps: seq<Step>): set<string> {
    if steps == [] then first else Known(first, steps[..|steps| - 1]) + AsSet(IssuedBy(steps[|steps| - 1]))
  }

  /** The server never hands out a refresh token that was already around. */
  predicate NeverReissues(first: set<string>, steps: seq<Step>) {
    steps == [] ||
    var earlier := steps[..|steps| - 1];
    NeverReissues(first, earlier) && AsSet(IssuedBy(steps[|steps| - 1])) !! Known(first, earlier)
  }

  /** Memory caches session storage or nothing. */
  predicate Coherent(tab: Tab) { tab.memRefresh == None || tab.memRefresh == tab.sessionRefresh }

  /** The token of POST i was exchanged for a new pair. */
  predicate Exchanged(c: Client, i: int) { 0 <= i < |c.posts| && c.posts[i].verdict == Some(true) }

  ghost predicate ExchangedOnce(c: Client, known: set<string>) {
    && (c.flight.Some? ==> c.flight.value + 1 == |c.posts|)
    && Coherent(c.tab)
    && (c.tab.sessionRefresh.Some? ==>
          c.tab.sessionRefresh.value in known &&
          forall i :: Exchanged(c, i) ==> c.posts[i].token != c.tab.sessionRefresh.value)
    && (forall i :: 0 <= i < |c.posts| ==> c.posts[i].token in known)
    && (forall i, j :: Exchanged(c, i) && i < j < |c.posts| ==> c.posts[j].token != c.posts[i].token)
  }

  lemma TryRefreshOnce(c: Client, r: nat, reply: Response, known: set<string>)
    requires ExchangedOnce(c, known) && r < |c.requests|
    ensures ExchangedOnce(TryRefresh(c, r, reply), known)
  {
  }

  lemma SettledOnce(c: Client, reply: RefreshReply, known: set<string>)
    requires ExchangedOnce(c, known) && c.flight.Some?
    requires Grants(reply) ==> reply.tokens.value.refresh !in known
    ensures ExchangedOnce(Settled(c, reply), known + AsSet(IssuedBy(RefreshSettled(reply))))
  {
  }

  lemma OthersOnce(c: Client, d: Client, known: set<string>, more: set<string>)
    requires ExchangedOnce(c, known) && more !! known
    requires d.posts == c.posts && d.flight == c.flight && Coherent(d.tab)
    requires d.tab.sessionRefresh.Some? ==>
               d.tab.sessionRefresh == c.tab.sessionRefresh || d.tab.sessionRefresh.value in more
    ensures ExchangedOnce(d, known + more)
  {
  }

  lemma NextOnce(c: Client, step: Step, known: set<string>)
    requires ExchangedOnce(c, known) && AsSet(IssuedBy(step)) !! known
    ensures ExchangedOnce(Next(c, step), known + AsSet(IssuedBy(step)))
  {
    if step.Answered? && step.r < |c.requests| && c.requests[step.r].phase == Sent &&
       Refreshes(c.requests[step.r], step.reply) {
      TryRefreshOnce(c, step.r, step.reply, known);
      assert known + {} == known;
    } else if step.RefreshSettled? && c.flight.Some? {
      SettledOnce(c, step.refreshed, known);
    } else {
      OthersOnce(c, Next(c, step), known, AsSet(IssuedBy(step)));
    }
  }

  lemma {:induction false} RunOnce(c: Client, first: set<string>, steps: seq<Step>)
    requires ExchangedOnce(c, first) && NeverReissues(first, steps)
    ensures ExchangedOnce(Run(c, steps), Known(first, steps))
  {
    if steps != [] {
      var earlier, step := steps[..|steps| - 1], steps[|steps| - 1];
      RunOnce(c, first, earlier);
      NextOnce(Run(c, earlier), step, Known(first, earlier));
    }
  }

  /**
    * A refresh token that was exchanged is never sent again, in any interleaving of any number of
    * requests, logins and logouts, as long as the server never hands out the same token twice.
    */
  lemma ExchangedTokenNeverResent(tab: Tab, mirror: Option<string>, steps: seq<Step>, i: nat, j: nat)
    requires Coherent(tab) && NeverReissues(AsSet(tab.sessionRefresh), steps)
    requires var c := Run(Fresh(tab, mirror), steps);
      Exchanged(c, i) && i < j < |c.posts|
    ensures var c := Run(Fresh(tab, mirror), steps);
      c.posts[j].token != c.posts[i].token
  {
    assert ExchangedOnce(Fresh(tab, mirror), AsSet(tab.sessionRefresh));
    RunOnce(Fresh(tab, mirror), AsSet(tab.sessionRefresh), steps);
  }

  // When tokens are lost

  /** The codes that end a session for good. */
  predicate IsFinal(code: Option<string>) {
    code == Some("auth.token_invalid") || code == Some("auth.token_expired") || code == Some("auth.refresh_expired")
  }

  /** The refreshed pair, if both tokens are there. */
  function PairIn(reply: RefreshReply): Option<TokenPair> {
    match reply
    case RefreshBody(Some(p)) => if p.access == "" || p.refresh == "" then None else Some(p)
    case _ => None
  }

  /** Exactly these steps can empty a store that holds a refresh token. */
  predicate Empties(c: Client, step: Step) {
    match step
    case Logout => true
    case RefreshSettled(reply) =>
      c.flight.Some? &&
      (match reply
       case RefreshNetworkError => false
       case RefreshRefused(code) => IsFinal(code)
       case RefreshBody(_) => PairIn(reply) == None)
    case BodyRead(r) =>
      r < |c.requests| && c.requests[r].phase.Denied? && c.requests[r].phase.reply.Reply? &&
      IsFinal(c.requests[r].phase.reply.code)
    case _ => false
  }

  lemma TokensLostIff(c: Client, step: Step)
    requires Sound(c) && c.tab.sessionRefresh.Some?
    ensures Next(c, step).tab.sessionRefresh.None? <==> Empties(c, step)
    ensures Empties(c, step) ==> Next(c, step).tab == EMPTY_TAB && Next(c, step).mirror == None
  {
  }

  /** A refresh that failed without ending the session leaves the tokens as they were. */
  lemma TransientSettleKeeps(c: Client, r: nat, refreshed: RefreshReply)
    requires Sound(c) && r < |c.requests| && c.requests[r].phase.Refreshing?
    requires c.flight == Some(c.requests[r].phase.flight) && !Grants(refreshed) && !EndsSession(refreshed)
    ensures var d := Next(Next(c, RefreshSettled(refreshed)), Resumed(r));
      d.tab == c.tab && |d.requests| == |c.requests| && d.requests[r].phase == Denied(c.requests[r].phase.reply)
  {
    var settled := Next(c, RefreshSettled(refreshed));
    assert settled.tab == c.tab && settled.requests == c.requests;
  }

  /**
    * A request whose refresh fails for a passing reason keeps the tokens if and only if its own 401 did
    * not carry a definitive code: an expired access token and a network error together end the session.
    */
  lemma FailedRefreshKeepsTokensIff(c: Client, r: nat, refreshed: RefreshReply)
    requires Sound(c) && c.tab.sessionRefresh.Some? && r < |c.requests| && c.requests[r].phase.Refreshing?
    requires c.requests[r].phase.reply.Reply?
    requires c.flight == Some(c.requests[r].phase.flight) && !Grants(refreshed) && !EndsSession(refreshed)
    ensures var d := Next(Next(Next(c, RefreshSettled(refreshed)), Resumed(r)), BodyRead(r));
      d.tab.sessionRefresh.Some? <==> !IsFinal(c.requests[r].phase.reply.code)
  {
    TransientSettleKeeps(c, r, refreshed);
  }

  const EXPIRED_REPLY: Response := Reply(401, true, Some("auth.token_expired"))

  /** Sign in, send, and be told that the access token has expired. */
  function Expired(p: TokenPair): seq<Step> {
    [Login(p)] + [Start(Get, false, None)] + [Answered(0, EXPIRED_REPLY, 0)]
  }

  function Waiting(p: TokenPair): (c: Client)
    ensures c.tab == AfterSet(p)
  {
    var q := Request(Get, true, Some(p.access), Refreshing(0, EXPIRED_REPLY), 0, 1, 0, [], Some(EXPIRED_REPLY));
    Client(AfterSet(p), Some(p.access), [q], Some(0), [RefreshPost(p.refresh, None)])
  }

  lemma {:induction false} ExpiredWaits(p: TokenPair)
    requires p.access != "" && p.refresh != ""
    ensures Run(Fresh(EMPTY_TAB, None), Expired(p)) == Waiting(p)
  {
    var c := Fresh(EMPTY_TAB, None);
    RunLast(c, [], Login(p));
    assert [] + [Login(p)] == [Login(p)];
    RunLast(c, [Login(p)], Start(Get, false, None));
    RunLast(c, [Login(p)] + [Start(Get, false, None)], Answered(0, EXPIRED_REPLY, 0));
  }

  /** The plainest run in which that happens: the access token expires while the network is down. */
  lemma {:induction false} PassingFailureLosesTokens(p: TokenPair)
    requires p.access != "" && p.refresh != ""
    ensures var steps := Expired(p) + [RefreshSettled(RefreshNetworkError)] + [Resumed(0)] + [BodyRead(0)];
      Run(Fresh(EMPTY_TAB, None), steps).tab.sessionRefresh == None
  {
    var c, settle := Fresh(EMPTY_TAB, None), RefreshSettled(RefreshNetworkError);
    ExpiredWaits(p);
    FailedRefreshKeepsTokensIff(Waiting(p), 0, RefreshNetworkError);
    RunLast(c, Expired(p), settle);
    RunLast(c, Expired(p) + [settle], Resumed(0));
    RunLast(c, Expired(p) + [settle] + [Resumed(0)], BodyRead(0));
  }

  /** A request that waits for a refresh, or was denied one, had sent a token and met a 401. */
  predicate CauseIs401(q: Request) {
    (q.phase.Refreshing? || q.phase.Denied?) ==>
      q.hadAuth && q.last == Some(q.phase.reply) && q.phase.reply.Reply? && q.phase.reply.status == 401
  }

  predicate AllCausesAre401(c: Client) {
    forall r :: 0 <= r < |c.requests| ==> CauseIs401(c.requests[r])
  }

  lemma NextCause(c: Client, step: Step)
    requires AllCausesAre401(c)
    ensures AllCausesAre401(Next(c, step))
  {
  }

  /**
    * The step that denied request r its replay: its 401 met no refresh token at all, or it was just told
    * that the refresh it waited for had failed.
    */
  predicate Denies(c: Client, step: Step, r: nat) {
    r < |c.requests| &&
    match step
    case Answered(s, reply, _) =>
      s == r && c.requests[r].phase == Sent && Refreshes(c.requests[r], reply) && !Truthy(RefreshOf(c.tab, false))
    case Resumed(s) =>
      s == r && c.requests[r].phase.Refreshing? && c.requests[r].phase.flight < |c.posts| &&
      c.posts[c.requests[r].phase.flight].verdict == Some(false)
    case _ => false
  }

  /** Step i of the run denied request r, which has stood still since. */
  ghost predicate DeniedAt(start: Client, steps: seq<Step>, i: nat, r: nat) {
    i < |steps| && Denies(Run(start, steps[..i]), steps[i], r) &&
    r < |Run(start, steps).requests| && r < |Run(start, steps[..i + 1]).requests| &&
    Run(start, steps[..i + 1]).requests[r] == Run(start, steps).requests[r]
  }

  lemma NextDenied(c: Client, step: Step, r: nat)
    requires r < |Next(c, step).requests| && Next(c, step).requests[r].phase.Denied?
    ensures Denies(c, step, r) || (r < |c.requests| && c.requests[r] == Next(c, step).requests[r])
    ensures Denies(c, step, r) && step.Resumed? ==>
              Next(c, step).requests[r].heard == c.requests[r].heard + [Heard(c.requests[r].phase.flight, false)]
  {
  }

  lemma DeniedLater(start: Client, steps: seq<Step>, i: nat, r: nat)
    requires steps != [] && DeniedAt(start, steps[..|steps| - 1], i, r)
    requires r < |Run(start, steps).requests|
    requires Run(start, steps).requests[r] == Run(start, steps[..|steps| - 1]).requests[r]
    ensures DeniedAt(start, steps, i, r)
  {
    assert steps[..|steps| - 1][..i] == steps[..i] && steps[..|steps| - 1][..i + 1] == steps[..i + 1];
  }

  /**
    * In every run a request is denied only after a 401 to a token it sent, and only because there was no
    * refresh token at that moment or because the refresh it waited for failed.
    */
  lemma {:induction false} DeniedOnlyAfterFailedRefresh(tab: Tab, mirror: Option<string>, steps: seq<Step>, r: nat)
    requires r < |Run(Fresh(tab, mirror), steps).requests| && Run(Fresh(tab, mirror), steps).requests[r].phase.Denied?
    ensures exists i :: DeniedAt(Fresh(tab, mirror), steps, i, r)
  {
    var start, earlier := Fresh(tab, mirror), steps[..|steps| - 1];
    NextDenied(Run(start, earlier), steps[|steps| - 1], r);
    if Denies(Run(start, earlier), steps[|steps| - 1], r) {
      assert steps[..|steps|] == steps;
      assert DeniedAt(start, steps, |steps| - 1, r);
    } else {
      DeniedOnlyAfterFailedRefresh(tab, mirror, earlier, r);
      var i: nat :| DeniedAt(start, earlier, i, r);
      DeniedLater(start, steps, i, r);
    }
  }

  /** In every reachable state only a 401 to a request that sent a token is refreshed or denied. */
  lemma {:induction false} DeniedOnlyAfter401(tab: Tab, mirror: Option<string>, steps: seq<Step>)
    ensures AllCausesAre401(Run(Fresh(tab, mirror), steps))
  {
    if steps != [] {
      DeniedOnlyAfter401(tab, mirror, steps[..|steps| - 1]);
      NextCause(Run(Fresh(tab, mirror), steps[..|steps| - 1]), steps[|steps| - 1]);
    }
  }

  // The stored pair over whole runs

  /** The pair a step stores: at a login, or when an outstanding refresh is granted. */
  function StoredBy(c: Client, step: Step): Option<TokenPair> {
    match step
    case Login(p) => Some(p)
    case RefreshSettled(reply) => if c.flight.Some? then PairIn(reply) else None
    case _ => None
  }

  /** The pair that should be stored after a run: the one stored last, unless a step emptied the store since. */
  function StoredPair(start: Client, p: Option<TokenPair>, steps: seq<Step>): Option<TokenPair> {
    if steps == [] then p
    else
      var earlier, step := steps[..|steps| - 1], steps[|steps| - 1];
      var before := Run(start, earlier);
      if StoredBy(before, step).Some? then StoredBy(before, step)
      else if Empties(before, step) then None
      else StoredPair(start, p, earlier)
  }

  /** The tab holds that pair; or nothing of its own, at most the mirror's access token in memory. */
  predicate Carries(tab: Tab, p: Option<TokenPair>) {
    match p
    case Some(pair) => Holds(tab, pair)
    case None => tab.sessionAccess == None && tab.sessionRefresh == None && tab.memRefresh == None
  }

  lemma NextCarries(c: Client, step: Step, p: Option<TokenPair>)
    requires Sound(c) && Carries(c.tab, p)
    ensures Carries(Next(c, step).tab,
                    if StoredBy(c, step).Some? then StoredBy(c, step) else if Empties(c, step) then None else p)
  {
  }

  /**
    * In every run, whatever the server answers and however requests, refreshes, logins and logouts
    * interleave, the tab holds exactly the pair stored last, or nothing if a step emptied the store since.
    */
  lemma {:induction false} StoredPairIsHeld(tab: Tab, mirror: Option<string>, p: Option<TokenPair>, steps: seq<Step>)
    requires Carries(tab, p)
    ensures Carries(Run(Fresh(tab, mirror), steps).tab, StoredPair(Fresh(tab, mirror), p, steps))
  {
    if steps != [] {
      var start, earlier := Fresh(tab, mirror), steps[..|steps| - 1];
      StoredPairIsHeld(tab, mirror, p, earlier);
      RunSound(start, earlier);
      NextCarries(Run(start, earlier), steps[|steps| - 1], StoredPair(start, p, earlier));
    }
  }

  /** Step i emptied the store, and nothing was stored after it. */
  ghost predicate EmptiedAt(start: Client, steps: seq<Step>, i: nat) {
    i < |steps| && Empties(Run(start, steps[..i]), steps[i]) &&
    forall j :: i < j < |steps| ==> StoredBy(Run(start, steps[..j]), steps[j]).None?
  }

  lemma EmptiedLater(start: Client, steps: seq<Step>, i: nat)
    requires steps != [] && EmptiedAt(start, steps[..|steps| - 1], i)
    requires StoredBy(Run(start, steps[..|steps| - 1]), steps[|steps| - 1]).None?
    ensures EmptiedAt(start, steps, i)
  {
    forall j | 0 <= j < |steps| ensures steps[..|steps| - 1][..j] == steps[..j] {
    }
  }

  lemma {:induction false} LostAtAnEnd(start: Client, p: TokenPair, steps: seq<Step>)
    requires StoredPair(start, Some(p), steps).None?
    ensures exists i :: EmptiedAt(start, steps, i)
  {
    var earlier, step := steps[..|steps| - 1], steps[|steps| - 1];
    if Empties(Run(start, earlier), step) {
      assert EmptiedAt(start, steps, |steps| - 1);
    } else {
      LostAtAnEnd(start, p, earlier);
      var i: nat :| EmptiedAt(start, earlier, i);
      EmptiedLater(start, steps, i);
    }
  }

  /**
    * In every run a tab that started with a pair holds the pair stored last, or lost it at a step that
    * ends the session: a logout, a refresh refused for good or answered without tokens, or the body of
    * a denied 401 with a definitive code. Nothing else, an expired access token included, costs it.
    */
  lemma {:induction false} TokensSurviveTransientFailures(tab: Tab, mirror: Option<string>, p: TokenPair,
                                                          steps: seq<Step>)
    requires Holds(tab, p)
    ensures var start := Fresh(tab, mirror);
      var stored := StoredPair(start, Some(p), steps);
      if stored.Some? then Holds(Run(start, steps).tab, stored.value) else exists i :: EmptiedAt(start, steps, i)
  {
    StoredPairIsHeld(tab, mirror, Some(p), steps);
    if StoredPair(Fresh(tab, mirror), Some(p), steps).None? {
      LostAtAnEnd(Fresh(tab, mirror), p, steps);
    }
  }

  /** In every run a replay carries the access token of the pair stored last, whichever request obtained it. */
  lemma {:induction false} ReplayCarriesLatestToken(tab: Tab, mirror: Option<string>, p: Option<TokenPair>,
                                                    steps: seq<Step>, r: nat)
    requires Carries(tab, p)
    requires var c := Run(Fresh(tab, mirror), steps);
      r < |c.requests| && c.requests[r].phase.Refreshing? && c.requests[r].phase.flight < |c.posts| &&
      c.posts[c.requests[r].phase.flight].verdict == Some(true)
    ensures var stored := StoredPair(Fresh(tab, mirror), p, steps);
      var q := Next(Run(Fresh(tab, mirror), steps), Resumed(r)).requests[r];
      q.phase == Sent && (stored.Some? && stored.value.access != "" ==> q.header == Some(stored.value.access))
  {
    StoredPairIsHeld(tab, mirror, p, steps);
  }

  /** A request goes out with the header it was given, or with the access token of the pair stored last. */
  lemma {:induction false} FirstFetchCarriesLatestToken(tab: Tab, mirror: Option<string>, p: Option<TokenPair>,
                                                        steps: seq<Step>, verb: Method, skipAuth: bool,
                                                        given: Option<string>)
    requires Carries(tab, p)
    ensures var c, stored := Run(Fresh(tab, mirror), steps), StoredPair(Fresh(tab, mirror), p, steps);
      var qs := Next(c, Start(verb, skipAuth, given)).requests;
      |qs| == |c.requests| + 1 &&
      var q := qs[|c.requests|];
      && q.verb == verb && q.phase == Sent && q.hadAuth == (!skipAuth && q.header != None && q.header != Some(""))
      && (skipAuth || given.Some? ==> q.header == given)
      && (!skipAuth && given.None? && stored.Some? ==>
            q.header == if stored.value.access == "" then None else Some(stored.value.access))
  {
    StoredPairIsHeld(tab, mirror, p, steps);
  }

  /**
    * A 401 to a token that was sent starts a refresh if and only if none is under way and a refresh token
    * is stored, and the refresh sends the one of the pair stored last.
    */
  lemma {:induction false} RefreshStartsIff(tab: Tab, mirror: Option<string>, p: Option<TokenPair>, steps: seq<Step>,
                                            r: nat, reply: Response, jitter: nat)
    requires Carries(tab, p)
    requires var c := Run(Fresh(tab, mirror), steps);
      r < |c.requests| && c.requests[r].phase == Sent && c.requests[r].hadAuth
    requires reply.Reply? && reply.status == 401
    ensures var c, stored := Run(Fresh(tab, mirror), steps), StoredPair(Fresh(tab, mirror), p, steps);
      var d := Next(c, Answered(r, reply, jitter));
      if c.flight == None && stored.Some? && stored.value.refresh != "" then
        d.posts == c.posts + [RefreshPost(stored.value.refresh, None)] && d.flight == Some(|c.posts|)
      else d.posts == c.posts && d.flight == c.flight
  {
    StoredPairIsHeld(tab, mirror, p, steps);
  }
}

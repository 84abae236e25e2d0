/** Many tabs of one browser over the token storage of src/api/token-storage.ts. */
module TokenTabs {
  import opened Options
  import opened TokenStorage

  datatype Browser = Browser(tabs: seq<Tab>, mirror: Option<string>)

  datatype Action = Set(tokens: TokenPair) | GetAccess | GetRefresh | Clear | Reload

  /** One tab doing one thing. */
  datatype Step = Step(tab: nat, action: Action)

  /** Every tab of the browser just opened, nothing stored. */
  function Start(n: nat): Browser { Browser(seq(n, _ => EMPTY_TAB), None) }

  function Next(b: Browser, s: Step): (b': Browser)
    ensures |b'.tabs| == |b.tabs|
  {
    if s.tab >= |b.tabs| then b
    else
      var tab := b.tabs[s.tab];
      match s.action
      case Set(p) => Browser(b.tabs[s.tab := AfterSet(p)], Some(p.access))
      case GetAccess => b.(tabs := b.tabs[s.tab := AfterAccess(tab, b.mirror, false)])
      case GetRefresh => b.(tabs := b.tabs[s.tab := AfterRefresh(tab, false)])
      case Clear => Browser(b.tabs[s.tab := EMPTY_TAB], None)
      case Reload => b.(tabs := b.tabs[s.tab := AfterReload(tab)])
  }

  /** The browser after the steps, the last of which is the latest. */
  function Run(b: Browser, steps: seq<Step>): (b': Browser)
    ensures |b'.tabs| == |b.tabs|
  {
    if steps == [] then b else Next(Run(b, steps[..|steps| - 1]), steps[|steps| - 1])
  }

  /** The pair that tab t set last, unless it cleared since. */
  function OwnPair(steps: seq<Step>, t: nat): Option<TokenPair> {
    if steps == [] then None
    else
      var s := steps[|steps| - 1];
      if s.tab == t && s.action.Set? then Some(s.action.tokens)
      else if s.tab == t && s.action.Clear? then None
      else OwnPair(steps[..|steps| - 1], t)
  }

  lemma {:induction false} OwnPairHeld(n: nat, steps: seq<Step>, t: nat)
    requires t < n && OwnPair(steps, t).Some?
    ensures Holds(Run(Start(n), steps).tabs[t], OwnPair(steps, t).value)
  {
    var s := steps[|steps| - 1];
    if s.tab != t || !s.action.Set? {
      OwnPairHeld(n, steps[..|steps| - 1], t);
    }
  }

  /**
    * In every interleaving of the tabs' calls and reloads, a tab that has set tokens since its last
    * clear reads back exactly the pair it set last, whatever the other tabs did.
    */
  lemma OwnTokensReadBack(n: nat, steps: seq<Step>, t: nat)
    requires t < n && OwnPair(steps, t).Some?
    ensures var b := Run(Start(n), steps);
      && AccessOf(b.tabs[t], b.mirror, false) == Some(OwnPair(steps, t).value.access)
      && RefreshOf(b.tabs[t], false) == Some(OwnPair(steps, t).value.refresh)
  {
    OwnPairHeld(n, steps, t);
  }

  /** Once read they are held in memory too. */
  lemma OwnTokensCached(n: nat, steps: seq<Step>, t: nat)
    requires t < n && OwnPair(steps, t).Some?
    ensures var b, p := Run(Start(n), steps), OwnPair(steps, t).value;
      && (p.access != "" ==> Next(b, Step(t, GetAccess)).tabs[t].memAccess == Some(p.access))
      && Next(b, Step(t, GetRefresh)).tabs[t].memRefresh == Some(p.refresh)
  {
    OwnPairHeld(n, steps, t);
  }

  predicate SetsNothing(steps: seq<Step>) { forall i :: 0 <= i < |steps| ==> !steps[i].action.Set? }

  lemma {:induction false} RunConcat(b: Browser, first: seq<Step>, second: seq<Step>)
    ensures Run(b, first + second) == Run(Run(b, first), second)
  {
    if second == [] {
      assert first + second == first;
    } else {
      var m := |second| - 1;
      assert (first + second)[..|first| + m] == first + second[..m];
      RunConcat(b, first, second[..m]);
    }
  }

  /** Nothing stored for tab t and nothing in the mirror: no step but a Set can change that. */
  lemma {:induction false} StaysEmpty(b: Browser, steps: seq<Step>, t: nat)
    requires t < |b.tabs| && b.tabs[t] == EMPTY_TAB && b.mirror == None && SetsNothing(steps)
    ensures Run(b, steps).tabs[t] == EMPTY_TAB && Run(b, steps).mirror == None
  {
    if steps != [] {
      StaysEmpty(b, steps[..|steps| - 1], t);
    }
  }

  /** After a clear the tab has no tokens, and goes on having none until some tab sets tokens. */
  lemma ClearedUntilSomeTabSets(n: nat, before: seq<Step>, t: nat, after: seq<Step>)
    requires t < n && SetsNothing(after)
    ensures var b := Run(Start(n), before + [Step(t, Clear)] + after);
      AccessOf(b.tabs[t], b.mirror, false) == None && RefreshOf(b.tabs[t], false) == None
  {
    var cleared := before + [Step(t, Clear)];
    RunConcat(Start(n), cleared, after);
    assert cleared[..|before|] == before;
    StaysEmpty(Run(Start(n), cleared), after, t);
  }

  /** Some tab set this access token earlier in the run. */
  predicate WasSet(steps: seq<Step>, access: string) {
    exists i :: 0 <= i < |steps| && steps[i].action.Set? && steps[i].action.tokens.access == access
  }

  predicate FromRun(v: Option<string>, steps: seq<Step>) { v.Some? ==> WasSet(steps, v.value) }

  lemma WasSetLater(v: Option<string>, steps: seq<Step>)
    requires steps != [] && FromRun(v, steps[..|steps| - 1])
    ensures FromRun(v, steps)
  {
  }

  /** No tab ever reads an access token that no tab set, not even through a stale cache or the mirror. */
  lemma {:induction false} AccessComesFromSomeSet(n: nat, steps: seq<Step>, t: nat)
    requires t < n
    ensures var b := Run(Start(n), steps);
      && FromRun(b.mirror, steps) && FromRun(b.tabs[t].memAccess, steps) && FromRun(b.tabs[t].sessionAccess, steps)
      && FromRun(AccessOf(b.tabs[t], b.mirror, false), steps)
  {
    if steps != [] {
      var earlier := steps[..|steps| - 1];
      var b := Run(Start(n), earlier);
      AccessComesFromSomeSet(n, earlier, t);
      WasSetLater(b.mirror, steps);
      WasSetLater(b.tabs[t].memAccess, steps);
      WasSetLater(b.tabs[t].sessionAccess, steps);
    }
  }

  // What a tab without tokens of its own reads

  /** The access token that any tab set last, unless some tab cleared since. */
  function LatestAccess(n: nat, steps: seq<Step>): Option<string> {
    if steps == [] then None
    else
      var s := steps[|steps| - 1];
      if s.tab < n && s.action.Set? then Some(s.action.tokens.access)
      else if s.tab < n && s.action.Clear? then None
      else LatestAccess(n, steps[..|steps| - 1])
  }

  /** The tab has read an access token since it was opened, cleared or reloaded last. */
  predicate HasRead(steps: seq<Step>, t: nat) {
    steps != [] &&
    var s := steps[|steps| - 1];
    if s.tab == t && s.action.GetAccess? then true
    else if s.tab == t && (s.action.Clear? || s.action.Reload?) then false
    else HasRead(steps[..|steps| - 1], t)
  }

  lemma {:induction false} NothingOwn(n: nat, steps: seq<Step>, t: nat)
    requires t < n && OwnPair(steps, t).None?
    ensures var b := Run(Start(n), steps);
      b.tabs[t].sessionAccess == None && b.tabs[t].sessionRefresh == None && b.tabs[t].memRefresh == None &&
      b.mirror == LatestAccess(n, steps) && (!HasRead(steps, t) ==> b.tabs[t].memAccess == None)
  {
    if steps != [] {
      MirrorIsLatest(n, steps);
      if !(steps[|steps| - 1].tab == t && steps[|steps| - 1].action.Clear?) {
        NothingOwn(n, steps[..|steps| - 1], t);
      }
    }
  }

  /** The mirror is that token. */
  lemma {:induction false} MirrorIsLatest(n: nat, steps: seq<Step>)
    ensures Run(Start(n), steps).mirror == LatestAccess(n, steps)
  {
    if steps != [] {
      MirrorIsLatest(n, steps[..|steps| - 1]);
    }
  }

  /** A tab without tokens of its own that has read none reads the access token set last, and no refresh token. */
  lemma MirrorReadByOthers(n: nat, steps: seq<Step>, t: nat)
    requires t < n && OwnPair(steps, t).None?
    ensures var b := Run(Start(n), steps);
      && (!HasRead(steps, t) ==> AccessOf(b.tabs[t], b.mirror, false) == LatestAccess(n, steps))
      && RefreshOf(b.tabs[t], false) == None
  {
    NothingOwn(n, steps, t);
  }

  /** What a tab has read it goes on reading, until it sets, clears or reloads. */
  lemma {:induction false} ReadSticks(b: Browser, t: nat, v: string, steps: seq<Step>)
    requires t < |b.tabs| && v != "" && AccessOf(b.tabs[t], b.mirror, false) == Some(v)
    requires forall i :: 0 <= i < |steps| && steps[i].tab == t ==>
                           steps[i].action.GetAccess? || steps[i].action.GetRefresh?
    ensures var c := Run(Next(b, Step(t, GetAccess)), steps);
      c.tabs[t].memAccess == Some(v) && AccessOf(c.tabs[t], c.mirror, false) == Some(v)
  {
    if steps != [] {
      ReadSticks(b, t, v, steps[..|steps| - 1]);
    }
  }
}

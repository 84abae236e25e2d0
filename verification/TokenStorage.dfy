/**
  * src/api/token-storage.ts: an in-memory cache over per-tab session storage, plus a local-storage
  * mirror of the access token that all tabs of the browser share.
  */
module TokenStorage {
  import opened Options

  datatype TokenPair = TokenPair(access: string, refresh: string)

  /** What one tab holds: the module's memory, and its session storage. */
  datatype Tab = Tab(memAccess: Option<string>, memRefresh: Option<string>,
                     sessionAccess: Option<string>, sessionRefresh: Option<string>)

  const EMPTY_TAB := Tab(None, None, None, None)

  /** JavaScript truth of a nullable string. */
  predicate Truthy(v: Option<string>) { v.Some? && v.value != "" }

  function OrElse(v: Option<string>, w: Option<string>): Option<string> {
    if v.Some? then v else w
  }

  // The five functions on one tab and the mirror, as values

  function AfterSet(p: TokenPair): Tab {
    Tab(Some(p.access), Some(p.refresh), Some(p.access), Some(p.refresh))
  }

  function AccessOf(tab: Tab, mirror: Option<string>, mock: bool): Option<string> {
    if Truthy(tab.memAccess) then tab.memAccess
    else if mock then None
    else OrElse(tab.sessionAccess, mirror)
  }

  function AfterAccess(tab: Tab, mirror: Option<string>, mock: bool): Tab {
    if Truthy(tab.memAccess) || mock then tab else tab.(memAccess := AccessOf(tab, mirror, mock))
  }

  function RefreshOf(tab: Tab, mock: bool): Option<string> {
    if Truthy(tab.memRefresh) then tab.memRefresh
    else if mock then None
    else tab.sessionRefresh
  }

  function AfterRefresh(tab: Tab, mock: bool): Tab {
    if Truthy(tab.memRefresh) || mock then tab else tab.(memRefresh := tab.sessionRefresh)
  }

  /** A page reload starts the module afresh and keeps session storage. */
  function AfterReload(tab: Tab): Tab { tab.(memAccess := None, memRefresh := None) }

  /** Session storage holds the pair, and memory holds it or nothing yet. */
  predicate Holds(tab: Tab, p: TokenPair) {
    tab.sessionAccess == Some(p.access) && tab.sessionRefresh == Some(p.refresh) &&
    (tab.memAccess == None || tab.memAccess == Some(p.access)) &&
    (tab.memRefresh == None || tab.memRefresh == Some(p.refresh))
  }

  // The module as it is written: fields overwritten in place

  /** The part of local storage that the tabs share. */
  class LocalStorage {
    var accessToken: Option<string>

    constructor ()
      ensures accessToken == None
    {
      accessToken := None;
    }
  }

  class Storage {
    var memAccess: Option<string>
    var memRefresh: Option<string>
    var sessionAccess: Option<string>
    var sessionRefresh: Option<string>
    const local: LocalStorage
    const useMock: bool

    constructor (local: LocalStorage, useMock: bool)
      ensures this.local == local && this.useMock == useMock && View() == EMPTY_TAB
    {
      this.local := local;
      this.useMock := useMock;
      memAccess, memRefresh, sessionAccess, sessionRefresh := None, None, None, None;
    }

    ghost function View(): Tab
      reads this
    {
      Tab(memAccess, memRefresh, sessionAccess, sessionRefresh)
    }

    method SetTokens(tokens: TokenPair)
      modifies this, local
      ensures View() == AfterSet(tokens) && local.accessToken == Some(tokens.access)
    {
      memAccess := Some(tokens.access);
      memRefresh := Some(tokens.refresh);
      sessionAccess := Some(tokens.access);
      sessionRefresh := Some(tokens.refresh);
      local.accessToken := Some(tokens.access);
    }

    method GetAccessToken() returns (v: Option<string>)
      modifies this
      ensures v == AccessOf(old(View()), local.accessToken, useMock)
      ensures View() == AfterAccess(old(View()), local.accessToken, useMock)
    {
      if Truthy(memAccess) {
        return memAccess;
      }
      if useMock {
        return None;
      }
      v := OrElse(sessionAccess, local.accessToken);
      memAccess := v;
    }

    method GetRefreshToken() returns (v: Option<string>)
      modifies this
      ensures v == RefreshOf(old(View()), useMock) && View() == AfterRefresh(old(View()), useMock)
    {
      if Truthy(memRefresh) {
        return memRefresh;
      }
      if useMock {
        return None;
      }
      v := sessionRefresh;
      memRefresh := v;
    }

    method ClearTokens()
      modifies this, local
      ensures View() == EMPTY_TAB && local.accessToken == None
    {
      memAccess := None;
      memRefresh := None;
      sessionAccess := None;
      sessionRefresh := None;
      local.accessToken := None;
    }

    method HasTokens() returns (has: bool)
      modifies this
      ensures has <==> AccessOf(old(View()), local.accessToken, useMock).Some?
      ensures View() == AfterAccess(old(View()), local.accessToken, useMock)
    {
      var v := GetAccessToken();
      has := v.Some?;
    }
  }
}

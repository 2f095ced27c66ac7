/** The desktop host's session: responses in flight race with server switches and session clears. Each
    method is one critical section, so any sequence of calls is an interleaving of requests; a section that
    re-checks what an earlier unlocked check saw needs no second step. Servers are compared by identity. */
module Sessions {
  import opened Wrappers

  /** One selected server; selecting the same URL again makes another object. */
  class Server {
    const url: string
    const secure: bool

    constructor (url: string, secure: bool)
      ensures this.url == url && this.secure == secure
    {
      this.url, this.secure := url, secure;
    }
  }

  // --- the refresh token of a response ---

  datatype CookieName = RefreshCookie | AccessCookie | OtherCookie

  /** A Set-Cookie header: parsed, or not, and then it may still start like a credential cookie. */
  datatype SetCookie = Cookie(name: CookieName, value: string, secure: bool, maxAge: int) | Unparsable(credential: bool)

  /** Not malformed: readable unless it is no credential, and secure where that is required. */
  predicate Sound(c: SetCookie, requireSecure: bool) {
    match c
    case Unparsable(credential) => !credential
    case Cookie(name, _, secure, _) => !requireSecure || name == OtherCookie || secure
  }

  predicate IsRefresh(c: SetCookie) {
    c.Cookie? && c.name == RefreshCookie
  }

  /** Exactly one refresh cookie, with a value and not expiring at once, among sound cookies. */
  method RefreshTokenFromSetCookies(cookies: seq<SetCookie>, requireSecure: bool) returns (token: Option<string>)
    ensures token.Some? <==> exists offered :: Offers(cookies, requireSecure, offered)
    ensures token.Some? ==> Offers(cookies, requireSecure, token.value)
  {
    var found := "";
    ghost var at := 0;
    for i := 0 to |cookies|
      invariant forall k :: 0 <= k < i ==> Sound(cookies[k], requireSecure)
      invariant found == "" ==> forall k :: 0 <= k < i ==> !IsRefresh(cookies[k])
      invariant found != "" ==>
                  0 <= at < i && IsRefresh(cookies[at]) && cookies[at].value == found && cookies[at].maxAge >= 0
      invariant found != "" ==> forall k :: 0 <= k < i && k != at ==> !IsRefresh(cookies[k])
    {
      if cookies[i].Unparsable? {
        if cookies[i].credential {
          return None;
        }
        continue;
      }
      if requireSecure && cookies[i].name != OtherCookie && !cookies[i].secure {
        return None;
      }
      if cookies[i].name != RefreshCookie {
        continue;
      }
      if found != "" || cookies[i].value == "" || cookies[i].maxAge < 0 {
        return None;
      }
      found, at := cookies[i].value, i;
    }
    if found == "" {
      return None;
    }
    assert OnlyToken(cookies, at);
    assert Offers(cookies, requireSecure, found);
    token := Some(found);
  }

  predicate OnlyToken(cookies: seq<SetCookie>, i: nat)
    requires i < |cookies|
  {
    && IsRefresh(cookies[i]) && cookies[i].value != "" && cookies[i].maxAge >= 0
    && forall k :: 0 <= k < |cookies| && k != i ==> !IsRefresh(cookies[k])
  }

  /** All cookies are sound, and exactly one is a refresh cookie, with this token. */
  ghost predicate Offers(cookies: seq<SetCookie>, requireSecure: bool, token: string) {
    && (forall i :: 0 <= i < |cookies| ==> Sound(cookies[i], requireSecure))
    && exists i :: 0 <= i < |cookies| && OnlyToken(cookies, i) && cookies[i].value == token
  }

  lemma OffersOne(cookies: seq<SetCookie>, requireSecure: bool, token: string, other: string)
    requires Offers(cookies, requireSecure, token) && Offers(cookies, requireSecure, other)
    ensures token == other != ""
  {
  }

  // --- the keyring ---

  type Keyring = map<string, string>

  /** How the outside behaves in one step: reading, setting (which may apply and still fail), deleting, saving. */
  datatype Outside = Outside(canRead: bool, sets: bool, applies: bool, deletes: bool, saves: bool)

  /** Set, and on failure delete. */
  function Replaced(keyring: Keyring, account: string, token: string, o: Outside): Keyring {
    if o.sets then keyring[account := token]
    else if o.deletes then keyring - {account}
    else if o.applies then keyring[account := token]
    else keyring
  }

  /** After a replacement another token remains exactly if both the set and the delete failed on one. */
  lemma AnotherTokenRemainsExactly(keyring: Keyring, account: string, token: string, o: Outside)
    ensures var after := Replaced(keyring, account, token, o);
            account in after && after[account] != token <==>
            !o.sets && !o.deletes && !o.applies && account in keyring && keyring[account] != token
  {
  }

  // --- the host ---

  /** When a token was stored: how many blocks had come before, and for which server. */
  datatype Stamp = Stamp(epoch: nat, server: Server)

  /** What is known of an injected token: where it went, the blocks so far, and who stored it. */
  datatype Evidence = Evidence(server: Server, epoch: nat, failedTwice: bool, forgotten: bool, stamp: Option<Stamp>)

  /** Stored since the last block, for this server, and no restart has forgotten the block; before any block it
      may be from an earlier run. */
  ghost predicate Later(e: Evidence) {
    e.epoch == 0 || e.failedTwice || e.forgotten || e.stamp == Some(Stamp(e.epoch, e.server))
  }

  datatype Saved = Saved(url: string, cleared: bool)

  datatype Kind = Login | Refresh | Logout | DesktopExchange | OtherRequest

  datatype Step =
    | DoSwitch(from: Server, to: Server, code: string)
    | DoForget(from: Server)
    | DoActivate(code: string)
    | DoClear
    | DoRespond(kind: Kind, server: Server, token: string, status: int, cookies: seq<SetCookie>)
    | DoSend(kind: Kind, server: Server, own: string)
    | DoRestart(server: Server, readable: bool)

  class AppHost {
    const locked: bool
    const hasConfig: bool
    const hasKeyring: bool
    var target: Server
    var pending: Server?
    var pendingCode: string
    var blocked: bool
    var keyring: Keyring
    var saved: Option<Saved>

    /** Activations and clears so far. */
    ghost var epoch: nat
    /** Authentications and refreshes stored so far. */
    ghost var stores: nat
    /** Who stored each token. */
    ghost var stamps: map<string, Stamp>
    /** Accounts whose last replacement failed to set and to delete. */
    ghost var stale: set<string>
    /** Accounts whose credentials a restart unblocked, until a token is stored again. */
    ghost var forgotten: set<string>

    /** While credentials may be used, the stored token is one stored on this server since the last block. */
    ghost predicate Valid()
      reads this
    {
      && (!hasKeyring ==> keyring == map[])
      && (!blocked ==> Fresh(target.url))
    }

    ghost predicate Fresh(account: string)
      reads this
    {
      account in keyring ==>
        || epoch == 0 || account in stale || account in forgotten
        || (account in stamps && stamps[account] == Stamp(epoch, target))
    }

    /** Nothing was blocked, stored or otherwise changed. */
    twostate predicate Untouched()
      reads this
    {
      && keyring == old(keyring) && saved == old(saved) && blocked == old(blocked) && target == old(target)
      && epoch == old(epoch) && stores == old(stores) && stamps == old(stamps) && stale == old(stale)
        && forgotten == old(forgotten)
    }

    constructor (server: Server, blocked: bool, keyring: Keyring, saved: Option<Saved>, locked: bool, hasConfig: bool,
                 hasKeyring: bool)
      requires !hasKeyring ==> keyring == map[]
      ensures Valid() && target == server && pending == null && epoch == 0 && this.blocked == blocked
      ensures this.locked == locked && this.hasConfig == hasConfig && this.hasKeyring == hasKeyring
      ensures this.keyring == keyring && this.saved == saved && forgotten == stale == {}
    {
      this.locked, this.hasConfig, this.hasKeyring := locked, hasConfig, hasKeyring;
      target, pending, pendingCode, this.blocked, this.keyring, this.saved := server, null, "", blocked, keyring, saved;
      epoch, stores, stamps, stale, forgotten := 0, 0, map[], {}, {};
    }

    /** The stored token for a request that carries none, while credentials may be used on its server. Since an
        activation or a clear it is one that was stored later, on this server. */
    method InjectStoredRefreshCredential(requestTarget: Server, own: string, o: Outside) returns (token: Option<string>)
      requires Valid()
      ensures token.Some? <==> && own == "" && !blocked && requestTarget == target && o.canRead
                               && target.url in keyring && keyring[target.url] != ""
      ensures token.Some? ==> Injected(requestTarget, own, token.value)
    {
      if own != "" || blocked || requestTarget != target || !hasKeyring || !o.canRead || requestTarget.url !in keyring
         || keyring[requestTarget.url] == "" {
        return None;
      }
      token := Some(keyring[requestTarget.url]);
    }

    /** The stored token, for a request without one; after a block it was stored since then on this server. */
    ghost predicate Injected(server: Server, own: string, token: string)
      reads this
    {
      && own == "" && !blocked && server == target && target.url in keyring && token == keyring[target.url] != ""
      && (epoch > 0 && target.url !in stale && target.url !in forgotten ==>
            target.url in stamps && stamps[target.url] == Stamp(epoch, target))
    }

    method DeleteRefreshCredential(server: Server, o: Outside)
      requires Valid()
      modifies this`keyring
      ensures Valid()
      ensures keyring == if hasKeyring && o.deletes then old(keyring) - {server.url} else old(keyring)
    {
      if hasKeyring && o.deletes {
        keyring := keyring - {server.url};
      }
    }

    /** A rejected refresh, a logout or a clear blocks the session. One from another server changes nothing, nor
        does one about a token that can be seen not to be the stored one: without a token, or with a keyring that
        cannot be read, the stored one goes. */
    method BlockSession(server: Server, rejected: string, o: Outside)
      requires Valid()
      modifies this`keyring, this`saved, this`blocked, this`epoch
      ensures Valid()
      ensures server != target || Superseded(old(keyring), rejected, o) ==> Untouched()
      ensures server == target && !Superseded(old(keyring), rejected, o) ==> SessionBlocked(o)
    {
      if server != target {
        return;
      }
      if rejected != "" && hasKeyring {
        if o.canRead && server.url in keyring && keyring[server.url] != "" && keyring[server.url] != rejected {
          return;
        }
      }
      blocked, epoch := true, epoch + 1;
      DeleteRefreshCredential(server, o);
      if hasConfig && o.saves {
        saved := Some(Saved(server.url, true));
      }
    }

    /** The stored token is gone if it can be deleted, and the block saved if it can be. */
    twostate predicate SessionBlocked(o: Outside)
      reads this
    {
      && blocked && epoch == old(epoch) + 1 && stores == old(stores) && target == old(target)
      && keyring == (if hasKeyring && o.deletes then old(keyring) - {target.url} else old(keyring))
      && saved == if hasConfig && o.saves then Some(Saved(target.url, true)) else old(saved)
    }

    /** The token replaces the stored one as far as the keyring lets it, and credentials may be used. */
    twostate predicate TokenStored(token: string, o: Outside)
      reads this
    {
      && !blocked && epoch == old(epoch) && stores == old(stores) + 1 && target == old(target)
      && keyring == (if hasKeyring then Replaced(old(keyring), target.url, token, o) else old(keyring))
      && saved == if hasConfig && o.saves then Some(Saved(target.url, false)) else old(saved)
    }

    /** Another token than this one is stored on the current server. */
    predicate OtherStored(token: string)
      reads this
    {
      hasKeyring && target.url in keyring && keyring[target.url] != "" && keyring[target.url] != token
    }

    /** There is a token, and a readable stored one that it is not. */
    predicate Superseded(stored: Keyring, token: string, o: Outside)
      reads this
    {
      && token != "" && hasKeyring && o.canRead && target.url in stored
      && stored[target.url] != "" && stored[target.url] != token
    }

    /** Stores the token of an authentication and unblocks. */
    method PersistAuthenticated(server: Server, token: string, o: Outside)
      requires server == target && token != "" && (!hasKeyring ==> keyring == map[])
      modifies this`keyring, this`saved, this`blocked, this`stores, this`stamps, this`stale, this`forgotten
      ensures Valid() && !blocked
      ensures TokenStored(token, o)
      ensures stale == if hasKeyring && !o.sets && !o.deletes then old(stale) + {server.url}
                       else old(stale) - {server.url}
      ensures o.sets || o.deletes ==> server.url in keyring ==> keyring[server.url] == token
      ensures forgotten == old(forgotten) - {server.url}
    {
      keyring := if hasKeyring then Replaced(keyring, server.url, token, o) else keyring;
      stamps, stores := stamps[server.url := Stamp(epoch, server)], stores + 1;
      stale := if hasKeyring && !o.sets && !o.deletes then stale + {server.url} else stale - {server.url};
      if hasConfig && o.saves {
        saved := Some(Saved(server.url, false));
      }
      blocked, forgotten := false, forgotten - {server.url};
    }

    /** A finished login counts only on the current server. */
    method MarkAuthenticated(server: Server, token: string, o: Outside) returns (ok: bool)
      requires Valid() && token != ""
      modifies this`keyring, this`saved, this`blocked, this`stores, this`stamps, this`stale, this`forgotten
      ensures Valid() && ok == (server == target)
      ensures !ok ==> Untouched()
      ensures ok ==> TokenStored(token, o)
    {
      if server != target {
        return false;
      }
      PersistAuthenticated(server, token, o);
      ok := true;
    }

    /** A finished refresh counts only on the current server, while not blocked, and unless it was for a token that
        can be seen not to be the stored one. */
    method MarkRefreshed(server: Server, previous: string, next: string, o: Outside) returns (ok: bool)
      requires Valid() && next != ""
      modifies this`keyring, this`saved, this`blocked, this`stores, this`stamps, this`stale, this`forgotten
      ensures Valid()
      ensures ok == (server == target && !old(blocked) && !Superseded(old(keyring), previous, o))
      ensures !ok ==> Untouched()
      ensures ok ==> TokenStored(next, o)
    {
      if server != target || blocked {
        return false;
      }
      if previous != "" && hasKeyring {
        if o.canRead && server.url in keyring && keyring[server.url] != "" && keyring[server.url] != previous {
          return false;
        }
      }
      PersistAuthenticated(server, next, o);
      ok := true;
    }

    /** Selecting another server: it waits for its activation code. */
    method BeginSwitch(from: Server, to: Server, code: string) returns (ok: bool)
      requires Valid()
      modifies this`pending, this`pendingCode
      ensures Valid()
      ensures ok == (!locked && hasConfig && old(pending) == null && from == target)
      ensures if ok then pending == to && pendingCode == code
              else pending == old(pending) && pendingCode == old(pendingCode)
    {
      if locked || !hasConfig || pending != null || from != target {
        return false;
      }
      pending, pendingCode := to, code;
      ok := true;
    }

    /** The pending server becomes the target, blocked until an authentication; a failed save keeps the old one,
        blocked too. */
    method Activate(code: string, o: Outside) returns (ok: bool)
      requires Valid()
      modifies this`pending, this`pendingCode, this`saved, this`blocked, this`epoch, this`target
      ensures Valid() && keyring == old(keyring)
      ensures old(pending) == null || code != old(pendingCode) ==> !ok && Untouched() && pending == old(pending)
      ensures old(pending) != null && code == old(pendingCode) ==>
                && ok == o.saves && blocked && epoch == old(epoch) + 1 && pending == null
                && target == (if ok then old(pending) else old(target))
                && saved == if ok then Some(Saved(target.url, true)) else old(saved)
    {
      if pending == null || code != pendingCode {
        return false;
      }
      blocked, epoch := true, epoch + 1;
      ok := o.saves;
      if ok {
        saved, target := Some(Saved(pending.url, true)), pending;
      }
      pending, pendingCode := null, "";
    }

    /** The next process, on the saved server, or on the environment's or the default one. It is blocked exactly
        if the block was saved for that server and can be read. */
    method Restart(server: Server, readable: bool)
      requires Valid()
      modifies this`target, this`pending, this`pendingCode, this`blocked, this`stamps, this`forgotten
      ensures Valid() && target == server && pending == null
      ensures blocked <==> readable && saved == Some(Saved(server.url, true))
      ensures forgotten == if !blocked && (old(blocked) || server.url != old(target).url)
                           then old(forgotten) + {server.url} else old(forgotten)
    {
      var cleared := readable && saved == Some(Saved(server.url, true));
      if !cleared && (blocked || server.url != target.url) {
        forgotten := forgotten + {server.url};
      }
      if server.url in stamps && stamps[server.url] == Stamp(epoch, target) {
        stamps := stamps[server.url := Stamp(epoch, server)];
      }
      target, pending, pendingCode, blocked := server, null, "", cleared;
    }

    /** What an outgoing request carries. While blocked all cookies are stripped; else a refresh or a logout without
        a token gets the stored one. */
    method Send(kind: Kind, server: Server, own: string, o: Outside) returns (sent: string, injected: Option<string>)
      requires Valid()
      ensures blocked ==> sent == "" && injected == None
      ensures !blocked ==> sent == if injected.Some? then injected.value else own
      ensures injected.Some? <==>
              && kind in {Refresh, Logout} && own == "" && !blocked && server == target && hasKeyring
              && o.canRead && target.url in keyring && keyring[target.url] != ""
      ensures injected.Some? ==> Injected(server, own, injected.value)
    {
      if blocked {
        return "", None;
      }
      sent, injected := own, None;
      if kind == Refresh || kind == Logout {
        injected := InjectStoredRefreshCredential(server, own, o);
        if injected.Some? {
          sent := injected.value;
        }
      }
    }

    /** The response decides about the session: a refresh is rejected, or a token offered; a logout is done. */
    ghost predicate Decides(kind: Kind, server: Server, status: int, cookies: seq<SetCookie>, redacts: bool)
      reads this
    {
      && server == target
      && match kind
         case Refresh => status == 401 || status == 403 || (!blocked && Brings(server, status, cookies, redacts))
         case Login => Brings(server, status, cookies, redacts)
         case DesktopExchange => Brings(server, status, cookies, redacts)
         case Logout => 200 <= status < 300
         case OtherRequest => false
    }

    /** A token that can be kept from the page. */
    ghost predicate Brings(server: Server, status: int, cookies: seq<SetCookie>, redacts: bool) {
      200 <= status < 300 && redacts && exists token :: Offers(cookies, server.secure, token)
    }

    /** What a proxied response does to the session: everything that decides, but for a refresh whose token can be
        seen not to be the stored one. */
    method ModifyProxyResponse(kind: Kind, server: Server, requestToken: string, status: int, cookies: seq<SetCookie>,
                               redacts: bool, o: Outside)
      returns (ok: bool)
      requires Valid()
      modifies this`keyring, this`saved, this`blocked, this`epoch, this`stores, this`stamps, this`stale, this`forgotten
      ensures Valid()
      ensures Untouched() <==> !old(Decides(kind, server, status, cookies, redacts))
                               || (kind == Refresh && Superseded(old(keyring), requestToken, o))
      ensures kind == Refresh && old(OtherStored(requestToken) && Decides(kind, server, status, cookies, redacts)) ==>
                (Untouched() <==> requestToken != "" && o.canRead)
      ensures !Untouched() ==> ok && if status == 401 || status == 403 || kind == Logout then SessionBlocked(o)
                               else exists token :: Offers(cookies, server.secure, token) && TokenStored(token, o)
      ensures ok <==>
              server == target && !(200 <= status < 300 && kind in {Login, Refresh, DesktopExchange} && Untouched())
      ensures old(blocked) && !blocked ==> kind in {Login, DesktopExchange}
    {
      if server != target {
        return false;
      }
      if kind == Refresh && (status == 401 || status == 403) {
        BlockSession(server, requestToken, o);
        return true;
      }
      if status < 200 || status >= 300 {
        return true;
      }
      if kind == Logout {
        BlockSession(server, "", o);
        return true;
      }
      if kind == OtherRequest {
        return true;
      }
      var token := RefreshTokenFromSetCookies(cookies, server.secure);
      if token.None? || !redacts {
        return false;
      }
      OffersOne(cookies, server.secure, token.value, token.value);
      if kind == Refresh {
        ok := MarkRefreshed(server, requestToken, token.value, o);
      } else {
        ok := MarkAuthenticated(server, token.value, o);
      }
    }

    /** Every interleaving: any sequence of critical sections, with any servers, tokens and failures. Each token
        injected after a block was stored later than the last block, on the server it goes to, unless the last
        replacement on its account failed twice or a restart has forgotten the block. */
    method Run(steps: seq<Step>) returns (injected: seq<string>, ghost evidence: seq<Evidence>)
      requires Valid()
      modifies this
      ensures Valid() && epoch >= old(epoch)
      ensures |injected| == |evidence|
      ensures forall i :: 0 <= i < |injected| ==> injected[i] != "" && Later(evidence[i])
    {
      injected, evidence := [], [];
      for i := 0 to |steps|
        invariant Valid() && epoch >= old(epoch) && |injected| == |evidence|
        invariant forall k :: 0 <= k < |injected| ==> injected[k] != "" && Later(evidence[k])
      {
        var o: Outside := *;
        match steps[i] {
          case DoSwitch(from, to, code) =>
            var ok := BeginSwitch(from, to, code);
          case DoForget(from) =>
            DeleteRefreshCredential(from, o);
          case DoActivate(code) =>
            var ok := Activate(code, o);
          case DoClear =>
            BlockSession(target, "", o);
          case DoRespond(kind, server, token, status, cookies) =>
            var redacts: bool := *;
            var ok := ModifyProxyResponse(kind, server, token, status, cookies, redacts, o);
          case DoRestart(server, readable) =>
            Restart(server, readable);
          case DoSend(kind, server, own) =>
            var sent, token := Send(kind, server, own, o);
            if token.Some? {
              injected := injected + [token.value];
              evidence := evidence + [Evidence(server, epoch, server.url in stale, server.url in forgotten,
                                               if server.url in stamps then Some(stamps[server.url]) else None)];
            }
        }
      }
    }
  }

  /** A switch whose activation cannot be saved blocks the session; the block is gone at the next start, and the
      token from before it is used again. */
  method RestartForgetsBlock(url: string, other: string, token: string)
    returns (blocked: bool, injected: Option<string>)
    requires token != ""
    ensures blocked && injected == Some(token)
  {
    var server := new Server(url, true);
    var next := new Server(other, true);
    var host := new AppHost(server, false, map[url := token], Some(Saved(url, false)), false, true, true);
    var ok := host.BeginSwitch(server, next, "code");
    ok := host.Activate("code", Outside(true, true, true, true, false));
    blocked := host.blocked;
    var again := new Server(url, true);
    host.Restart(again, true);
    injected := host.InjectStoredRefreshCredential(again, "", Outside(true, true, true, true, true));
  }

  const WORKING := Outside(true, true, true, true, true)
  const UNREADABLE := Outside(false, true, true, true, true)

  /** A host on one server, and a login that stores a token there. */
  method LoggedIn(url: string, token: string) returns (server: Server, host: AppHost)
    requires token != ""
    ensures fresh(server) && fresh(host) && host.Valid() && host.target == server && server.url == url && server.secure
    ensures host.hasKeyring && host.keyring == map[url := token] && !host.blocked
  {
    server := new Server(url, true);
    host := new AppHost(server, false, map[], None, false, true, true);
    var ok := host.MarkAuthenticated(server, token, WORKING);
  }

  /** A refresh that was sent while the session was blocked carries no token. Its rejection, after a login, deletes
      the token of that login and blocks again, though no call fails. */
  method LateRejectionEndsSession(url: string, own: string, token: string) returns (host: AppHost)
    requires token != ""
    ensures host.blocked && url !in host.keyring
  {
    var server := new Server(url, true);
    host := new AppHost(server, true, map[], None, false, true, true);
    var sent, injected := host.Send(Refresh, server, own, WORKING);
    var cookies := [Cookie(RefreshCookie, token, true, 0)];
    assert OnlyToken(cookies, 0) && Offers(cookies, true, token);
    var ok := host.ModifyProxyResponse(Login, server, "", 200, cookies, true, WORKING);
    ok := host.ModifyProxyResponse(Refresh, server, sent, 401, [], true, WORKING);
  }

  /** With a keyring that cannot be read, the rejection of an earlier token deletes the stored one and blocks. */
  method UnreadableRejectionEndsSession(url: string, earlier: string, token: string) returns (host: AppHost)
    requires earlier != token && token != ""
    ensures host.blocked && url !in host.keyring
  {
    var server;
    server, host := LoggedIn(url, token);
    var ok := host.ModifyProxyResponse(Refresh, server, earlier, 401, [], true, UNREADABLE);
  }

  /** And the success of an earlier token puts its successor in place of the stored one. */
  method UnreadableRefreshReplaces(url: string, earlier: string, token: string, successor: string)
    returns (host: AppHost)
    requires earlier != token && token != "" && successor != ""
    ensures !host.blocked && host.keyring == map[url := successor]
  {
    var server;
    server, host := LoggedIn(url, token);
    var cookies := [Cookie(RefreshCookie, successor, true, 0)];
    assert OnlyToken(cookies, 0) && Offers(cookies, true, successor);
    var ok := host.ModifyProxyResponse(Refresh, server, earlier, 200, cookies, true, UNREADABLE);
    forall other | Offers(cookies, true, other)
      ensures other == successor
    {
      OffersOne(cookies, true, successor, other);
    }
  }

  /** A login whose token can be neither set nor put in place by deleting the old one: the old one stays in use. */
  method OldTokenStaysInUse(url: string, earlier: string, token: string) returns (injected: Option<string>)
    requires earlier != "" && token != ""
    ensures injected == Some(earlier)
  {
    var server, host := LoggedIn(url, earlier);
    var ok := host.MarkAuthenticated(server, token, Outside(true, false, false, false, true));
    injected := host.InjectStoredRefreshCredential(server, "", WORKING);
  }
}

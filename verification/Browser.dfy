/** The browser client as it runs: session fields and sessionStorage updated in place around each fetch. */
module BrowserClient {
  import opened Common
  import opened Tokens
  import opened AuthHandlers
  import opened Sessions

  class Browser {
    const server: AuthServer
    var accessToken: Option<Token>
    var refreshToken: Option<Token>
    var storage: Option<Mirror>

    ghost function Tab(): Client
      reads this
    {
      Client(accessToken, refreshToken, storage)
    }

    constructor (server: AuthServer)
      ensures this.server == server && Tab() == CLEARED
    {
      this.server := server;
      accessToken, refreshToken, storage := None, None, None;
    }

    /** Fails when the entry is not JSON. */
    method UpdateSessionStorage() returns (ok: bool)
      modifies this`storage
      ensures ok <==> Readable(old(storage))
      ensures storage ==
        if old(storage).Some? && ok then Some(old(storage).value.(access := accessToken, refresh := refreshToken))
        else old(storage)
    {
      if storage.None? { return true; }
      if storage.value.Malformed? { return false; }
      storage := Some(storage.value.(access := accessToken, refresh := refreshToken));
      ok := true;
    }

    method ClearSession()
      modifies this
      ensures Tab() == CLEARED
    {
      accessToken, refreshToken := None, None;
      storage := None;
    }

    method RestoreSession() returns (ok: bool)
      modifies this
      requires accessToken == None && refreshToken == None
      ensures Tab() == Restored(old(storage))
      ensures ok <==>
        old(storage).Some? && old(storage).value.Mirror? && old(storage).value.envelope &&
        old(storage).value.access.Some? && old(storage).value.keyDecodes
      ensures ok ==> storage == old(storage)
      ensures ok ==> accessToken == storage.value.access && refreshToken == storage.value.refresh
    {
      if storage.None? { return false; }
      if storage.value.Malformed? || !storage.value.envelope || storage.value.access.None? {
        storage := None;
        return false;
      }
      accessToken, refreshToken := storage.value.access, storage.value.refresh;
      if !storage.value.keyDecodes {
        storage := None;
        return false;
      }
      ok := true;
    }

    method StoreSession(r: Reply, keys: Keys) returns (ok: bool)
      requires r.Tokens?
      modifies this
      ensures Tab() == Sessions.StoreSession(old(Tab()), r, keys) && ok == keys.Good?
    {
      if keys.EnvelopeFails? { return false; }
      accessToken := Some(r.access);
      refreshToken := Some(r.refresh);
      if keys.ImportFails? { return false; }
      storage := Some(Mirror(Some(r.access), Some(r.refresh), true, true));
      ok := true;
    }

    /** Returns whether a new access token was obtained; the exchange is recorded in step. */
    method TryRefreshToken(t: Timing) returns (ok: bool, ghost step: Exchange)
      requires refreshToken.Some?
      modifies this, server
      ensures
        var (u, r) := Serve(old(server.State()), t.refresh, Rotate(old(refreshToken).value), t.dbRefresh);
        server.State() == u && step == Exchange(Rotate(old(refreshToken).value), r.code) &&
        ok == (r.Tokens? && Readable(old(storage))) &&
        (ok ==> Tab() == Adopt(old(Tab()), r)) && (!r.Tokens? ==> Tab() == old(Tab()))
    {
      var r := server.Handle(Rotate(refreshToken.value), t.refresh, t.dbRefresh);
      step := Exchange(Rotate(refreshToken.value), r.code);
      if !r.Tokens? { return false, step; }
      accessToken := Some(r.access);
      refreshToken := Some(r.refresh);
      ok := UpdateSessionStorage();
    }

    /** The fetch-and-retry loop of every call; retried is set on the second round. */
    method ApiFetch(call: Call, t: Timing, retried: bool := false)
      returns (outcome: Outcome, ghost trace: seq<Exchange>)
      modifies this, server
      ensures !retried ==>
        Result(Tab(), server.State(), outcome, trace) == Sessions.ApiFetch(old(Tab()), old(server.State()), call, t)
      ensures retried ==>
        Result(Tab(), server.State(), outcome, trace) ==
          Fetch(old(Tab()), old(server.State()), call, t.retry, t.dbRetry)
      decreases !retried
    {
      var request := WithHeader(call, accessToken);
      var r := server.Handle(request, if retried then t.retry else t.first, if retried then t.dbRetry else t.dbFirst);
      trace := [Exchange(request, r.code)];
      if r.code == 401 && !retried && refreshToken.Some? {
        var refreshed, step := TryRefreshToken(t);
        trace := trace + [step];
        if refreshed {
          ghost var rest;
          outcome, rest := ApiFetch(call, t, true);
          assert trace + rest == trace[..1] + ([step] + rest);
          trace := trace + rest;
        } else {
          ClearSession();
          outcome := SessionExpired;
        }
        return;
      }
      if 200 <= r.code < 300 { outcome := Answer(r); } else { outcome := HttpError(r.code); }
    }

    method LogIn(username: string, password: string, keys: Keys, t: Timing)
      returns (outcome: Outcome, ghost trace: seq<Exchange>)
      modifies this, server
      ensures Result(Tab(), server.State(), outcome, trace) ==
        Act(old(Tab()), old(server.State()), SignIn(username, password, keys), t)
    {
      outcome, trace := ApiFetch(AskLogin(username, password), t);
      if outcome.Answer? && outcome.reply.Tokens? {
        var ok := StoreSession(outcome.reply, keys);
      }
    }

    method LogOut(t: Timing) returns (outcome: Outcome, ghost trace: seq<Exchange>)
      modifies this, server
      ensures Result(Tab(), server.State(), outcome, trace) == Act(old(Tab()), old(server.State()), SignOut, t)
    {
      if accessToken.None? { return NoCall, []; }
      outcome, trace := ApiFetch(AskLogout(refreshToken), t);
      ClearSession();
    }
  }
}

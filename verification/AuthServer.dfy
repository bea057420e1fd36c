/** The authentication handlers as the server runs them: state updated in place, early exits. */
module AuthHandlers {
  import opened Common
  import opened Tokens

  function DenyAll(denied: map<Jti, Denied>, rows: seq<(Token, nat)>): map<Jti, Denied> {
    if rows == [] then denied
    else Deny(DenyAll(denied, rows[..|rows| - 1]), rows[|rows| - 1].0, rows[|rows| - 1].1)
  }

  lemma DenyOne(denied: map<Jti, Denied>, a: (Token, nat))
    ensures DenyAll(denied, [a]) == Deny(denied, a.0, a.1)
  {
    var rows := [a];
    assert rows[..0] == [];
  }

  lemma DenyTwo(denied: map<Jti, Denied>, a: (Token, nat), b: (Token, nat))
    ensures DenyAll(denied, [a, b]) == Deny(Deny(denied, a.0, a.1), b.0, b.1)
  {
    var rows := [a, b];
    assert rows[..1] == [a];
    DenyOne(denied, a);
  }

  class AuthServer {
    var accounts: seq<Account>
    var issued: seq<Token>
    var denied: map<Jti, Denied>
    ghost var chain: seq<nat>
    ghost var signIns: nat

    ghost function State(): Server
      reads this
    {
      Server(accounts, issued, denied, chain, signIns)
    }

    constructor (existing: seq<Account>)
      ensures State() == Fresh(existing)
    {
      accounts := existing;
      issued := [];
      denied := map[];
      chain := [];
      signIns := 0;
    }

    method GetByUsername(username: string) returns (user: Option<nat>)
      ensures user == Find(accounts, username)
      ensures user.Some? ==> user.value < |accounts|
    {
      for i := 0 to |accounts|
        invariant Find(accounts[..i], username).None?
      {
        assert accounts[..i + 1][..i] == accounts[..i];
        if accounts[i].username == username {
          FindPrefix(accounts, i + 1, username);
          return Some(i);
        }
      }
      assert accounts[..|accounts|] == accounts;
      user := None;
    }

    /** Signature and expiry first, then the type, then the deny list. */
    method VerifyToken(t: Token, kind: Kind, now: int) returns (ok: bool)
      ensures ok <==> Verifies(State(), t, kind, now)
    {
      if !(t.jti < |issued| && issued[t.jti] == t) { return false; }
      if t.exp * SECOND <= now { return false; }
      if t.kind != kind { return false; }
      if t.jti in denied { return false; }
      ok := true;
    }

    method TokenRequired(access: Option<Token>, now: int) returns (ok: bool)
      ensures ok <==> Authorised(State(), access, now)
    {
      if access.None? { return false; }
      ok := VerifyToken(access.value, Access, now);
    }

    method CreateTokens(user: nat, username: string, now: int, ghost from: nat) returns (a: Token, r: Token)
      modifies this`issued, this`chain
      ensures State() == Issue(old(State()), user, username, now, from)
      ensures a == AccessToken(old(State()), user, username, now)
      ensures r == RefreshToken(old(State()), user, username, now)
    {
      a := Token(user, username, Access, |issued|, now / SECOND + ACCESS_SECONDS);
      issued := issued + [a];
      r := Token(user, username, Refresh, |issued|, now / SECOND + REFRESH_SECONDS);
      issued := issued + [r];
      chain := chain + [from, from];
    }

    /** Rows are inserted one by one; an error rolls all of them back. */
    method AddMany(rows: seq<(Token, nat)>, dbOk: bool) returns (ok: bool)
      modifies this`denied
      ensures ok == dbOk
      ensures denied == if ok then DenyAll(old(denied), rows) else old(denied)
    {
      var before := denied;
      for i := 0 to |rows|
        invariant denied == DenyAll(before, rows[..i])
      {
        assert rows[..i + 1][..i] == rows[..i];
        var (t, user) := rows[i];
        if t.jti !in denied {
          denied := denied[t.jti := Denied(user, t.exp)];
        }
      }
      assert rows[..|rows|] == rows;
      ok := dbOk;
      if !ok { denied := before; }
    }

    method SignInReply(code: int, user: nat, username: string, now: int) returns (r: Reply)
      modifies this`issued, this`chain, this`signIns
      ensures (State(), r) == SignIn(old(State()), code, user, username, now)
    {
      var access, refresh := CreateTokens(user, username, now, signIns);
      signIns := signIns + 1;
      r := Tokens(code, access, refresh);
    }

    method Register(username: string, password: string, now: int, dbOk: bool) returns (r: Reply)
      modifies this
      ensures (State(), r) == Serve(old(State()), now, Request.Register(username, password), dbOk)
    {
      var user := GetByUsername(username);
      if user.Some? { return Status(409); }
      if !dbOk {
        var again := GetByUsername(username);
        return Status(if again.Some? then 409 else 500);
      }
      var id := |accounts|;
      accounts := accounts + [Account(username, PasswordHash(password), true)];
      r := SignInReply(201, id, username, now);
    }

    method Login(username: string, password: string, now: int, dbOk: bool) returns (r: Reply)
      modifies this
      ensures (State(), r) == Serve(old(State()), now, Request.Login(username, password), dbOk)
    {
      var user := GetByUsername(username);
      if user.None? { return Status(401); }
      if accounts[user.value].hash != PasswordHash(password) { return Status(401); }
      if !accounts[user.value].hasKeys { return Status(409); }
      r := SignInReply(200, user.value, username, now);
    }

    method Rotate(refresh: Token, now: int, dbOk: bool) returns (r: Reply)
      modifies this
      ensures (State(), r) == Serve(old(State()), now, Request.Rotate(refresh), dbOk)
    {
      var valid := VerifyToken(refresh, Refresh, now);
      if !valid { return Status(401); }
      ghost var from := if refresh.jti < |chain| then chain[refresh.jti] else 0;
      var added := AddMany([(refresh, refresh.user)], dbOk);
      if !added { return Status(500); }
      DenyOne(old(denied), (refresh, refresh.user));
      var access, next := CreateTokens(refresh.user, refresh.username, now, from);
      r := Tokens(200, access, next);
    }

    method Logout(access: Option<Token>, refresh: Token, now: int, dbOk: bool) returns (r: Reply)
      modifies this
      ensures (State(), r) == Serve(old(State()), now, Request.Logout(access, refresh), dbOk)
    {
      var authorised := TokenRequired(access, now);
      if !authorised { return Status(401); }
      var valid := VerifyToken(refresh, Refresh, now);
      if !valid { return Status(401); }
      if refresh.user != access.value.user { return Status(401); }
      var rows: seq<(Token, nat)> := [(access.value, access.value.user), (refresh, refresh.user)];
      var added := AddMany(rows, dbOk);
      if !added { return Status(500); }
      DenyTwo(old(denied), rows[0], rows[1]);
      r := Status(200);
    }

    /** Any route behind token_required; code is what its handler answers. */
    method Protected(access: Option<Token>, code: int, now: int) returns (r: Reply)
      ensures (State(), r) == Serve(State(), now, Request.Protected(access, code), true)
    {
      var authorised := TokenRequired(access, now);
      r := Status(if authorised then code else 401);
    }

    method Handle(request: Request, now: int, dbOk: bool) returns (r: Reply)
      modifies this
      ensures (State(), r) == Serve(old(State()), now, request, dbOk)
    {
      match request
      case Register(username, password) => r := Register(username, password, now, dbOk);
      case Login(username, password) => r := Login(username, password, now, dbOk);
      case Rotate(refresh) => r := Rotate(refresh, now, dbOk);
      case Logout(access, refresh) => r := Logout(access, refresh, now, dbOk);
      case Protected(access, code) => r := Protected(access, code, now);
    }

    method Purge(now: int)
      modifies this`denied
      ensures State() == Purged(old(State()), now)
    {
      denied := map j | j in denied && denied[j].exp * SECOND >= now :: denied[j];
    }
  }

  lemma {:induction false} FindPrefix(accounts: seq<Account>, n: nat, username: string)
    requires n <= |accounts| && Find(accounts[..n], username).Some?
    ensures Find(accounts, username) == Find(accounts[..n], username)
  {
    if n < |accounts| {
      var shorter := accounts[..|accounts| - 1];
      assert shorter[..n] == accounts[..n];
      FindPrefix(shorter, n, username);
    } else {
      assert accounts[..n] == accounts;
    }
  }
}

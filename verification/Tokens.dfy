/**
 * Access and refresh tokens on the server: issue, verify, rotate, log out, deny list. Each request
 * is one step; a run is a sequence of requests and purges of the deny list.
 */
module Tokens {
  import opened Common

  type Jti = nat

  /** Clock readings are in microseconds, token lifetimes in seconds. */
  const SECOND: int := 1_000_000
  const ACCESS_SECONDS: int := 3600
  const REFRESH_SECONDS: int := 604_800

  datatype Kind = Access | Refresh

  /** A signed payload. Identifiers are drawn fresh; the n-th token issued has identifier n. */
  datatype Token = Token(user: nat, username: string, kind: Kind, jti: Jti, exp: int)

  /** An Argon2 hash, one-way: it can only be compared with the hash of a guess. */
  datatype PasswordHash = PasswordHash(password: string)

  /** The n-th account has user id n. Accounts from before browser key storage have no keys. */
  datatype Account = Account(username: string, hash: PasswordHash, hasKeys: bool)

  datatype Denied = Denied(user: nat, exp: int)

  /** chain[j] is the number of the sign-in that token j descends from. */
  datatype Server = Server(
    accounts: seq<Account>, issued: seq<Token>, denied: map<Jti, Denied>, chain: seq<nat>, signIns: nat)

  datatype Request =
    | Register(username: string, password: string)
    | Login(username: string, password: string)
    | Rotate(refresh: Token)
    | Logout(access: Option<Token>, refresh: Token)
    | Protected(access: Option<Token>, code: int)

  datatype Reply = Tokens(code: int, access: Token, refresh: Token) | Status(code: int)

  /** dbOk is false when the write fails; a purge removes the rows that expired before now. */
  datatype Event = Http(now: int, request: Request, dbOk: bool) | Purge(now: int)

  // ---------------------------------------------------------------- the server's operations

  function Find(accounts: seq<Account>, username: string): Option<nat> {
    if accounts == [] then None
    else
      var n := |accounts| - 1;
      var earlier := Find(accounts[..n], username);
      if earlier.None? && accounts[n].username == username then Some(n) else earlier
  }

  function AccessToken(s: Server, user: nat, username: string, now: int): Token {
    Token(user, username, Access, |s.issued|, now / SECOND + ACCESS_SECONDS)
  }

  function RefreshToken(s: Server, user: nat, username: string, now: int): Token {
    Token(user, username, Refresh, |s.issued| + 1, now / SECOND + REFRESH_SECONDS)
  }

  /** create_tokens, descending from sign-in number chain. */
  function Issue(s: Server, user: nat, username: string, now: int, chain: nat): Server {
    s.(issued := s.issued + [AccessToken(s, user, username, now), RefreshToken(s, user, username, now)],
       chain := s.chain + [chain, chain])
  }

  predicate Signed(s: Server, t: Token) {
    t.jti < |s.issued| && s.issued[t.jti] == t
  }

  predicate Expired(t: Token, now: int) {
    t.exp * SECOND <= now
  }

  /** verify_token. */
  predicate Verifies(s: Server, t: Token, kind: Kind, now: int) {
    Signed(s, t) && !Expired(t, now) && t.kind == kind && t.jti !in s.denied
  }

  predicate Authorised(s: Server, access: Option<Token>, now: int) {
    access.Some? && Verifies(s, access.value, Access, now)
  }

  /** INSERT ... ON CONFLICT DO NOTHING. */
  function Deny(denied: map<Jti, Denied>, t: Token, user: nat): map<Jti, Denied> {
    if t.jti in denied then denied else denied[t.jti := Denied(user, t.exp)]
  }

  function SignIn(s: Server, code: int, user: nat, username: string, now: int): (Server, Reply) {
    (Issue(s, user, username, now, s.signIns).(signIns := s.signIns + 1),
     Tokens(code, AccessToken(s, user, username, now), RefreshToken(s, user, username, now)))
  }

  function Serve(s: Server, now: int, request: Request, dbOk: bool): (Server, Reply) {
    match request
    case Register(username, password) =>
      if Find(s.accounts, username).Some? then (s, Status(409))
      else if !dbOk then (s, Status(500))
      else
        var t := s.(accounts := s.accounts + [Account(username, PasswordHash(password), true)]);
        SignIn(t, 201, |s.accounts|, username, now)
    case Login(username, password) =>
      var user := Find(s.accounts, username);
      if user.None? || user.value >= |s.accounts| then (s, Status(401))
      else if s.accounts[user.value].hash != PasswordHash(password) then (s, Status(401))
      else if !s.accounts[user.value].hasKeys then (s, Status(409))
      else SignIn(s, 200, user.value, username, now)
    case Rotate(refresh) =>
      if !Verifies(s, refresh, Refresh, now) then (s, Status(401))
      else if !dbOk then (s, Status(500))
      else
        var chain := if refresh.jti < |s.chain| then s.chain[refresh.jti] else 0;
        var t := s.(denied := Deny(s.denied, refresh, refresh.user));
        var access := AccessToken(t, refresh.user, refresh.username, now);
        var next := RefreshToken(t, refresh.user, refresh.username, now);
        (Issue(t, refresh.user, refresh.username, now, chain), Tokens(200, access, next))
    case Logout(access, refresh) =>
      if !Authorised(s, access, now) then (s, Status(401))
      else if !Verifies(s, refresh, Refresh, now) then (s, Status(401))
      else if refresh.user != access.value.user then (s, Status(401))
      else if !dbOk then (s, Status(500))
      else (s.(denied := Deny(Deny(s.denied, access.value, refresh.user), refresh, refresh.user)), Status(200))
    case Protected(access, code) =>
      if !Authorised(s, access, now) then (s, Status(401)) else (s, Status(code))
  }

  /** DELETE FROM revoked_tokens WHERE expires_at < NOW(). */
  function Purged(s: Server, now: int): Server {
    s.(denied := map j | j in s.denied && s.denied[j].exp * SECOND >= now :: s.denied[j])
  }

  function Step(s: Server, e: Event): Server {
    if e.Http? then Serve(s, e.now, e.request, e.dbOk).0 else Purged(s, e.now)
  }

  function ReplyTo(s: Server, e: Event): Option<Reply> {
    if e.Http? then Some(Serve(s, e.now, e.request, e.dbOk).1) else None
  }

  // ---------------------------------------------------------------- runs

  function Fresh(accounts: seq<Account>): Server {
    Server(accounts, [], map[], [], 0)
  }

  function After(s: Server, es: seq<Event>): Server {
    if es == [] then s else Step(After(s, es[..|es| - 1]), es[|es| - 1])
  }

  function ReplyAt(s: Server, es: seq<Event>, i: nat): Option<Reply>
    requires i < |es|
  {
    ReplyTo(After(s, es[..i]), es[i])
  }

  /** The clock never goes back, purges included. */
  predicate Ordered(es: seq<Event>) {
    forall i, j :: 0 <= i < j < |es| ==> es[i].now <= es[j].now
  }

  predicate By(es: seq<Event>, now: int) {
    forall i :: 0 <= i < |es| ==> es[i].now <= now
  }

  /** Every token carries its own identifier; every deny-list row carries the owner and expiry of its token. */
  predicate ServerOk(s: Server) {
    |s.chain| == |s.issued| &&
    (forall j :: 0 <= j < |s.issued| ==> s.issued[j].jti == j && s.chain[j] < s.signIns) &&
    (forall j :: j in s.denied ==> j < |s.issued| && s.denied[j] == Denied(s.issued[j].user, s.issued[j].exp))
  }

  lemma StepKeepsServer(s: Server, e: Event)
    requires ServerOk(s)
    ensures ServerOk(Step(s, e)) && s.issued <= Step(s, e).issued && s.chain <= Step(s, e).chain
  {
    if e.Http? { ServeKeeps(s, e.now, e.request, e.dbOk); }
  }

  lemma ServeKeeps(s: Server, now: int, request: Request, dbOk: bool)
    requires ServerOk(s)
    ensures
      var t := Serve(s, now, request, dbOk).0;
      ServerOk(t) && s.issued <= t.issued && s.chain <= t.chain
  {
    match request
    case Register(username, password) =>
      var t := s.(accounts := s.accounts + [Account(username, PasswordHash(password), true)]);
      IssueKeeps(t, |s.accounts|, username, now, s.signIns, s.signIns + 1);
    case Login(username, _) =>
      var user := Find(s.accounts, username);
      if user.Some? { IssueKeeps(s, user.value, username, now, s.signIns, s.signIns + 1); }
    case Rotate(refresh) =>
      if Verifies(s, refresh, Refresh, now) {
        DenyKeeps(s, refresh, refresh.user);
        var t := s.(denied := Deny(s.denied, refresh, refresh.user));
        IssueKeeps(t, refresh.user, refresh.username, now, s.chain[refresh.jti], s.signIns);
      }
    case Logout(access, refresh) =>
      if Authorised(s, access, now) && Verifies(s, refresh, Refresh, now) && refresh.user == access.value.user {
        DenyKeeps(s, access.value, refresh.user);
        DenyKeeps(s.(denied := Deny(s.denied, access.value, refresh.user)), refresh, refresh.user);
      }
    case Protected(_, _) =>
  }

  lemma IssueKeeps(s: Server, user: nat, username: string, now: int, chain: nat, signIns: nat)
    requires ServerOk(s) && chain < signIns && s.signIns <= signIns
    ensures
      var t := Issue(s, user, username, now, chain).(signIns := signIns);
      ServerOk(t) && s.issued <= t.issued && s.chain <= t.chain
  {
  }

  lemma DenyKeeps(s: Server, t: Token, user: nat)
    requires ServerOk(s) && Signed(s, t) && user == t.user
    ensures ServerOk(s.(denied := Deny(s.denied, t, user)))
  {
  }

  lemma {:induction false} RunKeepsServer(s: Server, es: seq<Event>)
    requires ServerOk(s)
    ensures ServerOk(After(s, es)) && s.issued <= After(s, es).issued
  {
    if es == [] {
    } else {
      RunKeepsServer(s, es[..|es| - 1]);
      StepKeepsServer(After(s, es[..|es| - 1]), es[|es| - 1]);
    }
  }

  // ---------------------------------------------------------------- purging is invisible

  /** u is s with some deny-list rows left in, all of them for tokens expired at now. */
  predicate SameButExpired(s: Server, u: Server, now: int) {
    u == s.(denied := u.denied) &&
    (forall j :: j in s.denied ==> j in u.denied && u.denied[j] == s.denied[j]) &&
    (forall j :: j in u.denied && j !in s.denied ==> j < |s.issued| && Expired(s.issued[j], now))
  }

  lemma SameVerdict(s: Server, u: Server, t: Token, kind: Kind, now: int)
    requires SameButExpired(s, u, now)
    ensures Verifies(s, t, kind, now) == Verifies(u, t, kind, now)
  {
  }

  lemma HttpAlike(s: Server, u: Server, now: int, request: Request, dbOk: bool)
    requires SameButExpired(s, u, now)
    ensures Serve(s, now, request, dbOk).1 == Serve(u, now, request, dbOk).1
    ensures SameButExpired(Serve(s, now, request, dbOk).0, Serve(u, now, request, dbOk).0, now)
  {
    match request
    case Register(_, _) =>
    case Login(_, _) =>
    case Rotate(refresh) => SameVerdict(s, u, refresh, Refresh, now);
    case Logout(access, refresh) =>
      SameVerdict(s, u, refresh, Refresh, now);
      if access.Some? { SameVerdict(s, u, access.value, Access, now); }
    case Protected(access, code) =>
      if access.Some? { SameVerdict(s, u, access.value, Access, now); }
  }

  lemma PurgeAlike(s: Server, u: Server, now: int)
    requires ServerOk(s) && SameButExpired(s, u, now)
    ensures SameButExpired(Purged(s, now), u, now)
  {
  }

  lemma Later(s: Server, u: Server, now: int, later: int)
    requires SameButExpired(s, u, now) && now <= later
    ensures SameButExpired(s, u, later)
  {
  }

  function WithoutPurges(es: seq<Event>): seq<Event> {
    if es == [] then []
    else
      var earlier, e := WithoutPurges(es[..|es| - 1]), es[|es| - 1];
      if e.Http? then earlier + [e] else earlier
  }

  /** All the replies of a run, in order. */
  function Replies(s: Server, es: seq<Event>): seq<Reply> {
    if es == [] then []
    else
      var n := |es| - 1;
      var earlier, r := Replies(s, es[..n]), ReplyAt(s, es, n);
      if r.Some? then earlier + [r.value] else earlier
  }

  /**
   * With a clock that never goes back, purging expired rows at any points of any run changes no
   * reply: the run with its purges left out answers every request the same way.
   */
  lemma {:induction false} PurgeInvisible(s: Server, es: seq<Event>, now: int)
    requires ServerOk(s) && Ordered(es) && By(es, now)
    ensures Replies(s, es) == Replies(s, WithoutPurges(es))
    ensures SameButExpired(After(s, es), After(s, WithoutPurges(es)), now)
  {
    if es == [] {
    } else {
      var n := |es| - 1;
      var e, earlier := es[n], WithoutPurges(es[..n]);
      PurgeInvisible(s, es[..n], e.now);
      RunKeepsServer(s, es[..n]);
      if e.Http? {
        assert (earlier + [e])[..|earlier|] == earlier;
        HttpAlike(After(s, es[..n]), After(s, earlier), e.now, e.request, e.dbOk);
      } else {
        PurgeAlike(After(s, es[..n]), After(s, earlier), e.now);
      }
      Later(After(s, es), After(s, WithoutPurges(es)), e.now, now);
    }
  }

  /** Dropping the row of token j at time now goes unnoticed for ever after exactly when j has expired by now. */
  lemma PurgeRowIff(s: Server, j: Jti, now: int)
    requires ServerOk(s) && j in s.denied
    ensures
      (forall t, kind, later :: now <= later ==>
        Verifies(s.(denied := s.denied - {j}), t, kind, later) == Verifies(s, t, kind, later))
      <==> Expired(s.issued[j], now)
  {
    var t := s.issued[j];
    assert Verifies(s.(denied := s.denied - {j}), t, t.kind, now) <==> !Expired(t, now);
    assert !Verifies(s, t, t.kind, now);
  }

  // ---------------------------------------------------------------- at most once

  /** The refresh token a request used up: accepted by rotation or by logout. */
  function Consumed(s: Server, e: Event): Option<Jti> {
    if !e.Http? then None
    else
      var r := Serve(s, e.now, e.request, e.dbOk).1;
      if e.request.Rotate? && r.Tokens? then Some(e.request.refresh.jti)
      else if e.request.Logout? && r == Status(200) then Some(e.request.refresh.jti)
      else None
  }

  function ConsumedAt(s: Server, es: seq<Event>, i: nat): Option<Jti>
    requires i < |es|
  {
    Consumed(After(s, es[..i]), es[i])
  }

  /** Token j can no longer be used at time now. */
  predicate Spent(s: Server, j: Jti, now: int) {
    j < |s.issued| && (j in s.denied || Expired(s.issued[j], now))
  }

  lemma SpentStays(s: Server, e: Event, j: Jti, now: int)
    requires ServerOk(s) && Spent(s, j, now) && now <= e.now
    ensures Spent(Step(s, e), j, e.now)
  {
  }

  lemma ConsumedSpends(s: Server, e: Event)
    requires ServerOk(s) && Consumed(s, e).Some?
    ensures !Spent(s, Consumed(s, e).value, e.now) && Spent(Step(s, e), Consumed(s, e).value, e.now)
    ensures Consumed(s, e).value < |s.issued| && s.issued[Consumed(s, e).value].kind == Refresh
  {
  }

  lemma OrderedPrefix(es: seq<Event>)
    requires Ordered(es) && es != []
    ensures
      var n := |es| - 1;
      Ordered(es[..n]) && By(es[..n], es[n].now)
  {
  }

  lemma SpentLast(s: Server, es: seq<Event>, j: Jti, now: int)
    requires es != [] && ServerOk(After(s, es[..|es| - 1]))
    requires Spent(After(s, es[..|es| - 1]), j, es[|es| - 1].now) && es[|es| - 1].now <= now
    ensures Spent(After(s, es), j, now)
  {
    SpentStays(After(s, es[..|es| - 1]), es[|es| - 1], j, es[|es| - 1].now);
  }

  lemma SamePast(s: Server, es: seq<Event>, n: nat, i: nat)
    requires i < n <= |es|
    ensures ConsumedAt(s, es[..n], i) == ConsumedAt(s, es, i)
  {
    assert es[..n][..i] == es[..i];
  }

  lemma {:induction false} ConsumedStaysSpent(s: Server, es: seq<Event>, i: nat, now: int)
    requires ServerOk(s) && Ordered(es) && By(es, now) && i < |es| && ConsumedAt(s, es, i).Some?
    ensures Spent(After(s, es), ConsumedAt(s, es, i).value, now)
  {
    var n := |es| - 1;
    RunKeepsServer(s, es[..n]);
    OrderedPrefix(es);
    if i == n {
      ConsumedSpends(After(s, es[..n]), es[n]);
    } else {
      SamePast(s, es, n, i);
      ConsumedStaysSpent(s, es[..n], i, es[n].now);
      SpentLast(s, es, ConsumedAt(s, es, i).value, now);
    }
  }

  /** No refresh token is accepted more than once in a run, by rotation or by logout. */
  lemma AtMostOnce(s: Server, es: seq<Event>, i: nat, k: nat)
    requires ServerOk(s) && Ordered(es) && i < k < |es|
    requires ConsumedAt(s, es, i).Some? && ConsumedAt(s, es, k).Some?
    ensures ConsumedAt(s, es, i) != ConsumedAt(s, es, k)
  {
    SamePast(s, es, k, i);
    ConsumedStaysSpent(s, es[..k], i, es[k].now);
    RunKeepsServer(s, es[..k]);
    ConsumedSpends(After(s, es[..k]), es[k]);
  }

  // ---------------------------------------------------------------- acceptance in terms of history

  /** Some earlier reply of the run handed out t as its refresh token. */
  predicate HandedOut(s: Server, es: seq<Event>, t: Token) {
    exists i :: 0 <= i < |es| && IsHandOut(s, es, i, t)
  }

  predicate IsHandOut(s: Server, es: seq<Event>, i: nat, t: Token)
    requires i < |es|
  {
    var r := ReplyAt(s, es, i);
    r.Some? && r.value.Tokens? && r.value.refresh == t
  }

  predicate UsedUp(s: Server, es: seq<Event>, j: Jti) {
    exists i :: 0 <= i < |es| && ConsumedAt(s, es, i) == Some(j)
  }

  lemma {:induction false} HandedOutIff(accounts: seq<Account>, es: seq<Event>, t: Token)
    ensures HandedOut(Fresh(accounts), es, t) <==> Signed(After(Fresh(accounts), es), t) && t.kind == Refresh
  {
    var s := Fresh(accounts);
    RunKeepsServer(s, es);
    if es == [] {
    } else {
      var n := |es| - 1;
      HandedOutIff(accounts, es[..n], t);
      RunKeepsServer(s, es[..n]);
      NewTokens(After(s, es[..n]), es[n], t);
      HandedOutLast(s, es, t);
    }
  }

  lemma HandedOutLast(s: Server, es: seq<Event>, t: Token)
    requires es != []
    ensures
      var n := |es| - 1;
      HandedOut(s, es, t) <==> HandedOut(s, es[..n], t) || IsHandOut(s, es, n, t)
  {
    var n := |es| - 1;
    forall i | 0 <= i < n ensures IsHandOut(s, es, i, t) <==> IsHandOut(s, es[..n], i, t) {
      assert es[..n][..i] == es[..i];
    }
    if HandedOut(s, es[..n], t) {
      var i :| 0 <= i < n && IsHandOut(s, es[..n], i, t);
      assert IsHandOut(s, es, i, t);
    }
  }

  lemma NewTokens(s: Server, e: Event, t: Token)
    requires ServerOk(s)
    ensures
      Signed(Step(s, e), t) && t.kind == Refresh <==>
      (Signed(s, t) && t.kind == Refresh) ||
      (var r := ReplyTo(s, e); r.Some? && r.value.Tokens? && r.value.refresh == t)
  {
  }

  /** A refresh token on the deny list was used up in the run. */
  lemma {:induction false} DeniedWasUsed(accounts: seq<Account>, es: seq<Event>, j: Jti)
    requires
      var s := After(Fresh(accounts), es);
      j in s.denied && j < |s.issued| && s.issued[j].kind == Refresh
    ensures UsedUp(Fresh(accounts), es, j)
  {
    var s := Fresh(accounts);
    if es == [] {
    } else {
      var n := |es| - 1;
      var before := After(s, es[..n]);
      RunKeepsServer(s, es[..n]);
      StepKeepsServer(before, es[n]);
      if j in before.denied {
        DeniedWasUsed(accounts, es[..n], j);
        var i :| 0 <= i < n && ConsumedAt(s, es[..n], i) == Some(j);
        assert es[..n][..i] == es[..i];
        assert ConsumedAt(s, es, i) == Some(j);
      } else {
        DenialsAreUses(before, es[n], j);
        assert ConsumedAt(s, es, n) == Some(j);
      }
    }
  }

  lemma DenialsAreUses(s: Server, e: Event, j: Jti)
    requires ServerOk(s) && j !in s.denied && j in Step(s, e).denied
    requires j < |Step(s, e).issued| && Step(s, e).issued[j].kind == Refresh
    ensures Consumed(s, e) == Some(j)
  {
  }

  /**
   * A rotation is accepted exactly when the run handed that token out as a refresh token, it has
   * not expired, and no rotation or logout of the run has used it up. Purges do not matter.
   */
  lemma RotationAcceptedIff(accounts: seq<Account>, es: seq<Event>, now: int, t: Token)
    requires Ordered(es) && By(es, now)
    ensures
      var s := Fresh(accounts);
      Serve(After(s, es), now, Rotate(t), true).1.Tokens? <==>
      HandedOut(s, es, t) && !Expired(t, now) && !UsedUp(s, es, t.jti)
  {
    var s := Fresh(accounts);
    RunKeepsServer(s, es);
    HandedOutIff(accounts, es, t);
    if UsedUp(s, es, t.jti) {
      var i :| 0 <= i < |es| && ConsumedAt(s, es, i) == Some(t.jti);
      ConsumedStaysSpent(s, es, i, now);
    } else if t.jti in After(s, es).denied && Signed(After(s, es), t) && t.kind == Refresh {
      DeniedWasUsed(accounts, es, t.jti);
    }
  }

  // ---------------------------------------------------------------- conservation

  predicate IsLive(t: Token, denied: map<Jti, Denied>, user: nat) {
    t.kind == Refresh && t.user == user && t.jti !in denied
  }

  /** The refresh tokens of user that are not on the deny list. */
  function LiveCount(issued: seq<Token>, denied: map<Jti, Denied>, user: nat): nat {
    if issued == [] then 0
    else
      LiveCount(issued[..|issued| - 1], denied, user) + (if IsLive(issued[|issued| - 1], denied, user) then 1 else 0)
  }

  predicate Numbered(issued: seq<Token>) {
    forall j :: 0 <= j < |issued| ==> issued[j].jti == j
  }

  lemma LiveAppend(issued: seq<Token>, t: Token, denied: map<Jti, Denied>, user: nat)
    ensures LiveCount(issued + [t], denied, user) ==
      LiveCount(issued, denied, user) + (if IsLive(t, denied, user) then 1 else 0)
  {
    assert (issued + [t])[..|issued|] == issued;
  }

  /** Denying one more token lowers the count by one if it was live, and otherwise not at all. */
  lemma {:induction false} LiveDeny(issued: seq<Token>, denied: map<Jti, Denied>, j: Jti, d: Denied, user: nat)
    requires Numbered(issued)
    ensures LiveCount(issued, denied[j := d], user) ==
      LiveCount(issued, denied, user) - (if j < |issued| && IsLive(issued[j], denied, user) then 1 else 0)
  {
    if issued == [] {
    } else {
      LiveDeny(issued[..|issued| - 1], denied, j, d, user);
    }
  }

  lemma LiveIssue(s: Server, user: nat, username: string, now: int, chain: nat, u: nat)
    requires ServerOk(s)
    ensures
      var t := Issue(s, user, username, now, chain);
      LiveCount(t.issued, t.denied, u) == LiveCount(s.issued, s.denied, u) + (if user == u then 1 else 0)
  {
    var a, r := AccessToken(s, user, username, now), RefreshToken(s, user, username, now);
    LiveAppend(s.issued, a, s.denied, u);
    LiveAppend(s.issued + [a], r, s.denied, u);
    assert s.issued + [a] + [r] == s.issued + [a, r];
  }

  /** Successful sign-ins of user: registrations and logins. */
  function SignedIn(s: Server, e: Event, user: nat): nat {
    if e.Http? && (e.request.Register? || e.request.Login?) &&
       var r := Serve(s, e.now, e.request, e.dbOk).1; r.Tokens? && r.refresh.user == user then 1 else 0
  }

  /** Successful logouts of user. */
  function SignedOut(s: Server, e: Event, user: nat): nat {
    if e.Http? && e.request.Logout? && Serve(s, e.now, e.request, e.dbOk).1 == Status(200) &&
       e.request.refresh.user == user then 1 else 0
  }

  function SignIns(s: Server, es: seq<Event>, user: nat): nat {
    if es == [] then 0
    else SignIns(s, es[..|es| - 1], user) + SignedIn(After(s, es[..|es| - 1]), es[|es| - 1], user)
  }

  function SignOuts(s: Server, es: seq<Event>, user: nat): nat {
    if es == [] then 0
    else SignOuts(s, es[..|es| - 1], user) + SignedOut(After(s, es[..|es| - 1]), es[|es| - 1], user)
  }

  lemma StepConserves(s: Server, e: Event, user: nat)
    requires ServerOk(s) && e.Http?
    ensures LiveCount(Step(s, e).issued, Step(s, e).denied, user) ==
      LiveCount(s.issued, s.denied, user) + SignedIn(s, e, user) - SignedOut(s, e, user)
  {
    match e.request
    case Register(username, _) =>
      LiveIssue(s, |s.accounts|, username, e.now, s.signIns, user);
    case Login(username, _) =>
      var u := Find(s.accounts, username);
      if u.Some? { LiveIssue(s, u.value, username, e.now, s.signIns, user); }
    case Rotate(_) => RotateConserves(s, e, user);
    case Logout(_, _) => LogoutConserves(s, e, user);
    case Protected(_, _) =>
  }

  lemma RotateConserves(s: Server, e: Event, user: nat)
    requires ServerOk(s) && e.Http? && e.request.Rotate?
    ensures LiveCount(Step(s, e).issued, Step(s, e).denied, user) == LiveCount(s.issued, s.denied, user)
  {
    if Serve(s, e.now, e.request, e.dbOk).1.Tokens? {
      var t := e.request.refresh;
      LiveDeny(s.issued, s.denied, t.jti, Denied(t.user, t.exp), user);
      LiveIssue(s.(denied := Deny(s.denied, t, t.user)), t.user, t.username, e.now, s.chain[t.jti], user);
    }
  }

  lemma LogoutConserves(s: Server, e: Event, user: nat)
    requires ServerOk(s) && e.Http? && e.request.Logout?
    ensures LiveCount(Step(s, e).issued, Step(s, e).denied, user) ==
      LiveCount(s.issued, s.denied, user) - SignedOut(s, e, user)
  {
    if Serve(s, e.now, e.request, e.dbOk).1 == Status(200) {
      var a, t := e.request.access.value, e.request.refresh;
      LiveDeny(s.issued, s.denied, a.jti, Denied(t.user, a.exp), user);
      LiveDeny(s.issued, Deny(s.denied, a, t.user), t.jti, Denied(t.user, t.exp), user);
    }
  }

  /**
   * At every point of every run a user's refresh tokens that are not on the deny list number
   * exactly the successful sign-ins less the successful logouts; rotation is neutral.
   */
  lemma {:induction false} Conservation(accounts: seq<Account>, es: seq<Event>, user: nat)
    requires forall i :: 0 <= i < |es| ==> es[i].Http?
    ensures
      var s := Fresh(accounts);
      LiveCount(After(s, es).issued, After(s, es).denied, user) == SignIns(s, es, user) - SignOuts(s, es, user)
  {
    if es == [] {
    } else {
      var n := |es| - 1;
      Conservation(accounts, es[..n], user);
      RunKeepsServer(Fresh(accounts), es[..n]);
      StepConserves(After(Fresh(accounts), es[..n]), es[n], user);
    }
  }

  /** The live refresh tokens of user that have not expired at now. */
  function LiveAt(issued: seq<Token>, denied: map<Jti, Denied>, user: nat, now: int): nat {
    if issued == [] then 0
    else
      var n := |issued| - 1;
      LiveAt(issued[..n], denied, user, now) +
      (if IsLive(issued[n], denied, user) && !Expired(issued[n], now) then 1 else 0)
  }

  /** The refresh tokens of user that expired without ever being used up. */
  function LapsedAt(issued: seq<Token>, denied: map<Jti, Denied>, user: nat, now: int): nat {
    if issued == [] then 0
    else
      var n := |issued| - 1;
      LapsedAt(issued[..n], denied, user, now) +
      (if IsLive(issued[n], denied, user) && Expired(issued[n], now) then 1 else 0)
  }

  lemma {:induction false} LiveOrLapsed(issued: seq<Token>, denied: map<Jti, Denied>, user: nat, now: int)
    ensures LiveCount(issued, denied, user) == LiveAt(issued, denied, user, now) + LapsedAt(issued, denied, user, now)
  {
    if issued == [] {
    } else {
      LiveOrLapsed(issued[..|issued| - 1], denied, user, now);
    }
  }

  /** Rows of expired tokens make no difference to the unexpired ones. */
  lemma {:induction false} LiveAtAlike(issued: seq<Token>, fewer: map<Jti, Denied>, more: map<Jti, Denied>,
                                       user: nat, now: int)
    requires Numbered(issued)
    requires forall j :: j in fewer ==> j in more
    requires forall j :: j in more && j !in fewer && j < |issued| ==> Expired(issued[j], now)
    ensures LiveAt(issued, fewer, user, now) == LiveAt(issued, more, user, now)
  {
    if issued == [] {
    } else {
      LiveAtAlike(issued[..|issued| - 1], fewer, more, user, now);
    }
  }

  lemma {:induction false} SignsAlike(s: Server, es: seq<Event>, user: nat)
    requires ServerOk(s) && Ordered(es)
    ensures SignIns(s, es, user) == SignIns(s, WithoutPurges(es), user)
    ensures SignOuts(s, es, user) == SignOuts(s, WithoutPurges(es), user)
  {
    if es == [] {
    } else {
      var n := |es| - 1;
      var e, earlier := es[n], WithoutPurges(es[..n]);
      OrderedPrefix(es);
      SignsAlike(s, es[..n], user);
      PurgeInvisible(s, es[..n], e.now);
      if e.Http? {
        assert (earlier + [e])[..|earlier|] == earlier;
        HttpAlike(After(s, es[..n]), After(s, earlier), e.now, e.request, e.dbOk);
      }
    }
  }

  lemma {:induction false} OnlyHttp(es: seq<Event>)
    ensures forall i :: 0 <= i < |WithoutPurges(es)| ==> WithoutPurges(es)[i].Http?
  {
    if es == [] {
    } else {
      OnlyHttp(es[..|es| - 1]);
    }
  }

  /**
   * With purges at any points and a clock that never goes back: a user's refresh tokens that are
   * neither denied nor expired number the successful sign-ins less the successful logouts and less
   * the tokens that expired unused, which the run with its purges left out still shows.
   */
  lemma ConservationPurged(accounts: seq<Account>, es: seq<Event>, user: nat, now: int)
    requires Ordered(es) && By(es, now)
    ensures
      var s := Fresh(accounts);
      var t, u := After(s, es), After(s, WithoutPurges(es));
      LiveAt(t.issued, t.denied, user, now) ==
        SignIns(s, es, user) - SignOuts(s, es, user) - LapsedAt(u.issued, u.denied, user, now)
  {
    var s := Fresh(accounts);
    var t, u := After(s, es), After(s, WithoutPurges(es));
    RunKeepsServer(s, es);
    PurgeInvisible(s, es, now);
    LiveAtAlike(t.issued, t.denied, u.denied, user, now);
    SignsAlike(s, es, user);
    OnlyHttp(es);
    Conservation(accounts, WithoutPurges(es), user);
    LiveOrLapsed(u.issued, u.denied, user, now);
  }

  /** A logout answered 200 denies exactly its two tokens, neither denied before; any other logout denies none. */
  lemma LogoutDenies(s: Server, now: int, access: Option<Token>, refresh: Token, dbOk: bool)
    requires ServerOk(s)
    ensures
      var (t, r) := Serve(s, now, Logout(access, refresh), dbOk);
      if r == Status(200) then
        access.Some? && access.value.jti != refresh.jti &&
        access.value.jti !in s.denied && refresh.jti !in s.denied &&
        t.denied.Keys == s.denied.Keys + {access.value.jti, refresh.jti} && t.issued == s.issued
      else t == s
  {
  }

  // ---------------------------------------------------------------- sign-in

  /** name can sign in with this password: its account has that hash, and keys. */
  predicate Credential(s: Server, username: string, password: string) {
    var user := Find(s.accounts, username);
    user.Some? && user.value < |s.accounts| &&
    s.accounts[user.value].hash == PasswordHash(password) && s.accounts[user.value].hasKeys
  }

  predicate RegistersAt(s: Server, es: seq<Event>, i: nat, username: string, password: string)
    requires i < |es|
  {
    es[i].Http? && es[i].request == Register(username, password) && ReplyAt(s, es, i).value.Tokens?
  }

  predicate Registered(s: Server, es: seq<Event>, username: string, password: string) {
    exists i :: 0 <= i < |es| && RegistersAt(s, es, i, username, password)
  }

  lemma {:induction false} FindBound(accounts: seq<Account>, username: string)
    ensures Find(accounts, username).Some? ==>
      Find(accounts, username).value < |accounts| && accounts[Find(accounts, username).value].username == username
  {
    if accounts == [] {
    } else {
      FindBound(accounts[..|accounts| - 1], username);
    }
  }

  lemma StepCredential(s: Server, e: Event, username: string, password: string)
    ensures Credential(Step(s, e), username, password) <==>
      Credential(s, username, password) ||
      (e.Http? && e.request == Register(username, password) && ReplyTo(s, e).value.Tokens?)
  {
    FindBound(s.accounts, username);
    if e.Http? && e.request.Register? {
      var a := Account(e.request.username, PasswordHash(e.request.password), true);
      assert (s.accounts + [a])[..|s.accounts|] == s.accounts;
    }
  }

  /** Signing in succeeds exactly with the name and password of an earlier successful registration. */
  lemma {:induction false} CredentialIff(es: seq<Event>, username: string, password: string)
    ensures Credential(After(Fresh([]), es), username, password) <==> Registered(Fresh([]), es, username, password)
  {
    var s := Fresh([]);
    if es == [] {
    } else {
      var n := |es| - 1;
      CredentialIff(es[..n], username, password);
      StepCredential(After(s, es[..n]), es[n], username, password);
      RegisteredStep(s, es, username, password);
    }
  }

  lemma RegisteredStep(s: Server, es: seq<Event>, username: string, password: string)
    requires es != []
    ensures
      var n := |es| - 1;
      Registered(s, es, username, password) <==>
        Registered(s, es[..n], username, password) || RegistersAt(s, es, n, username, password)
  {
    var n := |es| - 1;
    forall i | 0 <= i < n
      ensures RegistersAt(s, es, i, username, password) <==> RegistersAt(s, es[..n], i, username, password)
    {
      assert es[..n][..i] == es[..i];
    }
    if Registered(s, es[..n], username, password) {
      var i :| 0 <= i < n && RegistersAt(s, es[..n], i, username, password);
      assert RegistersAt(s, es, i, username, password);
    }
  }

  lemma LoginIff(es: seq<Event>, now: int, username: string, password: string, dbOk: bool)
    ensures Serve(After(Fresh([]), es), now, Login(username, password), dbOk).1.Tokens? <==>
      Registered(Fresh([]), es, username, password)
  {
    CredentialIff(es, username, password);
  }
}

/**
 * The token server's answers in terms of what happened before: who holds which account, whose tokens
 * a reply hands out, and exactly which requests are answered how.
 */
module TokenAnswers {
  import opened Common
  import opened Tokens

  // ---------------------------------------------------------------- accounts

  predicate Named(accounts: seq<Account>, username: string) {
    exists u :: 0 <= u < |accounts| && accounts[u].username == username
  }

  predicate UniqueNames(accounts: seq<Account>) {
    forall u, v :: 0 <= u < v < |accounts| ==> accounts[u].username != accounts[v].username
  }

  /** The accounts after a run: a registration adds one if the name is free and the write succeeds. */
  function Enrolled(accounts: seq<Account>, es: seq<Event>): seq<Account> {
    if es == [] then accounts
    else
      var earlier, e := Enrolled(accounts, es[..|es| - 1]), es[|es| - 1];
      if e.Http? && e.request.Register? && !Named(earlier, e.request.username) && e.dbOk
      then earlier + [Account(e.request.username, PasswordHash(e.request.password), true)] else earlier
  }

  lemma {:induction false} FindIs(accounts: seq<Account>, username: string)
    ensures Find(accounts, username).Some? <==> Named(accounts, username)
    ensures Find(accounts, username).Some? ==>
      Find(accounts, username).value < |accounts| && accounts[Find(accounts, username).value].username == username
  {
    if accounts == [] {
    } else {
      var n := |accounts| - 1;
      FindIs(accounts[..n], username);
      if Named(accounts[..n], username) {
        var u :| 0 <= u < n && accounts[..n][u].username == username;
        assert accounts[u].username == username;
      }
      if Named(accounts, username) && accounts[n].username != username {
        var u :| 0 <= u < |accounts| && accounts[u].username == username;
        assert accounts[..n][u].username == username;
      }
    }
  }

  lemma AccountsChange(s: Server, e: Event)
    ensures Step(s, e).accounts ==
      if e.Http? && e.request.Register? && Find(s.accounts, e.request.username).None? && e.dbOk
      then s.accounts + [Account(e.request.username, PasswordHash(e.request.password), true)] else s.accounts
  {
  }

  lemma {:induction false} AccountsAre(accounts: seq<Account>, es: seq<Event>)
    requires UniqueNames(accounts)
    ensures After(Fresh(accounts), es).accounts == Enrolled(accounts, es) && UniqueNames(Enrolled(accounts, es))
  {
    if es == [] {
    } else {
      var before, e := es[..|es| - 1], es[|es| - 1];
      AccountsAre(accounts, before);
      AccountsChange(After(Fresh(accounts), before), e);
      if e.Http? && e.request.Register? {
        FindIs(Enrolled(accounts, before), e.request.username);
      }
    }
  }

  // ---------------------------------------------------------------- whose tokens a reply hands out

  predicate HandsOut(s: Server, t: Server, r: Reply, now: int) {
    r.Tokens? && r.access.kind == Access && r.refresh.kind == Refresh &&
    r.access.user == r.refresh.user && r.access.username == r.refresh.username &&
    r.access.exp == now / 1_000_000 + 3600 && r.refresh.exp == now / 1_000_000 + 604_800 &&
    r.access.jti != r.refresh.jti && r.access.jti >= |s.issued| && r.refresh.jti >= |s.issued| &&
    Signed(t, r.access) && Signed(t, r.refresh) && |t.issued| == |s.issued| + 2 &&
    r.access.jti !in t.denied && r.refresh.jti !in t.denied
  }

  /** The pair belongs to the account that was created, signed in to, or held the token presented. */
  predicate OwnedBy(s: Server, t: Server, q: Request, r: Reply)
    requires r.Tokens?
  {
    var u := r.access.user;
    match q
    case Register(username, password) =>
      u == |s.accounts| < |t.accounts| && r.access.username == username &&
      t.accounts[u] == Account(username, PasswordHash(password), true)
    case Login(username, password) =>
      u < |s.accounts| && r.access.username == username &&
      s.accounts[u] == Account(username, PasswordHash(password), true)
    case Rotate(refresh) => u == refresh.user && r.access.username == refresh.username
    case _ => false
  }

  /** A reply with tokens holds a fresh pair, an hour and a week long, for the right account. */
  lemma TokensFor(s: Server, now: int, q: Request, dbOk: bool)
    requires ServerOk(s) && Serve(s, now, q, dbOk).1.Tokens?
    ensures
      var (t, r) := Serve(s, now, q, dbOk);
      HandsOut(s, t, r, now) && OwnedBy(s, t, q, r)
  {
    match q
    case Register(username, _) =>
    case Login(username, _) => FindIs(s.accounts, username);
    case Rotate(_) =>
    case _ =>
  }

  /** Every token is its account's: the account with the token's user id carries the token's name. */
  predicate OwnersOk(s: Server) {
    forall j :: 0 <= j < |s.issued| ==>
      s.issued[j].user < |s.accounts| && s.accounts[s.issued[j].user].username == s.issued[j].username
  }

  lemma StepOwners(s: Server, e: Event)
    requires ServerOk(s) && OwnersOk(s)
    ensures OwnersOk(Step(s, e))
  {
    AccountsChange(s, e);
    IssuedChange(s, e);
    if e.Http? && Serve(s, e.now, e.request, e.dbOk).1.Tokens? {
      TokensFor(s, e.now, e.request, e.dbOk);
      NewPairOwned(s, e);
    }
  }

  /** The tokens issued are those of the replies. */
  lemma IssuedChange(s: Server, e: Event)
    ensures
      var r := ReplyTo(s, e);
      Step(s, e).issued ==
        if r.Some? && r.value.Tokens? then s.issued + [r.value.access, r.value.refresh] else s.issued
  {
  }

  lemma NewPairOwned(s: Server, e: Event)
    requires ServerOk(s) && OwnersOk(s) && e.Http?
    requires
      var (t, r) := Serve(s, e.now, e.request, e.dbOk);
      r.Tokens? && OwnedBy(s, t, e.request, r)
    ensures
      var (t, r) := Serve(s, e.now, e.request, e.dbOk);
      r.access.user < |t.accounts| && t.accounts[r.access.user].username == r.access.username
  {
    AccountsChange(s, e);
  }

  /** In every run each token ever issued belongs to the account whose name it carries. */
  lemma {:induction false} TokensOwned(accounts: seq<Account>, es: seq<Event>)
    ensures OwnersOk(After(Fresh(accounts), es))
  {
    if es == [] {
    } else {
      var before := es[..|es| - 1];
      TokensOwned(accounts, before);
      RunKeepsServer(Fresh(accounts), before);
      StepOwners(After(Fresh(accounts), before), es[|es| - 1]);
    }
  }

  // ---------------------------------------------------------------- access tokens

  predicate IsAccessHandOut(s: Server, es: seq<Event>, i: nat, t: Token)
    requires i < |es|
  {
    var r := ReplyAt(s, es, i);
    r.Some? && r.value.Tokens? && r.value.access == t
  }

  /** Some earlier reply of the run handed out t as its access token. */
  predicate AccessHandedOut(s: Server, es: seq<Event>, t: Token) {
    exists i :: 0 <= i < |es| && IsAccessHandOut(s, es, i, t)
  }

  /** A logout answered 200 that presented access token j. */
  predicate Closes(s: Server, e: Event, j: Jti) {
    e.Http? && e.request.Logout? && e.request.access.Some? && e.request.access.value.jti == j &&
    Serve(s, e.now, e.request, e.dbOk).1 == Status(200)
  }

  predicate ClosesAt(s: Server, es: seq<Event>, i: nat, j: Jti)
    requires i < |es|
  {
    Closes(After(s, es[..i]), es[i], j)
  }

  predicate Closed(s: Server, es: seq<Event>, j: Jti) {
    exists i :: 0 <= i < |es| && ClosesAt(s, es, i, j)
  }

  lemma NewAccess(s: Server, e: Event, t: Token)
    requires ServerOk(s)
    ensures
      Signed(Step(s, e), t) && t.kind == Access <==>
      (Signed(s, t) && t.kind == Access) ||
      (var r := ReplyTo(s, e); r.Some? && r.value.Tokens? && r.value.access == t)
  {
  }

  lemma AccessHandedOutLast(s: Server, es: seq<Event>, t: Token)
    requires es != []
    ensures
      var n := |es| - 1;
      AccessHandedOut(s, es, t) <==> AccessHandedOut(s, es[..n], t) || IsAccessHandOut(s, es, n, t)
  {
    var n := |es| - 1;
    forall i | 0 <= i < n ensures IsAccessHandOut(s, es, i, t) <==> IsAccessHandOut(s, es[..n], i, t) {
      assert es[..n][..i] == es[..i];
    }
    if AccessHandedOut(s, es[..n], t) {
      var i :| 0 <= i < n && IsAccessHandOut(s, es[..n], i, t);
      assert IsAccessHandOut(s, es, i, t);
    }
  }

  /** The genuine access tokens are those that replies handed out. */
  lemma {:induction false} AccessHandedOutIff(accounts: seq<Account>, es: seq<Event>, t: Token)
    ensures AccessHandedOut(Fresh(accounts), es, t) <==> Signed(After(Fresh(accounts), es), t) && t.kind == Access
  {
    var s := Fresh(accounts);
    if es == [] {
    } else {
      var n := |es| - 1;
      AccessHandedOutIff(accounts, es[..n], t);
      RunKeepsServer(s, es[..n]);
      NewAccess(After(s, es[..n]), es[n], t);
      AccessHandedOutLast(s, es, t);
    }
  }

  lemma ClosedLast(s: Server, es: seq<Event>, j: Jti)
    requires es != []
    ensures
      var n := |es| - 1;
      Closed(s, es, j) <==> Closed(s, es[..n], j) || ClosesAt(s, es, n, j)
  {
    var n := |es| - 1;
    forall i | 0 <= i < n ensures ClosesAt(s, es, i, j) <==> ClosesAt(s, es[..n], i, j) {
      assert es[..n][..i] == es[..i];
    }
    if Closed(s, es[..n], j) {
      var i :| 0 <= i < n && ClosesAt(s, es[..n], i, j);
      assert ClosesAt(s, es, i, j);
    }
  }

  lemma DeniedStep(s: Server, e: Event, j: Jti)
    requires ServerOk(s) && j < |Step(s, e).issued| && Step(s, e).issued[j].kind == Access
    ensures j in Step(s, e).denied ==> j in s.denied || Closes(s, e, j)
    ensures Closes(s, e, j) ==> j in Step(s, e).denied
  {
  }

  /** An access token on the deny list was logged out; one that was logged out is denied or has expired. */
  lemma {:induction false} DeniedIffClosed(accounts: seq<Account>, es: seq<Event>, j: Jti, now: int)
    requires Ordered(es) && By(es, now)
    requires j < |After(Fresh(accounts), es).issued| && After(Fresh(accounts), es).issued[j].kind == Access
    ensures j in After(Fresh(accounts), es).denied ==> Closed(Fresh(accounts), es, j)
    ensures Closed(Fresh(accounts), es, j) ==> Spent(After(Fresh(accounts), es), j, now)
  {
    var s := Fresh(accounts);
    if es == [] {
    } else {
      var n := |es| - 1;
      var before := After(s, es[..n]);
      RunKeepsServer(s, es[..n]);
      OrderedPrefix(es);
      StepKeepsServer(before, es[n]);
      DeniedStep(before, es[n], j);
      ClosedLast(s, es, j);
      if j < |before.issued| {
        DeniedIffClosed(accounts, es[..n], j, es[n].now);
        if Closed(s, es[..n], j) { SpentLast(s, es, j, now); }
      } else {
        NotIssuedNotClosed(accounts, es[..n], j);
      }
    }
  }

  lemma {:induction false} NotIssuedNotClosed(accounts: seq<Account>, es: seq<Event>, j: Jti)
    requires j >= |After(Fresh(accounts), es).issued|
    ensures !Closed(Fresh(accounts), es, j)
  {
    var s := Fresh(accounts);
    if es == [] {
    } else {
      var n := |es| - 1;
      RunKeepsServer(s, es[..n]);
      StepKeepsServer(After(s, es[..n]), es[n]);
      NotIssuedNotClosed(accounts, es[..n], j);
      ClosedLast(s, es, j);
    }
  }

  // ---------------------------------------------------------------- every answer in terms of history

  /** The run handed t out as a refresh token, and it has neither expired nor been used up. */
  predicate RefreshGood(s: Server, es: seq<Event>, t: Token, now: int) {
    HandedOut(s, es, t) && !Expired(t, now) && !UsedUp(s, es, t.jti)
  }

  /** The run handed t out as an access token, and it has neither expired nor been logged out. */
  predicate AccessGood(s: Server, es: seq<Event>, access: Option<Token>, now: int) {
    access.Some? && AccessHandedOut(s, es, access.value) && !Expired(access.value, now) &&
    !Closed(s, es, access.value.jti)
  }

  lemma RefreshGoodIff(accounts: seq<Account>, es: seq<Event>, t: Token, now: int)
    requires Ordered(es) && By(es, now)
    ensures RefreshGood(Fresh(accounts), es, t, now) <==> Verifies(After(Fresh(accounts), es), t, Refresh, now)
  {
    RotationAcceptedIff(accounts, es, now, t);
  }

  lemma AccessGoodIff(accounts: seq<Account>, es: seq<Event>, access: Option<Token>, now: int)
    requires Ordered(es) && By(es, now)
    ensures AccessGood(Fresh(accounts), es, access, now) <==> Authorised(After(Fresh(accounts), es), access, now)
  {
    if access.Some? {
      var t := access.value;
      RunKeepsServer(Fresh(accounts), es);
      AccessHandedOutIff(accounts, es, t);
      if AccessHandedOut(Fresh(accounts), es, t) {
        DeniedIffClosed(accounts, es, t.jti, now);
      }
    }
  }

  /** How each request is to be answered after a run. */
  function Answer(accounts: seq<Account>, es: seq<Event>, now: int, q: Request, dbOk: bool): int {
    var s := Fresh(accounts);
    match q
    case Register(username, _) => if Named(Enrolled(accounts, es), username) then 409 else if !dbOk then 500 else 201
    case Login(username, password) =>
      if Account(username, PasswordHash(password), true) in Enrolled(accounts, es) then 200
      else if Account(username, PasswordHash(password), false) in Enrolled(accounts, es) then 409
      else 401
    case Rotate(refresh) => if !RefreshGood(s, es, refresh, now) then 401 else if !dbOk then 500 else 200
    case Logout(access, refresh) =>
      if !AccessGood(s, es, access, now) || !RefreshGood(s, es, refresh, now) then 401
      else if refresh.user != access.value.user then 401
      else if !dbOk then 500
      else 200
    case Protected(access, code) => if AccessGood(s, es, access, now) then code else 401
  }

  lemma LoginAnswer(accounts: seq<Account>, es: seq<Event>, now: int, q: Request, dbOk: bool)
    requires UniqueNames(accounts) && q.Login?
    ensures Serve(After(Fresh(accounts), es), now, q, dbOk).1.code == Answer(accounts, es, now, q, dbOk)
  {
    var enrolled := Enrolled(accounts, es);
    AccountsAre(accounts, es);
    FindIs(enrolled, q.username);
    forall hasKeys | Account(q.username, PasswordHash(q.password), hasKeys) in enrolled
      ensures Find(enrolled, q.username).Some? &&
        enrolled[Find(enrolled, q.username).value] == Account(q.username, PasswordHash(q.password), hasKeys)
    {
      var a := Account(q.username, PasswordHash(q.password), hasKeys);
      var u :| 0 <= u < |enrolled| && enrolled[u] == a;
      SameAccount(enrolled, u, Find(enrolled, q.username).value);
    }
  }

  lemma SameAccount(accounts: seq<Account>, u: nat, v: nat)
    requires UniqueNames(accounts) && u < |accounts| && v < |accounts| && accounts[u].username == accounts[v].username
    ensures u == v
  {
  }

  /**
   * After any run of requests and purges with a clock that never goes back, every request is answered
   * by what happened in the run: names and passwords registered, tokens handed out, used up, logged out.
   */
  lemma AnswerIs(accounts: seq<Account>, es: seq<Event>, now: int, q: Request, dbOk: bool)
    requires UniqueNames(accounts) && Ordered(es) && By(es, now)
    ensures Serve(After(Fresh(accounts), es), now, q, dbOk).1.code == Answer(accounts, es, now, q, dbOk)
  {
    match q
    case Register(username, _) => AccountsAre(accounts, es); FindIs(Enrolled(accounts, es), username);
    case Login(_, _) => LoginAnswer(accounts, es, now, q, dbOk);
    case Rotate(refresh) => RefreshGoodIff(accounts, es, refresh, now);
    case Logout(access, refresh) =>
      AccessGoodIff(accounts, es, access, now);
      RefreshGoodIff(accounts, es, refresh, now);
    case Protected(access, _) => AccessGoodIff(accounts, es, access, now);
  }

  /** Tokens are handed out exactly with 200 to a login or refresh and 201 to a registration. */
  lemma TokensIff(s: Server, now: int, q: Request, dbOk: bool)
    ensures Serve(s, now, q, dbOk).1.Tokens? <==>
      match q
      case Register(_, _) => Serve(s, now, q, dbOk).1.code == 201
      case Login(_, _) => Serve(s, now, q, dbOk).1.code == 200
      case Rotate(_) => Serve(s, now, q, dbOk).1.code == 200
      case _ => false
  {
  }

  /** A request that is refused or cannot write changes nothing. */
  lemma RefusedUnchanged(s: Server, now: int, q: Request, dbOk: bool)
    ensures
      var (t, r) := Serve(s, now, q, dbOk);
      !r.Tokens? && !(q.Logout? && r == Status(200)) ==> t == s
  {
  }

  /** A purge takes away exactly the rows of tokens that expired before now. */
  lemma PurgeIs(s: Server, now: int, j: Jti)
    requires ServerOk(s)
    ensures j in Purged(s, now).denied <==> j in s.denied && !(s.issued[j].exp * 1_000_000 < now)
    ensures Purged(s, now) == s.(denied := Purged(s, now).denied)
  {
  }
}

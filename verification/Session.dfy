/**
 * The browser's half of the token protocol: the session kept in memory and mirrored in
 * sessionStorage, refresh and retry, and what both halves keep between calls.
 */
module Sessions {
  import opened Common
  import opened Tokens

  /**
   * What sessionStorage holds under sm_session. envelope: it has the encrypted private key;
   * keyDecodes: its public key is base64. Malformed: it is not JSON.
   */
  datatype Mirror =
    | Mirror(access: Option<Token>, refresh: Option<Token>, envelope: bool, keyDecodes: bool)
    | Malformed

  /** The tokens in memory, and the sm_session entry of sessionStorage. */
  datatype Client = Client(access: Option<Token>, refresh: Option<Token>, stored: Option<Mirror>)

  /** A request as the client writes it down before it knows which access token will go with it. */
  datatype Call =
    | AskRegister(username: string, password: string)
    | AskLogin(username: string, password: string)
    | AskLogout(refresh: Option<Token>)
    | AskProtected(code: int)

  datatype Outcome = Answer(reply: Reply) | HttpError(code: int) | SessionExpired | NoCall

  datatype Exchange = Exchange(request: Request, code: int)

  /** When the up to three requests of one call reach the server, and whether its writes succeed. */
  datatype Timing = Timing(first: int, refresh: int, retry: int, dbFirst: bool, dbRefresh: bool, dbRetry: bool)

  datatype Result = Result(client: Client, server: Server, outcome: Outcome, trace: seq<Exchange>)

  const CLEARED := Client(None, None, None)

  /** What the server answers an authorised request whose body does not parse. */
  const BAD_BODY: int := 400

  function WithHeader(call: Call, access: Option<Token>): Request {
    match call
    case AskRegister(username, password) => Register(username, password)
    case AskLogin(username, password) => Login(username, password)
    case AskLogout(refresh) => if refresh.Some? then Logout(access, refresh.value) else Protected(access, BAD_BODY)
    case AskProtected(code) => Protected(access, code)
  }

  predicate IsOk(r: Reply) {
    200 <= r.code < 300
  }

  function OutcomeOf(r: Reply): Outcome {
    if IsOk(r) then Answer(r) else HttpError(r.code)
  }

  predicate Readable(stored: Option<Mirror>) {
    stored != Some(Malformed)
  }

  /** The tokens of a successful refresh, in memory and in the mirror if there is one. */
  function Adopt(c: Client, r: Reply): Client
    requires r.Tokens? && Readable(c.stored)
  {
    Client(Some(r.access), Some(r.refresh),
      if c.stored.Some? then Some(c.stored.value.(access := Some(r.access), refresh := Some(r.refresh))) else None)
  }

  /** One fetch with the access token in memory. */
  function Fetch(c: Client, s: Server, call: Call, now: int, dbOk: bool): Result {
    var q := WithHeader(call, c.access);
    var (t, r) := Serve(s, now, q, dbOk);
    Result(c, t, OutcomeOf(r), [Exchange(q, r.code)])
  }

  /** tryRefreshToken, then the retry; a refused refresh ends the session, and so does a mirror that cannot be read. */
  function RefreshAndRetry(c: Client, s: Server, call: Call, t: Timing): Result
    requires c.refresh.Some?
  {
    var q := Rotate(c.refresh.value);
    var (u, r) := Serve(s, t.refresh, q, t.dbRefresh);
    if !r.Tokens? || !Readable(c.stored) then Result(CLEARED, u, SessionExpired, [Exchange(q, r.code)])
    else
      var retry := Fetch(Adopt(c, r), u, call, t.retry, t.dbRetry);
      retry.(trace := [Exchange(q, r.code)] + retry.trace)
  }

  /** apiFetch: on 401, refresh once and send the same call again. */
  function ApiFetch(c: Client, s: Server, call: Call, t: Timing): Result {
    var first := Fetch(c, s, call, t.first, t.dbFirst);
    if first.outcome != HttpError(401) || c.refresh.None? then first
    else
      var second := RefreshAndRetry(c, first.server, call, t);
      second.(trace := first.trace + second.trace)
  }

  /** Whether the account has an envelope that opens, and whether its public key decodes and can be imported. */
  datatype Keys = Good | EnvelopeFails | ImportFails

  /** storeSession: the mirror is written last, after the key material has been imported. */
  function StoreSession(c: Client, r: Reply, keys: Keys): Client
    requires r.Tokens?
  {
    match keys
    case Good => Client(Some(r.access), Some(r.refresh), Some(Mirror(Some(r.access), Some(r.refresh), true, true)))
    case EnvelopeFails => c
    case ImportFails => Client(Some(r.access), Some(r.refresh), c.stored)
  }

  /**
   * restoreSession after a page load. An entry without envelope or access token is dropped; one
   * whose public key does not decode is dropped after its tokens have been taken over.
   */
  function Restored(stored: Option<Mirror>): Client {
    if stored.None? || stored.value.Malformed? || !stored.value.envelope || stored.value.access.None? then CLEARED
    else Client(stored.value.access, stored.value.refresh, if stored.value.keyDecodes then stored else None)
  }

  datatype Action =
    | SignUp(username: string, password: string, keys: Keys)
    | SignIn(username: string, password: string, keys: Keys)
    | SignOut
    | Use(code: int)
    | Reload

  function Act(c: Client, s: Server, a: Action, t: Timing): Result {
    match a
    case SignUp(username, password, keys) =>
      var r := ApiFetch(c, s, AskRegister(username, password), t);
      if r.outcome.Answer? && r.outcome.reply.Tokens?
      then r.(client := StoreSession(r.client, r.outcome.reply, keys)) else r
    case SignIn(username, password, keys) =>
      var r := ApiFetch(c, s, AskLogin(username, password), t);
      if r.outcome.Answer? && r.outcome.reply.Tokens?
      then r.(client := StoreSession(r.client, r.outcome.reply, keys)) else r
    case SignOut =>
      if c.access.None? then Result(c, s, NoCall, [])
      else ApiFetch(c, s, AskLogout(c.refresh), t).(client := CLEARED)
    case Use(code) => ApiFetch(c, s, AskProtected(code), t)
    case Reload => Result(Restored(c.stored), s, NoCall, [])
  }

  // ---------------------------------------------------------------- rotation chains

  predicate SameChain(s: Server, j: Jti, k: Jti)
    requires j < |s.issued| && k < |s.issued| && j < |s.chain| && k < |s.chain|
  {
    s.issued[j].kind == Refresh && s.issued[k].kind == Refresh && s.chain[j] == s.chain[k]
  }

  /** In every chain all refresh tokens but the newest are denied or have expired. */
  predicate HeadsOk(s: Server, now: int) {
    forall j, k :: 0 <= j < k < |s.issued| && k < |s.chain| && SameChain(s, j, k) ==>
      j in s.denied || Expired(s.issued[j], now)
  }

  lemma ServeGrows(s: Server, now: int, request: Request, dbOk: bool)
    requires ServerOk(s)
    ensures
      var t := Serve(s, now, request, dbOk).0;
      ServerOk(t) && s.issued <= t.issued && s.chain <= t.chain && s.signIns <= t.signIns
  {
    StepKeepsServer(s, Http(now, request, dbOk));
  }

  /** Every request keeps all but the newest refresh token of each chain denied or expired. */
  lemma ServeHeads(s: Server, clock: int, now: int, request: Request, dbOk: bool)
    requires ServerOk(s) && HeadsOk(s, clock) && clock <= now
    ensures HeadsOk(Serve(s, now, request, dbOk).0, now)
  {
    var t := Serve(s, now, request, dbOk).0;
    ServeGrows(s, now, request, dbOk);
    forall j, k | 0 <= j < k < |t.issued| && SameChain(t, j, k) ensures j in t.denied || Expired(t.issued[j], now) {
      if k < |s.issued| {
        assert SameChain(s, j, k);
        if j in s.denied { StillDenied(s, now, request, dbOk, j); }
      } else if request.Rotate? {
        NewHead(s, clock, now, request.refresh, dbOk, j);
      }
    }
  }

  lemma StillDenied(s: Server, now: int, request: Request, dbOk: bool, j: Jti)
    requires j in s.denied
    ensures j in Serve(s, now, request, dbOk).0.denied
  {
  }

  /** A rotation leaves every older refresh token of its chain denied or expired. */
  lemma NewHead(s: Server, clock: int, now: int, r: Token, dbOk: bool, j: nat)
    requires ServerOk(s) && HeadsOk(s, clock) && clock <= now
    requires j < |s.issued| && Serve(s, now, Rotate(r), dbOk).1.Tokens?
    requires s.issued[j].kind == Refresh && s.chain[j] == s.chain[r.jti]
    ensures j in Serve(s, now, Rotate(r), dbOk).0.denied || Expired(s.issued[j], now)
  {
    assert j < r.jti ==> SameChain(s, j, r.jti);
    assert r.jti < j ==> SameChain(s, r.jti, j);
  }

  lemma PurgeHeads(s: Server, clock: int, now: int)
    requires ServerOk(s) && HeadsOk(s, clock) && clock <= now
    ensures HeadsOk(Purged(s, now), now)
  {
    var t := Purged(s, now);
    forall j, k | 0 <= j < k < |t.issued| && k < |t.chain| && SameChain(t, j, k)
      ensures j in t.denied || Expired(t.issued[j], now)
    {
      assert SameChain(s, j, k);
    }
  }

  /** Nothing of chain c was issued or denied on the way from s to t. */
  predicate Quiet(s: Server, t: Server, c: nat) {
    s.issued <= t.issued && s.chain <= t.chain && s.signIns <= t.signIns &&
    (forall j :: |s.issued| <= j < |t.issued| && j < |t.chain| ==> t.chain[j] != c) &&
    (forall j :: 0 <= j < |s.issued| && j < |s.chain| && s.chain[j] == c && j in t.denied ==> j in s.denied)
  }

  predicate QuietExcept(s: Server, t: Server, own: Option<nat>) {
    forall c :: 0 <= c < s.signIns && own != Some(c) ==> Quiet(s, t, c)
  }

  /** The genuine tokens a request presents all belong to chain own. */
  predicate Presents(s: Server, request: Request, own: Option<nat>) {
    match request
    case Register(_, _) => true
    case Login(_, _) => true
    case Rotate(refresh) => InChain(s, refresh, own)
    case Logout(access, refresh) => (access.Some? ==> InChain(s, access.value, own)) && InChain(s, refresh, own)
    case Protected(access, _) => access.Some? ==> InChain(s, access.value, own)
  }

  predicate InChain(s: Server, t: Token, own: Option<nat>) {
    Signed(s, t) && t.jti < |s.chain| ==> own == Some(s.chain[t.jti])
  }

  lemma ServeQuiet(s: Server, now: int, request: Request, dbOk: bool, own: Option<nat>)
    requires ServerOk(s) && Presents(s, request, own)
    ensures QuietExcept(s, Serve(s, now, request, dbOk).0, own)
    ensures ServerOk(Serve(s, now, request, dbOk).0) && s.signIns <= Serve(s, now, request, dbOk).0.signIns
  {
    ServeGrows(s, now, request, dbOk);
  }

  lemma QuietTwice(s: Server, t: Server, u: Server, own: Option<nat>)
    requires ServerOk(s) && ServerOk(t) && QuietExcept(s, t, own) && QuietExcept(t, u, own)
    requires s.signIns <= t.signIns && s.issued <= t.issued && s.chain <= t.chain
    ensures QuietExcept(s, u, own)
  {
    forall c | 0 <= c < s.signIns && own != Some(c) ensures Quiet(s, u, c) {
      assert Quiet(s, t, c) && Quiet(t, u, c);
    }
  }

  // ---------------------------------------------------------------- what holds between calls

  predicate SamePair(s: Server, a: Token, r: Token) {
    Signed(s, a) && Signed(s, r) && a.kind == Access && r.kind == Refresh && a.user == r.user && a.exp <= r.exp &&
    a.jti < |s.chain| && r.jti < |s.chain| && s.chain[a.jti] == s.chain[r.jti] &&
    a.jti !in s.denied && r.jti !in s.denied
  }

  /** r is the newest refresh token of its chain. */
  predicate IsHead(s: Server, r: Token) {
    r.jti < |s.chain| &&
    forall k :: 0 <= k < |s.issued| && k < |s.chain| && s.issued[k].kind == Refresh && s.chain[k] == s.chain[r.jti] ==>
      k <= r.jti
  }

  /** Logged out with nothing left behind, or holding one genuine pair, mirrored, at the head of its chain. */
  predicate ClientOk(s: Server, c: Client) {
    if c.access.None? then c == CLEARED
    else
      c.refresh.Some? && c.stored == Some(Mirror(c.access, c.refresh, true, true)) &&
      SamePair(s, c.access.value, c.refresh.value) && IsHead(s, c.refresh.value)
  }

  function ChainOf(s: Server, c: Client): Option<nat> {
    if c.access.Some? && c.access.value.jti < |s.chain| then Some(s.chain[c.access.value.jti]) else None
  }

  lemma QuietKeepsClient(s: Server, t: Server, c: Client, own: Option<nat>)
    requires ServerOk(s) && ServerOk(t) && QuietExcept(s, t, own) && ClientOk(s, c)
    requires c.access.Some? ==> own != ChainOf(s, c)
    ensures ClientOk(t, c)
    ensures c.access.Some? ==> ChainOf(t, c) == ChainOf(s, c)
  {
    if c.access.Some? {
      assert Quiet(s, t, s.chain[c.access.value.jti]);
    }
  }

  /** The pair a successful sign-in or refresh hands out is genuine, live and at the head of its chain. */
  lemma FreshPair(s: Server, now: int, request: Request, dbOk: bool)
    requires ServerOk(s)
    ensures
      var (t, r) := Serve(s, now, request, dbOk);
      r.Tokens? ==>
        SamePair(t, r.access, r.refresh) && IsHead(t, r.refresh) &&
        !Expired(r.access, now) && !Expired(r.refresh, now) && IsOk(r) &&
        t.chain[r.access.jti] == if request.Rotate? then s.chain[request.refresh.jti] else s.signIns
  {
    ServeGrows(s, now, request, dbOk);
  }

  // ---------------------------------------------------------------- one call keeps it

  predicate InTime(t: Timing, now: int) {
    now <= t.first <= t.refresh <= t.retry
  }

  /** The calls a browser makes with no token in the body leave its own pair alone. */
  lemma FetchKeepsClient(s: Server, c: Client, call: Call, now: int, dbOk: bool)
    requires ServerOk(s) && ClientOk(s, c) && !call.AskLogout?
    ensures
      var (t, r) := Serve(s, now, WithHeader(call, c.access), dbOk);
      ServerOk(t) && QuietExcept(s, t, None) && s.signIns <= t.signIns && s.issued <= t.issued && s.chain <= t.chain &&
      ClientOk(t, c) && (c.access.Some? ==> ChainOf(t, c) == ChainOf(s, c)) &&
      (r.Tokens? ==> IsSignIn(s, t, r))
  {
    var request := WithHeader(call, c.access);
    ServeGrows(s, now, request, dbOk);
    if !call.AskProtected? {
      var t := Serve(s, now, request, dbOk).0;
      ServeQuiet(s, now, request, dbOk, None);
      QuietKeepsClient(s, t, c, None);
      FreshPair(s, now, request, dbOk);
    }
  }

  /** r hands out the pair of a chain that did not exist in s. */
  predicate IsSignIn(s: Server, t: Server, r: Reply) {
    r.Tokens? && SamePair(t, r.access, r.refresh) && IsHead(t, r.refresh) && t.chain[r.access.jti] >= s.signIns
  }

  lemma RefreshKeepsClient(s: Server, c: Client, now: int, dbOk: bool)
    requires ServerOk(s) && ClientOk(s, c) && c.refresh.Some?
    ensures
      var (t, r) := Serve(s, now, Rotate(c.refresh.value), dbOk);
      ServerOk(t) && QuietExcept(s, t, ChainOf(s, c)) && s.signIns <= t.signIns &&
      s.issued <= t.issued && s.chain <= t.chain &&
      (r.Tokens? ==> ClientOk(t, Adopt(c, r)) && ChainOf(t, Adopt(c, r)) == ChainOf(s, c))
  {
    var request := Rotate(c.refresh.value);
    ServeGrows(s, now, request, dbOk);
    ServeQuiet(s, now, request, dbOk, ChainOf(s, c));
    FreshPair(s, now, request, dbOk);
  }

  /** What one call of a browser does to the server as far as everybody else can tell. */
  predicate Contained(s: Server, t: Server, own: Option<nat>) {
    ServerOk(t) && QuietExcept(s, t, own) && s.signIns <= t.signIns && s.issued <= t.issued && s.chain <= t.chain
  }

  lemma ContainedTwice(s: Server, t: Server, u: Server, own: Option<nat>)
    requires ServerOk(s) && Contained(s, t, own) && Contained(t, u, own)
    ensures Contained(s, u, own)
  {
    QuietTwice(s, t, u, own);
  }

  lemma QuieterContained(s: Server, t: Server, own: Option<nat>)
    requires Contained(s, t, None)
    ensures Contained(s, t, own)
  {
  }

  /** What a call leaves behind for the browser that made it. */
  predicate Kept(s: Server, r: Result, own: Option<nat>) {
    Contained(s, r.server, own) && ClientOk(r.server, r.client) &&
    (r.client.access.Some? ==> ChainOf(r.server, r.client) == own) &&
    (r.outcome.Answer? && r.outcome.reply.Tokens? ==> IsSignIn(s, r.server, r.outcome.reply))
  }

  lemma RetryKeeps(s: Server, c: Client, call: Call, t: Timing)
    requires ServerOk(s) && ClientOk(s, c) && c.refresh.Some? && !call.AskLogout?
    ensures Kept(s, RefreshAndRetry(c, s, call, t), ChainOf(s, c))
  {
    var (u, r) := Serve(s, t.refresh, Rotate(c.refresh.value), t.dbRefresh);
    RefreshKeepsClient(s, c, t.refresh, t.dbRefresh);
    if r.Tokens? {
      FetchKeepsClient(u, Adopt(c, r), call, t.retry, t.dbRetry);
      var v := Fetch(Adopt(c, r), u, call, t.retry, t.dbRetry).server;
      QuieterContained(u, v, ChainOf(s, c));
      ContainedTwice(s, u, v, ChainOf(s, c));
    }
  }

  lemma ApiFetchKeeps(s: Server, c: Client, call: Call, t: Timing)
    requires ServerOk(s) && ClientOk(s, c) && !call.AskLogout?
    ensures Kept(s, ApiFetch(c, s, call, t), ChainOf(s, c))
  {
    var first := Fetch(c, s, call, t.first, t.dbFirst);
    FetchKeepsClient(s, c, call, t.first, t.dbFirst);
    QuieterContained(s, first.server, ChainOf(s, c));
    if first.outcome == HttpError(401) && c.refresh.Some? {
      RetryKeeps(first.server, c, call, t);
      ContainedTwice(s, first.server, RefreshAndRetry(c, first.server, call, t).server, ChainOf(s, c));
    }
  }

  lemma ServeContained(s: Server, now: int, request: Request, dbOk: bool, own: Option<nat>)
    requires ServerOk(s) && Presents(s, request, own)
    ensures Contained(s, Serve(s, now, request, dbOk).0, own)
  {
    ServeGrows(s, now, request, dbOk);
    ServeQuiet(s, now, request, dbOk, own);
  }

  /** Logging out presents the browser's own tokens only. */
  lemma LogoutPresents(s: Server, c: Client)
    requires ServerOk(s) && ClientOk(s, c) && c.access.Some?
    ensures Presents(s, WithHeader(AskLogout(c.refresh), c.access), ChainOf(s, c))
  {
  }

  lemma RetriedLogoutPresents(s: Server, c: Client, now: int, dbOk: bool)
    requires ServerOk(s) && ClientOk(s, c) && c.access.Some? && Serve(s, now, Rotate(c.refresh.value), dbOk).1.Tokens?
    ensures
      var (u, r) := Serve(s, now, Rotate(c.refresh.value), dbOk);
      Presents(u, WithHeader(AskLogout(c.refresh), Some(r.access)), ChainOf(s, c))
  {
    FreshPair(s, now, Rotate(c.refresh.value), dbOk);
  }

  lemma RetriedLogoutContained(s: Server, c: Client, t: Timing)
    requires ServerOk(s) && ClientOk(s, c) && c.access.Some?
    ensures Contained(s, RefreshAndRetry(c, s, AskLogout(c.refresh), t).server, ChainOf(s, c))
  {
    var own := ChainOf(s, c);
    var (u, r) := Serve(s, t.refresh, Rotate(c.refresh.value), t.dbRefresh);
    RefreshKeepsClient(s, c, t.refresh, t.dbRefresh);
    if r.Tokens? {
      var q := WithHeader(AskLogout(c.refresh), Some(r.access));
      RetriedLogoutPresents(s, c, t.refresh, t.dbRefresh);
      ServeContained(u, t.retry, q, t.dbRetry, own);
      ContainedTwice(s, u, Serve(u, t.retry, q, t.dbRetry).0, own);
    }
  }

  lemma RefusedChangesNothing(s: Server, c: Client, now: int, dbOk: bool)
    requires c.access.Some? && c.refresh.Some?
    ensures
      var f := Fetch(c, s, AskLogout(c.refresh), now, dbOk);
      f.outcome == HttpError(401) ==> f.server == s
  {
  }

  /** The whole call, refreshed or not. */
  lemma LogoutContained(s: Server, c: Client, t: Timing)
    requires ServerOk(s) && ClientOk(s, c) && c.access.Some?
    ensures Contained(s, ApiFetch(c, s, AskLogout(c.refresh), t).server, ChainOf(s, c))
  {
    LogoutPresents(s, c);
    ServeContained(s, t.first, WithHeader(AskLogout(c.refresh), c.access), t.dbFirst, ChainOf(s, c));
    RefusedChangesNothing(s, c, t.first, t.dbFirst);
    RetriedLogoutContained(s, c, t);
  }

  // ---------------------------------------------------------------- browsers and server together

  /** clock: no later than anything still to happen. */
  datatype World = World(server: Server, browsers: seq<Client>, clock: int)

  /** A browser's call, anything the rest of the world asks the server, or a purge of the deny list. */
  datatype WorldEvent =
    | ByBrowser(i: nat, action: Action, timing: Timing)
    | Outside(now: int, request: Request, dbOk: bool)
    | Purging(now: int)

  /** None of the genuine tokens the request presents is of chain c. */
  predicate Avoids(s: Server, request: Request, c: nat) {
    match request
    case Register(_, _) => true
    case Login(_, _) => true
    case Rotate(refresh) => NotInChain(s, refresh, c)
    case Logout(access, refresh) => (access.Some? ==> NotInChain(s, access.value, c)) && NotInChain(s, refresh, c)
    case Protected(access, _) => true
  }

  predicate NotInChain(s: Server, t: Token, c: nat) {
    Signed(s, t) && t.jti < |s.chain| ==> s.chain[t.jti] != c
  }

  /** The clock does not go back, browsers keep their tokens to themselves, and keys can be imported. */
  predicate Enabled(w: World, e: WorldEvent) {
    match e
    case ByBrowser(i, action, timing) =>
      i < |w.browsers| && InTime(timing, w.clock) && (action.SignUp? || action.SignIn? ==> !action.keys.ImportFails?)
    case Outside(now, request, _) =>
      w.clock <= now &&
      forall i :: 0 <= i < |w.browsers| && w.browsers[i].access.Some? ==>
        ChainOf(w.server, w.browsers[i]).Some? && Avoids(w.server, request, ChainOf(w.server, w.browsers[i]).value)
    case Purging(now) => w.clock <= now
  }

  function WorldStep(w: World, e: WorldEvent): World
    requires Enabled(w, e)
  {
    match e
    case ByBrowser(i, action, timing) =>
      var r := Act(w.browsers[i], w.server, action, timing);
      World(r.server, w.browsers[i := r.client], timing.retry)
    case Outside(now, request, dbOk) => World(Serve(w.server, now, request, dbOk).0, w.browsers, now)
    case Purging(now) => World(Purged(w.server, now), w.browsers, now)
  }

  /** Every browser is logged out cleanly or holds one mirrored pair at the head of a chain of its own. */
  predicate WorldOk(w: World) {
    ServerOk(w.server) && HeadsOk(w.server, w.clock) &&
    (forall i :: 0 <= i < |w.browsers| ==> ClientOk(w.server, w.browsers[i])) &&
    (forall i, j :: 0 <= i < j < |w.browsers| && w.browsers[i].access.Some? && w.browsers[j].access.Some? ==>
      ChainOf(w.server, w.browsers[i]) != ChainOf(w.server, w.browsers[j]))
  }

  lemma OutsideQuiet(s: Server, now: int, request: Request, dbOk: bool, c: nat)
    requires ServerOk(s) && c < s.signIns && Avoids(s, request, c)
    ensures ServerOk(Serve(s, now, request, dbOk).0) && Quiet(s, Serve(s, now, request, dbOk).0, c)
  {
    ServeGrows(s, now, request, dbOk);
  }

  lemma OutsideKeeps(w: World, now: int, request: Request, dbOk: bool)
    requires WorldOk(w) && Enabled(w, Outside(now, request, dbOk))
    ensures WorldOk(WorldStep(w, Outside(now, request, dbOk)))
  {
    var s, t := w.server, Serve(w.server, now, request, dbOk).0;
    ServeGrows(s, now, request, dbOk);
    ServeHeads(s, w.clock, now, request, dbOk);
    forall i | 0 <= i < |w.browsers|
      ensures ClientOk(t, w.browsers[i])
      ensures w.browsers[i].access.Some? ==> ChainOf(t, w.browsers[i]) == ChainOf(s, w.browsers[i])
    {
      var c := w.browsers[i];
      assert ClientOk(s, c);
      if c.access.Some? {
        OutsideQuiet(s, now, request, dbOk, ChainOf(s, c).value);
        QuietClient(s, t, c);
      }
    }
  }

  lemma QuietClient(s: Server, t: Server, c: Client)
    requires ServerOk(s) && ServerOk(t) && ClientOk(s, c) && c.access.Some? && Quiet(s, t, ChainOf(s, c).value)
    ensures ClientOk(t, c) && ChainOf(t, c) == ChainOf(s, c)
  {
  }

  /** What one action does: its browser ends well, in its old chain or a new one; nobody else notices. */
  lemma ActKeeps(s: Server, c: Client, a: Action, t: Timing)
    requires ServerOk(s) && ClientOk(s, c) && (a.SignUp? || a.SignIn? ==> !a.keys.ImportFails?)
    ensures
      var r := Act(c, s, a, t);
      Contained(s, r.server, ChainOf(s, c)) && ClientOk(r.server, r.client) &&
      (r.client.access.Some? ==>
        ChainOf(r.server, r.client) == ChainOf(s, c) || ChainOf(r.server, r.client).value >= s.signIns)
  {
    match a
    case SignUp(username, password, _) => SignKeeps(s, c, AskRegister(username, password), t);
    case SignIn(username, password, _) => SignKeeps(s, c, AskLogin(username, password), t);
    case SignOut => if c.access.Some? { LogoutContained(s, c, t); }
    case Use(code) => ApiFetchKeeps(s, c, AskProtected(code), t);
    case Reload =>
  }

  lemma SignKeeps(s: Server, c: Client, call: Call, t: Timing)
    requires ServerOk(s) && ClientOk(s, c) && (call.AskRegister? || call.AskLogin?)
    ensures
      var r := ApiFetch(c, s, call, t);
      Kept(s, r, ChainOf(s, c)) &&
      (r.outcome.Answer? && r.outcome.reply.Tokens? ==>
        var d := StoreSession(r.client, r.outcome.reply, Good);
        ClientOk(r.server, d) && ChainOf(r.server, d).Some? && ChainOf(r.server, d).value >= s.signIns)
  {
    ApiFetchKeeps(s, c, call, t);
  }

  lemma FetchHeads(s: Server, clock: int, c: Client, call: Call, now: int, dbOk: bool)
    requires ServerOk(s) && HeadsOk(s, clock) && clock <= now
    ensures HeadsOk(Fetch(c, s, call, now, dbOk).server, now) && ServerOk(Fetch(c, s, call, now, dbOk).server)
  {
    ServeHeads(s, clock, now, WithHeader(call, c.access), dbOk);
    ServeGrows(s, now, WithHeader(call, c.access), dbOk);
  }

  lemma HeadsLater(s: Server, clock: int, now: int)
    requires HeadsOk(s, clock) && clock <= now
    ensures HeadsOk(s, now)
  {
    forall j, k | 0 <= j < k < |s.issued| && k < |s.chain| && SameChain(s, j, k)
      ensures j in s.denied || Expired(s.issued[j], now)
    {
    }
  }

  lemma RetryHeads(s: Server, clock: int, c: Client, call: Call, t: Timing)
    requires ServerOk(s) && HeadsOk(s, clock) && clock <= t.refresh <= t.retry && c.refresh.Some?
    ensures HeadsOk(RefreshAndRetry(c, s, call, t).server, t.retry)
  {
    var q := Rotate(c.refresh.value);
    var (u, r) := Serve(s, t.refresh, q, t.dbRefresh);
    ServeHeads(s, clock, t.refresh, q, t.dbRefresh);
    ServeGrows(s, t.refresh, q, t.dbRefresh);
    if r.Tokens? && Readable(c.stored) {
      FetchHeads(u, t.refresh, Adopt(c, r), call, t.retry, t.dbRetry);
    } else {
      HeadsLater(u, t.refresh, t.retry);
    }
  }

  lemma CallHeads(s: Server, clock: int, c: Client, call: Call, t: Timing)
    requires ServerOk(s) && HeadsOk(s, clock) && InTime(t, clock)
    ensures HeadsOk(ApiFetch(c, s, call, t).server, t.retry)
  {
    var first := Fetch(c, s, call, t.first, t.dbFirst);
    FetchHeads(s, clock, c, call, t.first, t.dbFirst);
    if first.outcome != HttpError(401) || c.refresh.None? {
      HeadsLater(first.server, t.first, t.retry);
    } else {
      RetryHeads(first.server, t.first, c, call, t);
    }
  }

  lemma ActHeads(s: Server, clock: int, c: Client, a: Action, t: Timing)
    requires ServerOk(s) && HeadsOk(s, clock) && InTime(t, clock)
    ensures HeadsOk(Act(c, s, a, t).server, t.retry)
  {
    match a
    case SignUp(username, password, _) => CallHeads(s, clock, c, AskRegister(username, password), t);
    case SignIn(username, password, _) => CallHeads(s, clock, c, AskLogin(username, password), t);
    case SignOut => HeadsLater(s, clock, t.retry); CallHeads(s, clock, c, AskLogout(c.refresh), t);
    case Use(code) => CallHeads(s, clock, c, AskProtected(code), t);
    case Reload => HeadsLater(s, clock, t.retry);
  }

  lemma PurgeKeeps(w: World, now: int)
    requires WorldOk(w) && w.clock <= now
    ensures WorldOk(WorldStep(w, Purging(now)))
  {
    var s, t := w.server, Purged(w.server, now);
    StepKeepsServer(s, Purge(now));
    PurgeHeads(s, w.clock, now);
    forall i | 0 <= i < |w.browsers|
      ensures ClientOk(t, w.browsers[i]) && ChainOf(t, w.browsers[i]) == ChainOf(s, w.browsers[i])
    {
      PurgeKeepsClient(s, now, w.browsers[i]);
    }
  }

  lemma PurgeKeepsClient(s: Server, now: int, c: Client)
    requires ServerOk(s) && ClientOk(s, c)
    ensures ClientOk(Purged(s, now), c) && ChainOf(Purged(s, now), c) == ChainOf(s, c)
  {
  }

  lemma BrowserKeeps(w: World, i: nat, a: Action, t: Timing)
    requires WorldOk(w) && Enabled(w, ByBrowser(i, a, t))
    ensures WorldOk(WorldStep(w, ByBrowser(i, a, t)))
  {
    var s, c := w.server, w.browsers[i];
    var r := Act(c, s, a, t);
    ActKeeps(s, c, a, t);
    ActHeads(s, w.clock, c, a, t);
    OneMoved(w, i, r.server, r.client, t.retry);
  }

  /** Browser i and the server have moved on as one action allows: the world is still in order. */
  lemma OneMoved(w: World, i: nat, t: Server, c: Client, clock: int)
    requires WorldOk(w) && i < |w.browsers| && HeadsOk(t, clock)
    requires Contained(w.server, t, ChainOf(w.server, w.browsers[i])) && ClientOk(t, c)
    requires c.access.Some? ==>
      ChainOf(t, c) == ChainOf(w.server, w.browsers[i]) || ChainOf(t, c).value >= w.server.signIns
    ensures WorldOk(World(t, w.browsers[i := c], clock))
  {
    forall j | 0 <= j < |w.browsers| && j != i ensures Apart(w, t, c, j) {
      OtherKept(w, i, t, c, j);
    }
    var next := w.browsers[i := c];
    forall l | 0 <= l < |next| ensures ClientOk(t, next[l]) {
      assert l != i ==> Apart(w, t, c, l);
    }
    forall l, m | 0 <= l < m < |next| && next[l].access.Some? && next[m].access.Some?
      ensures ChainOf(t, next[l]) != ChainOf(t, next[m])
    {
      assert l != i ==> Apart(w, t, c, l);
      assert m != i ==> Apart(w, t, c, m);
    }
  }

  /** Browser j is in order after browser i's action and shares no chain with it. */
  predicate Apart(w: World, t: Server, c: Client, j: nat)
    requires j < |w.browsers|
  {
    var d := w.browsers[j];
    ClientOk(t, d) && (d.access.Some? ==> ChainOf(t, d) == ChainOf(w.server, d)) &&
    (d.access.Some? && c.access.Some? ==> ChainOf(t, d) != ChainOf(t, c))
  }

  lemma OtherKept(w: World, i: nat, t: Server, c: Client, j: nat)
    requires WorldOk(w) && i < |w.browsers| && j < |w.browsers| && i != j
    requires Contained(w.server, t, ChainOf(w.server, w.browsers[i])) && ClientOk(t, c)
    requires c.access.Some? ==>
      ChainOf(t, c) == ChainOf(w.server, w.browsers[i]) || ChainOf(t, c).value >= w.server.signIns
    ensures Apart(w, t, c, j)
  {
    assert ClientOk(w.server, w.browsers[i]) && ClientOk(w.server, w.browsers[j]);
    if w.browsers[j].access.Some? {
      OthersUndisturbed(w.server, t, w.browsers[i], w.browsers[j]);
    }
  }

  lemma OthersUndisturbed(s: Server, t: Server, c: Client, d: Client)
    requires ServerOk(s) && Contained(s, t, ChainOf(s, c)) && ClientOk(s, c) && ClientOk(s, d) && d.access.Some?
    requires c.access.Some? ==> ChainOf(s, c) != ChainOf(s, d)
    ensures ClientOk(t, d) && ChainOf(t, d) == ChainOf(s, d) && ChainOf(s, d).value < s.signIns
  {
    assert Quiet(s, t, ChainOf(s, d).value);
    QuietClient(s, t, d);
  }

  function WorldAfter(w: World, es: seq<WorldEvent>): Option<World> {
    if es == [] then Some(w)
    else
      var before := WorldAfter(w, es[..|es| - 1]);
      if before.Some? && Enabled(before.value, es[|es| - 1]) then Some(WorldStep(before.value, es[|es| - 1])) else None
  }

  function Opening(accounts: seq<Account>, browsers: nat, clock: int): World {
    World(Fresh(accounts), seq(browsers, i => CLEARED), clock)
  }

  /**
   * Between any two calls, in every run of any number of browsers and other parties, with purges of
   * the deny list and sign-ins whose envelope does not open: a logged-in browser's tokens in memory
   * are those in its mirror, genuine and not denied, and its refresh token is the newest of its
   * sign-in's chain; no two browsers share a chain.
   */
  lemma {:induction false} BetweenCalls(accounts: seq<Account>, browsers: nat, clock: int, es: seq<WorldEvent>)
    requires WorldAfter(Opening(accounts, browsers, clock), es).Some?
    ensures WorldOk(WorldAfter(Opening(accounts, browsers, clock), es).value)
  {
    if es == [] {
    } else {
      var n := |es| - 1;
      BetweenCalls(accounts, browsers, clock, es[..n]);
      var w := WorldAfter(Opening(accounts, browsers, clock), es[..n]).value;
      match es[n]
      case ByBrowser(i, a, t) => BrowserKeeps(w, i, a, t);
      case Outside(now, request, dbOk) => OutsideKeeps(w, now, request, dbOk);
      case Purging(now) => PurgeKeeps(w, now);
    }
  }

  /** Of the refresh tokens of that chain the browser's alone still verifies, and it does until it expires. */
  lemma SingleHead(w: World, i: nat, k: Jti, now: int)
    requires WorldOk(w) && i < |w.browsers| && w.browsers[i].access.Some? && w.clock <= now
    requires k < |w.server.issued| && w.server.issued[k].kind == Refresh
    requires Some(w.server.chain[k]) == ChainOf(w.server, w.browsers[i])
    ensures
      var r := w.browsers[i].refresh.value;
      Verifies(w.server, w.server.issued[k], Refresh, now) <==> k == r.jti && !Expired(r, now)
  {
    var s, r := w.server, w.browsers[i].refresh.value;
    assert ClientOk(s, w.browsers[i]);
    assert k != r.jti ==> SameChain(s, k, r.jti);
  }

  // ---------------------------------------------------------------- refresh and retry

  /** How far the access token issued by a refresh at now reaches. */
  function HourAfter(now: int): int {
    (now / 1_000_000 + 3600) * 1_000_000
  }

  /** What the caller sees of a reply with this code. */
  function Seen(code: int): Outcome {
    if 200 <= code < 300 then Answer(Status(code)) else HttpError(code)
  }

  /** The three exchanges of a call that refreshes. */
  predicate Refreshed(c: Client, code: int, r: Result, last: int) {
    r.client.access.Some? && c.refresh.Some? &&
    r.trace == [
      Exchange(Protected(c.access, code), 401),
      Exchange(Rotate(c.refresh.value), 200),
      Exchange(Protected(r.client.access, code), last)]
  }

  /**
   * With the access token expired and the refresh token not, an authorised call goes through after
   * exactly one refresh and one retry if the retry arrives within the new token's hour; if it does
   * not, the call fails and is not tried again. Either way the browser keeps the new pair.
   */
  lemma RetryOnce(s: Server, c: Client, code: int, t: Timing)
    requires ServerOk(s) && ClientOk(s, c) && c.access.Some? && t.dbRefresh && code != 401
    requires Expired(c.access.value, t.first) && !Expired(c.refresh.value, t.refresh)
    ensures
      var r := ApiFetch(c, s, AskProtected(code), t);
      var last := if t.retry < HourAfter(t.refresh) then code else 401;
      ClientOk(r.server, r.client) && Refreshed(c, code, r, last) && r.outcome == Seen(last)
  {
    var (u, r) := Serve(s, t.refresh, Rotate(c.refresh.value), t.dbRefresh);
    FetchOnce(s, c, code, t.first, t.dbFirst);
    RefreshGoes(s, c, t.refresh);
    RefreshKeepsClient(s, c, t.refresh, t.dbRefresh);
    FetchOnce(u, Adopt(c, r), code, t.retry, t.dbRetry);
  }

  /** One request with a pair that is in order is answered by the access token's expiry alone. */
  lemma FetchOnce(s: Server, c: Client, code: int, now: int, dbOk: bool)
    requires ServerOk(s) && ClientOk(s, c) && c.access.Some?
    ensures
      var answer := if !Expired(c.access.value, now) then code else 401;
      Fetch(c, s, AskProtected(code), now, dbOk) ==
        Result(c, s, Seen(answer), [Exchange(Protected(c.access, code), answer)])
  {
  }

  lemma RefreshGoes(s: Server, c: Client, now: int)
    requires ServerOk(s) && ClientOk(s, c) && c.access.Some? && !Expired(c.refresh.value, now)
    ensures
      var r := Serve(s, now, Rotate(c.refresh.value), true).1;
      r.Tokens? && r.code == 200 && r.access.exp * SECOND == HourAfter(now)
  {
  }

  lemma NoRetry(s: Server, c: Client, code: int, t: Timing)
    requires ServerOk(s) && ClientOk(s, c) && c.access.Some? && code != 401 && !Expired(c.access.value, t.first)
    ensures ApiFetch(c, s, AskProtected(code), t) ==
      Result(c, s, Seen(code), [Exchange(Protected(c.access, code), code)])
  {
  }

  lemma BothExpired(s: Server, c: Client, code: int, t: Timing)
    requires ServerOk(s) && ClientOk(s, c) && c.access.Some?
    requires Expired(c.access.value, t.first) && Expired(c.refresh.value, t.refresh)
    ensures ApiFetch(c, s, AskProtected(code), t) ==
      Result(CLEARED, s, SessionExpired,
        [Exchange(Protected(c.access, code), 401), Exchange(Rotate(c.refresh.value), 401)])
  {
  }

  /**
   * What becomes of an authorised call depends on the two expiry times alone, whatever its handler
   * answers: access token good, one request and nothing changes; refresh token good, one refresh and
   * one retry; neither, the session ends, in memory and in the mirror, and nothing is issued.
   */
  lemma CallByExpiry(s: Server, c: Client, code: int, t: Timing)
    requires ServerOk(s) && ClientOk(s, c) && c.access.Some? && t.dbRefresh && code != 401
    ensures
      var r := ApiFetch(c, s, AskProtected(code), t);
      if !Expired(c.access.value, t.first) then
        r == Result(c, s, Seen(code), [Exchange(Protected(c.access, code), code)])
      else if !Expired(c.refresh.value, t.refresh) then
        var last := if t.retry < HourAfter(t.refresh) then code else 401;
        ClientOk(r.server, r.client) && Refreshed(c, code, r, last) && r.outcome == Seen(last)
      else
        r == Result(CLEARED, s, SessionExpired,
          [Exchange(Protected(c.access, code), 401), Exchange(Rotate(c.refresh.value), 401)])
  {
    if !Expired(c.access.value, t.first) {
      NoRetry(s, c, code, t);
    } else if !Expired(c.refresh.value, t.refresh) {
      RetryOnce(s, c, code, t);
    } else {
      BothExpired(s, c, code, t);
    }
  }

  /** A browser with no session asks once, is refused and stays as it is; it has nothing to log out of. */
  lemma WithoutSession(s: Server, code: int, t: Timing)
    ensures ApiFetch(CLEARED, s, AskProtected(code), t) ==
      Result(CLEARED, s, HttpError(401), [Exchange(Protected(None, code), 401)])
    ensures Act(CLEARED, s, SignOut, t) == Result(CLEARED, s, NoCall, [])
  {
  }

  /** Whatever is answered, a call is never repeated more than once: at most three requests, one of them a refresh. */
  lemma AtMostThree(s: Server, c: Client, call: Call, t: Timing)
    ensures
      var trace := ApiFetch(c, s, call, t).trace;
      1 <= |trace| <= 3 && !trace[0].request.Rotate? && (|trace| == 3 ==> !trace[2].request.Rotate?) &&
      (|trace| > 1 ==> trace[1].request.Rotate? && trace[0].code == 401)
  {
  }

  // ---------------------------------------------------------------- reloading and signing in

  /** A page reload loses nothing: whatever session there was is there again. */
  lemma ReloadKeeps(s: Server, c: Client, t: Timing)
    requires ServerOk(s) && ClientOk(s, c)
    ensures Act(c, s, Reload, t) == Result(c, s, NoCall, [])
  {
  }

  /** A stored entry is taken over exactly when it is JSON and has an envelope and an access token. */
  lemma RestoredIff(stored: Option<Mirror>)
    ensures Restored(stored).access.Some? <==>
      stored.Some? && stored.value.Mirror? && stored.value.envelope && stored.value.access.Some?
    ensures Restored(stored).access.None? ==> Restored(stored) == CLEARED
    ensures Restored(stored).access.Some? ==>
      Restored(stored).access == stored.value.access && Restored(stored).refresh == stored.value.refresh &&
      Restored(stored).stored == if stored.value.keyDecodes then stored else None
  {
  }

  /** A call that signs up or in, and the action it is part of. */
  function SignCall(a: Action): Call
    requires a.SignUp? || a.SignIn?
  {
    if a.SignUp? then AskRegister(a.username, a.password) else AskLogin(a.username, a.password)
  }

  /** What a registration or login answered with tokens leaves in the browser, by the state of its keys. */
  lemma SignedIn(s: Server, c: Client, a: Action, t: Timing)
    requires a.SignUp? || a.SignIn?
    requires
      var f := ApiFetch(c, s, SignCall(a), t);
      f.outcome.Answer? && f.outcome.reply.Tokens?
    ensures
      var f, r := ApiFetch(c, s, SignCall(a), t), Act(c, s, a, t);
      var access, refresh := Some(f.outcome.reply.access), Some(f.outcome.reply.refresh);
      r == f.(client := r.client) &&
      r.client == match a.keys
        case Good => Client(access, refresh, Some(Mirror(access, refresh, true, true)))
        case ImportFails => Client(access, refresh, f.client.stored)
        case EnvelopeFails => f.client
  {
  }

  /** With no session, one request signs in, with the pair of that reply, iff the server hands one out. */
  lemma SignInWorks(s: Server, a: Action, t: Timing)
    requires (a.SignUp? || a.SignIn?) && a.keys.Good? && ServerOk(s)
    ensures
      var (u, reply) := Serve(s, t.first, WithHeader(SignCall(a), None), t.dbFirst);
      var r := Act(CLEARED, s, a, t);
      r.server == u && |r.trace| == 1 && (r.client.access.Some? <==> reply.Tokens?) &&
      (reply.Tokens? ==>
        r.outcome == Answer(reply) &&
        r.client.access == Some(reply.access) && r.client.refresh == Some(reply.refresh)) &&
      (!reply.Tokens? ==> r.client == CLEARED && r.outcome == HttpError(reply.code))
  {
  }

  // ---------------------------------------------------------------- logging out

  /** Some request of the call was a logout the server answered with 200. */
  predicate ServerLoggedOut(r: Result) {
    exists k :: 0 <= k < |r.trace| && r.trace[k].request.Logout? && r.trace[k].code == 200
  }

  /**
   * The browser always forgets its session, but the server carries out the logout exactly when the
   * access token had not expired: the body of the retry still names the refresh token that the
   * refresh in between has used up.
   */
  lemma LogoutIff(s: Server, c: Client, t: Timing, now: int)
    requires ServerOk(s) && ClientOk(s, c) && c.access.Some? && InTime(t, now)
    requires t.dbFirst && t.dbRefresh && t.dbRetry
    ensures Act(c, s, SignOut, t).client == CLEARED
    ensures ServerLoggedOut(Act(c, s, SignOut, t)) <==> !Expired(c.access.value, t.first)
  {
    var r := Act(c, s, SignOut, t);
    if !Expired(c.access.value, t.first) {
      assert r.trace[0].request.Logout? && r.trace[0].code == 200;
    } else {
      LateLogout(s, c, t);
    }
  }

  lemma LateLogout(s: Server, c: Client, t: Timing)
    requires ServerOk(s) && ClientOk(s, c) && c.access.Some? && Expired(c.access.value, t.first) && t.dbRefresh
    ensures
      var r := Act(c, s, SignOut, t);
      !ServerLoggedOut(r) && (!Expired(c.refresh.value, t.refresh) ==> LeftBehind(s, r.server, c, t.refresh))
  {
    var q := Rotate(c.refresh.value);
    var (u, r) := Serve(s, t.refresh, q, t.dbRefresh);
    LogoutRefused(s, c, c.refresh.value, t.first, t.dbFirst);
    if r.Tokens? {
      FreshPair(s, t.refresh, q, t.dbRefresh);
      assert c.refresh.value.jti in u.denied;
      LogoutRefused(u, Adopt(c, r), c.refresh.value, t.retry, t.dbRetry);
    }
  }

  lemma LogoutRefused(s: Server, c: Client, refresh: Token, now: int, dbOk: bool)
    requires c.access.Some? && (Expired(c.access.value, now) || refresh.jti in s.denied)
    ensures Fetch(c, s, AskLogout(Some(refresh)), now, dbOk) ==
      Result(c, s, HttpError(401), [Exchange(Logout(c.access, refresh), 401)])
  {
  }

  /** Without a refresh token to name, the server refuses the logout and changes nothing; the browser still forgets. */
  lemma LogoutUnnamed(s: Server, c: Client, t: Timing)
    requires c.access.Some? && c.refresh.None?
    ensures
      var r := Act(c, s, SignOut, t);
      r.client == CLEARED && r.server == s && !ServerLoggedOut(r) && |r.trace| == 1 &&
      r.outcome == HttpError(if Authorised(s, c.access, t.first) then 400 else 401)
  {
  }

  /** A new refresh token of the browser's chain, good for a week, that no browser holds any more. */
  predicate LeftBehind(s: Server, t: Server, c: Client, now: int) {
    |t.issued| == |s.issued| + 2 && |t.chain| == |t.issued| &&
    var r := t.issued[|t.issued| - 1];
    Verifies(t, r, Refresh, now) && Some(t.chain[r.jti]) == ChainOf(s, c) && r.exp == now / 1_000_000 + 604_800
  }

  // ---------------------------------------------------------------- key material

  /**
   * A registration or login answered with tokens leaves memory and mirror in agreement exactly when
   * importing the key does not fail, which happens after the tokens have been set.
   */
  lemma KeysIff(s: Server, c: Client, a: Action, t: Timing)
    requires ServerOk(s) && ClientOk(s, c) && (a.SignUp? || a.SignIn?)
    requires
      var f := ApiFetch(c, s, SignCall(a), t);
      f.outcome.Answer? && f.outcome.reply.Tokens?
    ensures
      var r := Act(c, s, a, t);
      ClientOk(r.server, r.client) <==> !a.keys.ImportFails?
  {
    ApiFetchKeeps(s, c, SignCall(a), t);
  }
}

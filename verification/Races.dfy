/**
 * Refreshes and logouts that overlap. Each request is taken apart into its lookups in the deny
 * list, its inserts and its commit; rows of an open transaction are invisible to the others, and an
 * insert waits while another open transaction holds a row with the same identifier.
 */
module TokenRaces {
  import opened Common
  import opened Tokens

  /** Answered: the 200 reply is built, the transaction still open. Lost: it rolls back after that. */
  datatype Pc =
    | Arrived | Admitted | Checked | HalfWritten | Written | Answered | Committed | Lost | Refused | Failed

  /** accessRow, refreshRow: the rows this request's open transaction has inserted. */
  datatype Work = Work(request: Request, pc: Pc, accessRow: bool, refreshRow: bool)

  /** server.denied holds the committed rows. */
  datatype Race = Race(server: Server, works: seq<Work>)

  datatype RaceEvent =
    | CheckAccess(w: nat, now: int)
    | CheckRefresh(w: nat, now: int)
    | WriteAccess(w: nat)
    | WriteRefresh(w: nat)
    | Answer(w: nat, now: int)
    | Commit(w: nat)
    | Fail(w: nat)
    | Lose(w: nat)

  predicate Contends(q: Request) {
    q.Rotate? || (q.Logout? && q.access.Some?)
  }

  function Start(s: Server, qs: seq<Request>): Race {
    Race(s, seq(|qs|, i requires 0 <= i < |qs| => Work(qs[i], Arrived, false, false)))
  }

  // ---------------------------------------------------------------- steps

  /** Some open transaction other than w's holds an uncommitted row for j. */
  predicate Held(r: Race, w: nat, j: Jti) {
    exists u :: 0 <= u < |r.works| && u != w && Holds(r.works[u], j)
  }

  predicate Holds(x: Work, j: Jti) {
    Contends(x.request) &&
    ((x.refreshRow && x.request.refresh.jti == j) ||
     (x.accessRow && x.request.Logout? && x.request.access.value.jti == j))
  }

  predicate OwnerOk(q: Request) {
    q.Logout? ==> q.access.Some? && q.refresh.user == q.access.value.user
  }

  function SetWork(r: Race, w: nat, x: Work): Race
    requires w < |r.works|
  {
    r.(works := r.works[w := x])
  }

  function CommitRows(denied: map<Jti, Denied>, x: Work): map<Jti, Denied>
    requires Contends(x.request)
  {
    var q := x.request;
    var d := if q.Logout? && x.accessRow
      then denied[q.access.value.jti := Denied(q.refresh.user, q.access.value.exp)] else denied;
    if x.refreshRow then d[q.refresh.jti := Denied(q.refresh.user, q.refresh.exp)] else d
  }

  /** What the reply to a rotation hands out; a logout issues nothing. */
  function Issued(s: Server, q: Request, now: int): Server {
    if q.Rotate? && q.refresh.jti < |s.chain|
    then Issue(s, q.refresh.user, q.refresh.username, now, s.chain[q.refresh.jti]) else s
  }

  function WorkStep(r: Race, e: RaceEvent): Option<Race>
    requires e.w < |r.works| && Contends(r.works[e.w].request)
  {
    var x := r.works[e.w];
    var q := x.request;
    match e
    case CheckAccess(w, now) =>
      if !q.Logout? || !x.pc.Arrived? then None
      else Some(SetWork(r, w, x.(pc := if Authorised(r.server, q.access, now) then Admitted else Refused)))
    case CheckRefresh(w, now) =>
      if !(if q.Rotate? then x.pc.Arrived? else x.pc.Admitted?) then None
      else
        var ok := Verifies(r.server, q.refresh, Refresh, now) && OwnerOk(q);
        Some(SetWork(r, w, x.(pc := if ok then Checked else Refused)))
    case WriteAccess(w) =>
      if !q.Logout? || !x.pc.Checked? || Held(r, w, q.access.value.jti) then None
      else Some(SetWork(r, w, x.(pc := HalfWritten, accessRow := q.access.value.jti !in r.server.denied)))
    case WriteRefresh(w) =>
      if !(if q.Rotate? then x.pc.Checked? else x.pc.HalfWritten?) || Held(r, w, q.refresh.jti) then None
      else Some(SetWork(r, w, x.(pc := Written, refreshRow := q.refresh.jti !in r.server.denied)))
    case Answer(w, now) =>
      if !x.pc.Written? then None
      else Some(SetWork(r, w, x.(pc := Answered)).(server := Issued(r.server, q, now)))
    case Commit(w) =>
      if !x.pc.Answered? then None
      else
        var s := r.server.(denied := CommitRows(r.server.denied, x));
        Some(SetWork(r, w, Work(q, Committed, false, false)).(server := s))
    case Fail(w) =>
      if !(x.pc.Checked? || x.pc.HalfWritten? || x.pc.Written?) then None
      else Some(SetWork(r, w, Work(q, Failed, false, false)))
    case Lose(w) =>
      if !x.pc.Answered? then None else Some(SetWork(r, w, Work(q, Lost, false, false)))
  }

  /** The state after e; None when e is not enabled: out of order, or waiting for another transaction. */
  function RaceStep(r: Race, e: RaceEvent): Option<Race> {
    if e.w < |r.works| && Contends(r.works[e.w].request) then WorkStep(r, e) else None
  }

  function RaceAfter(r: Race, es: seq<RaceEvent>): Option<Race> {
    if es == [] then Some(r)
    else
      var before := RaceAfter(r, es[..|es| - 1]);
      if before.None? then None else RaceStep(before.value, es[|es| - 1])
  }

  // ---------------------------------------------------------------- the invariant

  /** A request uses up the tokens it presents once it commits. */
  predicate UsesUp(q: Request, j: Jti) {
    Contends(q) && (q.refresh.jti == j || (q.Logout? && q.access.value.jti == j))
  }

  predicate AccessWritten(pc: Pc) {
    pc.HalfWritten? || pc.Written? || pc.Answered?
  }

  predicate RefreshWritten(pc: Pc) {
    pc.Written? || pc.Answered?
  }

  predicate Passed(pc: Pc) {
    pc.Checked? || pc.HalfWritten? || pc.Written? || pc.Answered? || pc.Committed? || pc.Lost? || pc.Failed?
  }

  predicate Genuine(s: Server, t: Token, kind: Kind) {
    Signed(s, t) && t.kind == kind
  }

  /** Every written row is the request's own open one or a committed one; a commit leaves only committed ones. */
  predicate WorkOk(s: Server, x: Work) {
    (x.accessRow ==> AccessWritten(x.pc)) && (x.refreshRow ==> RefreshWritten(x.pc)) &&
    (x.pc.HalfWritten? || x.pc.Admitted? || x.accessRow ==> x.request.Logout?) &&
    (Contends(x.request) ==>
      (RefreshWritten(x.pc) ==> x.refreshRow || x.request.refresh.jti in s.denied) &&
      (AccessWritten(x.pc) && x.request.Logout? ==> x.accessRow || x.request.access.value.jti in s.denied) &&
      (x.pc.Committed? ==>
        x.request.refresh.jti in s.denied && (x.request.Logout? ==> x.request.access.value.jti in s.denied)) &&
      (Passed(x.pc) ==>
        OwnerOk(x.request) && Genuine(s, x.request.refresh, Refresh) &&
        (x.request.Logout? ==> Genuine(s, x.request.access.value, Access))) &&
      (x.pc.Admitted? ==> x.request.Logout? && Genuine(s, x.request.access.value, Access)))
  }

  predicate UsedByCommitted(works: seq<Work>, j: Jti) {
    exists u :: 0 <= u < |works| && works[u].pc.Committed? && UsesUp(works[u].request, j)
  }

  /** The committed rows are those from before the race and those of the requests that have committed. */
  ghost predicate DeniedOk(s0: Server, r: Race) {
    forall j: Jti :: j in r.server.denied <==> j in s0.denied || UsedByCommitted(r.works, j)
  }

  ghost predicate RaceOk(s0: Server, r: Race) {
    ServerOk(r.server) && s0.issued <= r.server.issued && DeniedOk(s0, r) &&
    forall w :: 0 <= w < |r.works| ==> WorkOk(r.server, r.works[w])
  }

  /** The server has issued and denied no less. */
  predicate Grown(s: Server, t: Server) {
    s.issued <= t.issued && forall j :: j in s.denied ==> j in t.denied
  }

  lemma WorkStaysOk(s: Server, t: Server, x: Work)
    requires WorkOk(s, x) && Grown(s, t)
    ensures WorkOk(t, x)
  {
  }

  lemma CommitRowsKeys(denied: map<Jti, Denied>, x: Work, s: Server)
    requires Contends(x.request) && x.pc.Answered? && WorkOk(s, x) && s.denied == denied
    ensures forall j :: j in CommitRows(denied, x) <==> j in denied || UsesUp(x.request, j)
  {
  }

  lemma CommitServerOk(s: Server, x: Work)
    requires ServerOk(s) && Contends(x.request) && x.pc.Answered? && WorkOk(s, x)
    ensures ServerOk(s.(denied := CommitRows(s.denied, x)))
  {
  }

  lemma SameCommitted(works: seq<Work>, w: nat, x: Work, j: Jti)
    requires w < |works| && x.request == works[w].request && !works[w].pc.Committed?
    ensures UsedByCommitted(works[w := x], j) <==>
      UsedByCommitted(works, j) || (x.pc.Committed? && UsesUp(x.request, j))
  {
    var next := works[w := x];
    if UsedByCommitted(works, j) {
      var u :| 0 <= u < |works| && works[u].pc.Committed? && UsesUp(works[u].request, j);
      assert next[u] == works[u];
    }
    if x.pc.Committed? && UsesUp(x.request, j) {
      assert next[w] == x;
    }
  }

  /** A step that commits nothing. */
  lemma QuietStep(s0: Server, r: Race, w: nat, x: Work, t: Server)
    requires RaceOk(s0, r) && w < |r.works| && x.request == r.works[w].request
    requires !r.works[w].pc.Committed? && !x.pc.Committed?
    requires ServerOk(t) && Grown(r.server, t) && t.denied == r.server.denied && WorkOk(t, x)
    ensures RaceOk(s0, Race(t, r.works[w := x]))
  {
    forall j ensures UsedByCommitted(r.works[w := x], j) <==> UsedByCommitted(r.works, j) {
      SameCommitted(r.works, w, x, j);
    }
    var next := r.works[w := x];
    forall u | 0 <= u < |next| ensures WorkOk(t, next[u]) {
      if u != w { WorkStaysOk(r.server, t, r.works[u]); }
    }
  }

  lemma CommitStep(s0: Server, r: Race, w: nat)
    requires RaceOk(s0, r) && RaceStep(r, Commit(w)).Some?
    ensures RaceOk(s0, RaceStep(r, Commit(w)).value)
  {
    var x := r.works[w];
    var done := Work(x.request, Committed, false, false);
    var t := r.server.(denied := CommitRows(r.server.denied, x));
    CommitRowsKeys(r.server.denied, x, r.server);
    CommitServerOk(r.server, x);
    forall j ensures j in t.denied <==> j in s0.denied || UsedByCommitted(r.works[w := done], j) {
      SameCommitted(r.works, w, done, j);
    }
    var next := r.works[w := done];
    forall u | 0 <= u < |next| ensures WorkOk(t, next[u]) {
      if u != w { WorkStaysOk(r.server, t, r.works[u]); }
    }
  }

  lemma IssuedOk(s: Server, q: Request, now: int)
    requires ServerOk(s) && Contends(q)
    ensures ServerOk(Issued(s, q, now)) && Grown(s, Issued(s, q, now)) && Issued(s, q, now).denied == s.denied
  {
    if q.Rotate? && q.refresh.jti < |s.chain| {
      IssueKeeps(s, q.refresh.user, q.refresh.username, now, s.chain[q.refresh.jti], s.signIns);
    }
  }

  lemma RaceStepKeeps(s0: Server, r: Race, e: RaceEvent)
    requires RaceOk(s0, r) && RaceStep(r, e).Some?
    ensures RaceOk(s0, RaceStep(r, e).value)
  {
    var w := e.w;
    if e.Commit? {
      CommitStep(s0, r, w);
    } else {
      OwnStep(r, e);
      QuietStep(s0, r, w, RaceStep(r, e).value.works[w], RaceStep(r, e).value.server);
    }
  }

  /** A step other than a commit leaves its own request in order, and the others alone. */
  lemma OwnStep(r: Race, e: RaceEvent)
    requires ServerOk(r.server) && e.w < |r.works| && WorkOk(r.server, r.works[e.w])
    requires RaceStep(r, e).Some? && !e.Commit?
    ensures
      var t := RaceStep(r, e).value;
      |t.works| == |r.works| && t.works == r.works[e.w := t.works[e.w]] &&
      t.works[e.w].request == r.works[e.w].request &&
      !r.works[e.w].pc.Committed? && !t.works[e.w].pc.Committed? &&
      ServerOk(t.server) && Grown(r.server, t.server) && t.server.denied == r.server.denied &&
      WorkOk(t.server, t.works[e.w])
  {
    if e.Answer? {
      var q := r.works[e.w].request;
      IssuedOk(r.server, q, e.now);
      WorkStaysOk(r.server, Issued(r.server, q, e.now), r.works[e.w]);
    }
  }

  lemma {:induction false} RaceKeeps(s0: Server, qs: seq<Request>, es: seq<RaceEvent>)
    requires ServerOk(s0) && RaceAfter(Start(s0, qs), es).Some?
    ensures
      var r := RaceAfter(Start(s0, qs), es).value;
      RaceOk(s0, r) && SameRequests(qs, r)
  {
    if es == [] {
    } else {
      var n := |es| - 1;
      RaceKeeps(s0, qs, es[..n]);
      RaceStepKeeps(s0, RaceAfter(Start(s0, qs), es[..n]).value, es[n]);
      StepRequests(qs, RaceAfter(Start(s0, qs), es[..n]).value, es[n]);
    }
  }

  predicate SameRequests(qs: seq<Request>, r: Race) {
    |r.works| == |qs| && forall w :: 0 <= w < |qs| ==> r.works[w].request == qs[w]
  }

  lemma StepRequests(qs: seq<Request>, r: Race, e: RaceEvent)
    requires SameRequests(qs, r) && RaceStep(r, e).Some?
    ensures SameRequests(qs, RaceStep(r, e).value)
  {
  }

  // ---------------------------------------------------------------- who is accepted

  /** A 200 reply has been built for w. */
  predicate Accepted(r: Race, w: nat)
    requires w < |r.works|
  {
    r.works[w].pc.Answered? || r.works[w].pc.Committed? || r.works[w].pc.Lost?
  }

  /** w has its reply, and it is not a database failure's. */
  predicate Settled(r: Race, w: nat)
    requires w < |r.works|
  {
    Accepted(r, w) || r.works[w].pc.Refused?
  }

  /** Request w's commit is among the events. */
  predicate CommittedIn(es: seq<RaceEvent>, w: nat) {
    Commit(w) in es
  }

  lemma CommitInLast(es: seq<RaceEvent>, w: nat)
    requires es != []
    ensures CommittedIn(es, w) <==> CommittedIn(es[..|es| - 1], w) || es[|es| - 1] == Commit(w)
  {
    assert es == es[..|es| - 1] + [es[|es| - 1]];
  }

  lemma {:induction false} CommittedIff(s0: Server, qs: seq<Request>, es: seq<RaceEvent>, w: nat)
    requires ServerOk(s0) && w < |qs| && RaceAfter(Start(s0, qs), es).Some?
    ensures
      var r := RaceAfter(Start(s0, qs), es).value;
      |r.works| == |qs| && (r.works[w].pc.Committed? <==> CommittedIn(es, w))
  {
    RaceKeeps(s0, qs, es);
    if es == [] {
    } else {
      CommittedIff(s0, qs, es[..|es| - 1], w);
      CommitInLast(es, w);
      CommitsOne(RaceAfter(Start(s0, qs), es[..|es| - 1]).value, es[|es| - 1], w);
    }
  }

  lemma CommitsOne(r: Race, e: RaceEvent, w: nat)
    requires RaceStep(r, e).Some? && w < |r.works|
    ensures
      var t := RaceStep(r, e).value;
      |t.works| == |r.works| && (t.works[w].pc.Committed? <==> r.works[w].pc.Committed? || e == Commit(w))
  {
  }

  /** None of the requests that use up token j has committed in es. */
  predicate NoneCommitted(qs: seq<Request>, es: seq<RaceEvent>, j: Jti) {
    forall u :: 0 <= u < |qs| && UsesUp(qs[u], j) ==> !CommittedIn(es, u)
  }

  /** The lookup of w's refresh token passes. */
  predicate Passes(r: Race, e: RaceEvent)
    requires e.CheckRefresh? && e.w < |r.works| && Contends(r.works[e.w].request)
  {
    Verifies(r.server, r.works[e.w].request.refresh, Refresh, e.now) && OwnerOk(r.works[e.w].request)
  }

  /** A lookup passes exactly when the token is good in itself and nothing that uses it up has committed before. */
  lemma PassesIff(s0: Server, qs: seq<Request>, es: seq<RaceEvent>, e: RaceEvent)
    requires ServerOk(s0) && RaceAfter(Start(s0, qs), es).Some?
    requires e.CheckRefresh? && e.w < |qs| && Contends(qs[e.w])
    ensures
      var r, t := RaceAfter(Start(s0, qs), es).value, qs[e.w].refresh;
      SameRequests(qs, r) &&
      (Passes(r, e) <==>
        Genuine(r.server, t, Refresh) && !Expired(t, e.now) && OwnerOk(qs[e.w]) &&
        t.jti !in s0.denied && NoneCommitted(qs, es, t.jti))
  {
    var r, j := RaceAfter(Start(s0, qs), es).value, qs[e.w].refresh.jti;
    RaceKeeps(s0, qs, es);
    CommittedAre(s0, qs, es, j);
  }

  /**
   * A logout is let in exactly when its access token is genuine, unexpired, not denied before the
   * race, and nothing that uses it up has committed before the lookup.
   */
  lemma AdmittedIff(s0: Server, qs: seq<Request>, es: seq<RaceEvent>, e: RaceEvent)
    requires ServerOk(s0) && RaceAfter(Start(s0, qs), es).Some?
    requires e.CheckAccess? && e.w < |qs| && RaceStep(RaceAfter(Start(s0, qs), es).value, e).Some?
    ensures qs[e.w].Logout? && qs[e.w].access.Some?
    ensures
      var r, t := RaceAfter(Start(s0, qs), es).value, qs[e.w].access.value;
      var x := RaceStep(r, e).value.works;
      |x| == |qs| &&
      (x[e.w].pc.Admitted? <==>
        Genuine(r.server, t, Access) && !Expired(t, e.now) && t.jti !in s0.denied && NoneCommitted(qs, es, t.jti)) &&
      (x[e.w].pc.Admitted? || x[e.w].pc.Refused?)
  {
    RaceKeeps(s0, qs, es);
    var q := RaceAfter(Start(s0, qs), es).value.works[e.w].request;
    assert q == qs[e.w];
    CommittedAre(s0, qs, es, q.access.value.jti);
  }

  lemma CommittedAre(s0: Server, qs: seq<Request>, es: seq<RaceEvent>, j: Jti)
    requires ServerOk(s0) && RaceAfter(Start(s0, qs), es).Some?
    ensures UsedByCommitted(RaceAfter(Start(s0, qs), es).value.works, j) <==> !NoneCommitted(qs, es, j)
  {
    var r := RaceAfter(Start(s0, qs), es).value;
    RaceKeeps(s0, qs, es);
    forall u | 0 <= u < |qs| ensures r.works[u].pc.Committed? <==> CommittedIn(es, u) {
      CommittedIff(s0, qs, es, u);
    }
    if UsedByCommitted(r.works, j) {
      var u :| 0 <= u < |r.works| && r.works[u].pc.Committed? && UsesUp(r.works[u].request, j);
      assert UsesUp(qs[u], j) && CommittedIn(es, u);
    }
    if !NoneCommitted(qs, es, j) {
      var u :| 0 <= u < |qs| && UsesUp(qs[u], j) && CommittedIn(es, u);
      assert r.works[u].pc.Committed? && UsesUp(r.works[u].request, j);
    }
  }

  lemma {:induction false} PrefixRuns(r: Race, es: seq<RaceEvent>, i: nat)
    requires i <= |es| && RaceAfter(r, es).Some?
    ensures RaceAfter(r, es[..i]).Some?
  {
    if i == |es| {
      assert es[..i] == es;
    } else {
      assert es[..|es| - 1][..i] == es[..i];
      PrefixRuns(r, es[..|es| - 1], i);
    }
  }

  /** What becomes of a request after the lookup of its refresh token. */
  predicate Follows(pc: Pc, passed: bool) {
    if passed then Passed(pc) else pc.Refused?
  }

  lemma StepFollows(r: Race, e: RaceEvent, w: nat, passed: bool)
    requires RaceStep(r, e).Some? && w < |r.works| && Follows(r.works[w].pc, passed)
    ensures |RaceStep(r, e).value.works| == |r.works| && Follows(RaceStep(r, e).value.works[w].pc, passed)
  {
  }

  lemma CheckFollows(r: Race, e: RaceEvent)
    requires RaceStep(r, e).Some? && e.CheckRefresh?
    ensures
      e.w < |r.works| == |RaceStep(r, e).value.works| && Contends(r.works[e.w].request) &&
      Follows(RaceStep(r, e).value.works[e.w].pc, Passes(r, e))
  {
  }

  lemma ChecksContend(s0: Server, qs: seq<Request>, es: seq<RaceEvent>, i: nat)
    requires ServerOk(s0) && RaceAfter(Start(s0, qs), es).Some? && i < |es| && es[i].CheckRefresh?
    ensures RaceAfter(Start(s0, qs), es[..i]).Some?
    ensures
      var before, r := RaceAfter(Start(s0, qs), es[..i]).value, RaceAfter(Start(s0, qs), es).value;
      es[i].w < |qs| && SameRequests(qs, before) && SameRequests(qs, r) && Contends(qs[es[i].w])
  {
    StepAt(Start(s0, qs), es, i);
    RaceKeeps(s0, qs, es[..i]);
    RaceKeeps(s0, qs, es);
  }

  predicate FollowsAt(r: Race, w: nat, passed: bool) {
    w < |r.works| && Follows(r.works[w].pc, passed)
  }

  lemma {:induction false} FollowsLater(r: Race, es: seq<RaceEvent>, i: nat, w: nat, passed: bool)
    requires RaceAfter(r, es).Some? && i <= |es|
    requires RaceAfter(r, es[..i]).Some? && FollowsAt(RaceAfter(r, es[..i]).value, w, passed)
    ensures FollowsAt(RaceAfter(r, es).value, w, passed)
  {
    if i == |es| {
      assert es[..i] == es;
    } else {
      var before := es[..|es| - 1];
      assert before[..i] == es[..i];
      FollowsLater(r, before, i, w, passed);
      StepFollows(RaceAfter(r, before).value, es[|es| - 1], w, passed);
    }
  }

  /** The lookup at step i decides what becomes of its request, from then on. */
  lemma OutcomeOfCheck(s0: Server, qs: seq<Request>, es: seq<RaceEvent>, i: nat)
    requires ServerOk(s0) && RaceAfter(Start(s0, qs), es).Some?
    requires i < |es| && es[i].CheckRefresh? && RaceAfter(Start(s0, qs), es[..i]).Some?
    ensures
      var before, r := RaceAfter(Start(s0, qs), es[..i]).value, RaceAfter(Start(s0, qs), es).value;
      es[i].w < |qs| && SameRequests(qs, before) && SameRequests(qs, r) && Contends(qs[es[i].w]) &&
      FollowsAt(r, es[i].w, Passes(before, es[i]))
  {
    var r, w := Start(s0, qs), es[i].w;
    ChecksContend(s0, qs, es, i);
    StepAt(r, es, i);
    CheckFollows(RaceAfter(r, es[..i]).value, es[i]);
    PrefixRuns(r, es, i + 1);
    assert es[..i + 1][..i] == es[..i];
    FollowsLater(r, es, i + 1, w, Passes(RaceAfter(r, es[..i]).value, es[i]));
  }

  /**
   * In every interleaving of any number of refreshes and logouts, a request that looked up its
   * refresh token at step i and was not failed by the database is answered 200 exactly when the
   * token was genuine, unexpired, its owner's and not denied before the race, and no request that
   * uses the token up had committed before step i.
   */
  lemma AcceptedIff(s0: Server, qs: seq<Request>, es: seq<RaceEvent>, i: nat)
    requires ServerOk(s0) && RaceAfter(Start(s0, qs), es).Some? && i < |es| && es[i].CheckRefresh?
    requires
      var r := RaceAfter(Start(s0, qs), es).value;
      es[i].w < |r.works| && Settled(r, es[i].w)
    ensures RaceAfter(Start(s0, qs), es[..i]).Some? && es[i].w < |qs| && Contends(qs[es[i].w])
    ensures
      var r, before, q := RaceAfter(Start(s0, qs), es).value, RaceAfter(Start(s0, qs), es[..i]).value, qs[es[i].w];
      Accepted(r, es[i].w) <==>
      Genuine(before.server, q.refresh, Refresh) && !Expired(q.refresh, es[i].now) && OwnerOk(q) &&
      q.refresh.jti !in s0.denied && NoneCommitted(qs, es[..i], q.refresh.jti)
  {
    PrefixRuns(Start(s0, qs), es, i);
    OutcomeOfCheck(s0, qs, es, i);
    PassesIff(s0, qs, es[..i], es[i]);
  }

  /** t can be presented: genuine, a refresh token, not denied. */
  predicate Live(s: Server, t: Token) {
    Genuine(s, t, Refresh) && t.jti !in s.denied
  }

  /**
   * Two requests presenting one token, whatever else goes on: both are answered 200 exactly when
   * neither looked the token up after the other had committed.
   */
  lemma BothAcceptedIff(s0: Server, qs: seq<Request>, es: seq<RaceEvent>, i: nat, k: nat)
    requires ServerOk(s0) && RaceAfter(Start(s0, qs), es).Some?
    requires i < |es| && es[i].CheckRefresh? && k < |es| && es[k].CheckRefresh? && es[i].w != es[k].w
    requires
      var a, b, r := es[i].w, es[k].w, RaceAfter(Start(s0, qs), es).value;
      a < |qs| == |r.works| && b < |qs| && Settled(r, a) && Settled(r, b) && OnlyTwo(qs, a, b) &&
      Live(s0, qs[a].refresh) && !Expired(qs[a].refresh, es[i].now) && !Expired(qs[a].refresh, es[k].now)
    ensures
      var a, b, r := es[i].w, es[k].w, RaceAfter(Start(s0, qs), es).value;
      Accepted(r, a) && Accepted(r, b) <==> !CommittedIn(es[..i], b) && !CommittedIn(es[..k], a)
  {
    var a, b := es[i].w, es[k].w;
    AcceptedIff(s0, qs, es, i);
    AcceptedIff(s0, qs, es, k);
    RaceKeeps(s0, qs, es[..i]);
    RaceKeeps(s0, qs, es[..k]);
    NotYetCommitted(s0, qs, es, i);
    NotYetCommitted(s0, qs, es, k);
  }

  /** a and b present the same refresh token as its owner, and no other request presents it. */
  predicate OnlyTwo(qs: seq<Request>, a: nat, b: nat)
    requires a < |qs| && b < |qs|
  {
    Contends(qs[a]) && Contends(qs[b]) && OwnerOk(qs[a]) && OwnerOk(qs[b]) && qs[a].refresh == qs[b].refresh &&
    forall u :: 0 <= u < |qs| && u != a && u != b ==> !UsesUp(qs[u], qs[a].refresh.jti)
  }

  /** A request has not committed when it looks its token up. */
  lemma NotYetCommitted(s0: Server, qs: seq<Request>, es: seq<RaceEvent>, i: nat)
    requires ServerOk(s0) && RaceAfter(Start(s0, qs), es).Some? && i < |es| && es[i].CheckRefresh? && es[i].w < |qs|
    ensures !CommittedIn(es[..i], es[i].w)
  {
    StepAt(Start(s0, qs), es, i);
    NotAgain(RaceAfter(Start(s0, qs), es[..i]).value, es[i]);
    CommittedIff(s0, qs, es[..i], es[i].w);
  }

  lemma NotAgain(r: Race, e: RaceEvent)
    requires RaceStep(r, e).Some? && e.CheckRefresh?
    ensures e.w < |r.works| && !r.works[e.w].pc.Committed?
  {
  }

  /** Every event of a run was enabled when it happened. */
  lemma StepAt(r: Race, es: seq<RaceEvent>, i: nat)
    requires RaceAfter(r, es).Some? && i < |es|
    ensures RaceAfter(r, es[..i]).Some? && RaceStep(RaceAfter(r, es[..i]).value, es[i]).Some?
  {
    PrefixRuns(r, es, i + 1);
    assert es[..i + 1][..i] == es[..i];
  }

  // ---------------------------------------------------------------- how many tokens come of it

  predicate RotationDone(x: Work) {
    x.request.Rotate? && (x.pc.Answered? || x.pc.Committed? || x.pc.Lost?)
  }

  /** Rotations answered 200. */
  function Rotations(works: seq<Work>): nat {
    if works == [] then 0
    else Rotations(works[..|works| - 1]) + (if RotationDone(works[|works| - 1]) then 1 else 0)
  }

  lemma {:induction false} RotationsUpdate(works: seq<Work>, w: nat, x: Work)
    requires w < |works|
    ensures Rotations(works[w := x]) ==
      Rotations(works) - (if RotationDone(works[w]) then 1 else 0) + (if RotationDone(x) then 1 else 0)
  {
    var n := |works| - 1;
    if w == n {
      assert works[w := x][..n] == works[..n];
    } else {
      assert works[w := x][..n] == works[..n][w := x];
      RotationsUpdate(works[..n], w, x);
    }
  }

  lemma {:induction false} NoRotationsYet(s: Server, qs: seq<Request>)
    ensures Rotations(Start(s, qs).works) == 0
  {
    if qs == [] {
    } else {
      var n := |qs| - 1;
      assert Start(s, qs).works[..n] == Start(s, qs[..n]).works;
      NoRotationsYet(s, qs[..n]);
    }
  }

  /** Live refresh tokens of user. */
  function LiveIn(s: Server, user: nat): nat {
    LiveCount(s.issued, s.denied, user)
  }

  /** What the race has added to the live refresh tokens of user so far. */
  function Gain(r: Race, t: Token, user: nat): int {
    if user != t.user then 0 else Rotations(r.works) - (if t.jti in r.server.denied then 1 else 0)
  }

  predicate AllPresent(qs: seq<Request>, t: Token) {
    forall w :: 0 <= w < |qs| ==> Contends(qs[w]) && qs[w].refresh == t
  }

  lemma CommitGain(r: Race, w: nat, t: Token, user: nat)
    requires ServerOk(r.server) && Genuine(r.server, t, Refresh) && w < |r.works| && WorkOk(r.server, r.works[w])
    requires Contends(r.works[w].request) && r.works[w].request.refresh == t && RaceStep(r, Commit(w)).Some?
    ensures
      var next := RaceStep(r, Commit(w)).value;
      LiveIn(next.server, user) - Gain(next, t, user) == LiveIn(r.server, user) - Gain(r, t, user)
  {
    var x, s := r.works[w], r.server;
    var q := x.request;
    RotationsUpdate(r.works, w, Work(q, Committed, false, false));
    if q.Logout? && x.accessRow { AccessRowSilent(s, x, user); }
    var d := if q.Logout? && x.accessRow
      then s.denied[q.access.value.jti := Denied(q.refresh.user, q.access.value.exp)] else s.denied;
    LiveDeny(s.issued, d, t.jti, Denied(q.refresh.user, q.refresh.exp), user);
  }

  /** Denying an access token does not change the number of live refresh tokens. */
  lemma AccessRowSilent(s: Server, x: Work, user: nat)
    requires ServerOk(s) && Contends(x.request) && x.request.Logout? && x.pc.Answered? && WorkOk(s, x)
    ensures
      var q := x.request;
      q.access.value.jti != q.refresh.jti &&
      LiveCount(s.issued, s.denied[q.access.value.jti := Denied(q.refresh.user, q.access.value.exp)], user) ==
        LiveCount(s.issued, s.denied, user)
  {
    var q := x.request;
    LiveDeny(s.issued, s.denied, q.access.value.jti, Denied(q.refresh.user, q.access.value.exp), user);
  }

  lemma StepGain(r: Race, e: RaceEvent, t: Token, user: nat)
    requires ServerOk(r.server) && Genuine(r.server, t, Refresh) && RaceStep(r, e).Some?
    requires WorkOk(r.server, r.works[e.w]) && r.works[e.w].request.refresh == t
    ensures
      var next := RaceStep(r, e).value;
      LiveIn(next.server, user) - Gain(next, t, user) == LiveIn(r.server, user) - Gain(r, t, user)
  {
    var x := r.works[e.w];
    if e.Commit? {
      CommitGain(r, e.w, t, user);
    } else {
      RotationsUpdate(r.works, e.w, RaceStep(r, e).value.works[e.w]);
      if e.Answer? && x.request.Rotate? {
        LiveIssue(r.server, t.user, t.username, e.now, r.server.chain[t.jti], user);
      }
    }
  }

  /**
   * In every race of refreshes and logouts that present the token t, live before it: each rotation
   * answered 200 adds one live refresh token, and only the first commit takes one away. So n
   * rotations, all accepted, leave n - 1 tokens too many, and a logout accepted beside a rotation
   * leaves its user signed in. Nobody else's tokens change.
   */
  lemma RaceGain(s0: Server, qs: seq<Request>, es: seq<RaceEvent>, t: Token, user: nat)
    requires ServerOk(s0) && Live(s0, t) && AllPresent(qs, t) && RaceAfter(Start(s0, qs), es).Some?
    ensures
      var r := RaceAfter(Start(s0, qs), es).value;
      LiveIn(r.server, user) == LiveIn(s0, user) +
        (if user != t.user then 0
         else Rotations(r.works) - (if exists w :: 0 <= w < |qs| && CommittedIn(es, w) then 1 else 0))
  {
    RaceKeeps(s0, qs, es);
    CommittedAre(s0, qs, es, t.jti);
    GainSoFar(s0, qs, es, t, user);
    assert NoneCommitted(qs, es, t.jti) <==> forall w :: 0 <= w < |qs| ==> !CommittedIn(es, w);
  }

  lemma {:induction false} GainSoFar(s0: Server, qs: seq<Request>, es: seq<RaceEvent>, t: Token, user: nat)
    requires ServerOk(s0) && Live(s0, t) && AllPresent(qs, t) && RaceAfter(Start(s0, qs), es).Some?
    ensures
      var r := RaceAfter(Start(s0, qs), es).value;
      LiveIn(r.server, user) == LiveIn(s0, user) + Gain(r, t, user)
  {
    if es == [] {
      NoRotationsYet(s0, qs);
    } else {
      var n := |es| - 1;
      var r := RaceAfter(Start(s0, qs), es[..n]).value;
      GainSoFar(s0, qs, es[..n], t, user);
      RaceKeeps(s0, qs, es[..n]);
      StepGain(r, es[n], t, user);
    }
  }

  /** A logout accepted beside a rotation of the same token leaves its user with as many live tokens as before. */
  lemma LogoutBesideRotation(s0: Server, access: Token, t: Token, es: seq<RaceEvent>)
    requires ServerOk(s0) && Live(s0, t)
    requires
      var start := Start(s0, [Rotate(t), Logout(Some(access), t)]);
      RaceAfter(start, es).Some? && |RaceAfter(start, es).value.works| == 2 &&
      Accepted(RaceAfter(start, es).value, 0) && RaceAfter(start, es).value.works[1].pc.Committed?
    ensures
      var r := RaceAfter(Start(s0, [Rotate(t), Logout(Some(access), t)]), es).value;
      LiveIn(r.server, t.user) == LiveIn(s0, t.user)
  {
    var qs := [Rotate(t), Logout(Some(access), t)];
    var works := RaceAfter(Start(s0, qs), es).value.works;
    RaceGain(s0, qs, es, t, t.user);
    RaceKeeps(s0, qs, es);
    CommittedIff(s0, qs, es, 1);
    assert works[..1][..0] == [] && Rotations(works[..1]) == 1;
    assert works[1].request == qs[1];
  }

  // ---------------------------------------------------------------- nobody waits for ever

  predicate LeadsTo(r: Race, e: RaceEvent, w: nat, pc: Pc) {
    RaceStep(r, e).Some? && w < |RaceStep(r, e).value.works| && RaceStep(r, e).value.works[w].pc == pc
  }

  /** When each step of a request can happen; only the inserts wait for anybody. */
  lemma StepsEnabled(r: Race, w: nat, now: int)
    requires w < |r.works| && Contends(r.works[w].request)
    ensures
      var x := r.works[w];
      var q := x.request;
      (RaceStep(r, CheckAccess(w, now)).Some? <==> q.Logout? && x.pc.Arrived?) &&
      (RaceStep(r, CheckRefresh(w, now)).Some? <==> if q.Rotate? then x.pc.Arrived? else x.pc.Admitted?) &&
      (RaceStep(r, WriteAccess(w)).Some? <==> q.Logout? && x.pc.Checked? && !Held(r, w, q.access.value.jti)) &&
      (RaceStep(r, WriteRefresh(w)).Some? <==>
        (if q.Rotate? then x.pc.Checked? else x.pc.HalfWritten?) && !Held(r, w, q.refresh.jti)) &&
      (RaceStep(r, Answer(w, now)).Some? <==> x.pc.Written?) &&
      (RaceStep(r, Commit(w)).Some? <==> x.pc.Answered?) && (RaceStep(r, Lose(w)).Some? <==> x.pc.Answered?) &&
      (RaceStep(r, Fail(w)).Some? <==> x.pc.Checked? || x.pc.HalfWritten? || x.pc.Written?)
  {
  }

  /** A failed or lost transaction leaves no row behind, and the tokens it issued stay issued. */
  lemma RolledBack(r: Race, e: RaceEvent)
    requires (e.Fail? || e.Lose?) && RaceStep(r, e).Some?
    ensures
      var t := RaceStep(r, e).value;
      t.server == r.server && e.w < |t.works| &&
      t.works[e.w] == Work(r.works[e.w].request, if e.Fail? then Failed else Lost, false, false)
  {
  }

  predicate Unfinished(pc: Pc) {
    pc.Arrived? || pc.Admitted? || pc.Checked? || pc.HalfWritten? || pc.Written? || pc.Answered?
  }

  /** Some step other than a failure can happen. */
  predicate Moves(r: Race, e: RaceEvent) {
    !e.Fail? && !e.Lose? && RaceStep(r, e).Some?
  }

  ghost predicate SomeoneMoves(r: Race) {
    exists e :: Moves(r, e)
  }

  /** Whoever has inserted its refresh row waits for nobody. */
  lemma HolderOfRefresh(r: Race, u: nat)
    requires u < |r.works| && WorkOk(r.server, r.works[u]) && Contends(r.works[u].request) && r.works[u].refreshRow
    ensures SomeoneMoves(r)
  {
    StepsEnabled(r, u, 0);
    assert r.works[u].pc.Written? ==> Moves(r, Answer(u, 0));
    assert r.works[u].pc.Answered? ==> Moves(r, Commit(u));
  }

  /** An uncommitted row for a refresh token is a refresh row: an access token has another identifier. */
  lemma HeldByRefresh(s: Server, x: Work, y: Work)
    requires WorkOk(s, x) && WorkOk(s, y) && Contends(x.request) && Passed(x.pc)
    requires Holds(y, x.request.refresh.jti)
    ensures y.refreshRow
  {
  }

  /** Whoever waits with its refresh row waits for a request that does not wait. */
  lemma RefreshWaits(s0: Server, r: Race, w: nat)
    requires RaceOk(s0, r) && w < |r.works| && Contends(r.works[w].request) && Passed(r.works[w].pc)
    requires if r.works[w].request.Rotate? then r.works[w].pc.Checked? else r.works[w].pc.HalfWritten?
    ensures SomeoneMoves(r)
  {
    StepsEnabled(r, w, 0);
    if Held(r, w, r.works[w].request.refresh.jti) {
      var u :| 0 <= u < |r.works| && u != w && Holds(r.works[u], r.works[w].request.refresh.jti);
      assert WorkOk(r.server, r.works[u]) && WorkOk(r.server, r.works[w]);
      HeldByRefresh(r.server, r.works[w], r.works[u]);
      HolderOfRefresh(r, u);
    } else {
      assert Moves(r, WriteRefresh(w));
    }
  }

  /** No deadlock, as the access row is inserted first: while one is unfinished, some request can move. */
  lemma NoDeadlock(s0: Server, qs: seq<Request>, es: seq<RaceEvent>, w: nat)
    requires ServerOk(s0) && RaceAfter(Start(s0, qs), es).Some? && w < |qs| && Contends(qs[w])
    requires w < |RaceAfter(Start(s0, qs), es).value.works|
    requires Unfinished(RaceAfter(Start(s0, qs), es).value.works[w].pc)
    ensures SomeoneMoves(RaceAfter(Start(s0, qs), es).value)
  {
    RaceKeeps(s0, qs, es);
    OneMoves(s0, RaceAfter(Start(s0, qs), es).value, w);
  }

  lemma OneMoves(s0: Server, r: Race, w: nat)
    requires RaceOk(s0, r) && w < |r.works| && Contends(r.works[w].request) && Unfinished(r.works[w].pc)
    ensures SomeoneMoves(r)
  {
    var x := r.works[w];
    StepsEnabled(r, w, 0);
    match x.pc
    case Arrived => assert if x.request.Rotate? then Moves(r, CheckRefresh(w, 0)) else Moves(r, CheckAccess(w, 0));
    case Admitted =>
      assert WorkOk(r.server, x);
      assert Moves(r, CheckRefresh(w, 0));
    case Checked => if x.request.Rotate? { RefreshWaits(s0, r, w); } else { AccessWaits(s0, r, w); }
    case HalfWritten =>
      HalfIsLogout(s0, r, w);
      RefreshWaits(s0, r, w);
    case Written => assert Moves(r, Answer(w, 0));
    case Answered => assert Moves(r, Commit(w));
    case _ =>
  }

  lemma HalfIsLogout(s0: Server, r: Race, w: nat)
    requires RaceOk(s0, r) && w < |r.works| && Contends(r.works[w].request) && r.works[w].pc.HalfWritten?
    ensures r.works[w].request.Logout?
  {
    assert WorkOk(r.server, r.works[w]);
  }

  lemma AccessWaits(s0: Server, r: Race, w: nat)
    requires RaceOk(s0, r) && w < |r.works| && Contends(r.works[w].request)
    requires r.works[w].request.Logout? && r.works[w].pc.Checked?
    ensures SomeoneMoves(r)
  {
    StepsEnabled(r, w, 0);
    var j := r.works[w].request.access.value.jti;
    if Held(r, w, j) {
      var u :| 0 <= u < |r.works| && u != w && Holds(r.works[u], j);
      assert WorkOk(r.server, r.works[u]) && WorkOk(r.server, r.works[w]);
      assert r.works[u].accessRow;
      if r.works[u].pc.HalfWritten? {
        RefreshWaits(s0, r, u);
      } else {
        StepsEnabled(r, u, 0);
        assert r.works[u].pc.Written? ==> Moves(r, Answer(u, 0));
        assert r.works[u].pc.Answered? ==> Moves(r, Commit(u));
      }
    } else {
      assert Moves(r, WriteAccess(w));
    }
  }

  // ---------------------------------------------------------------- particular runs

  lemma Then(r: Race, es: seq<RaceEvent>, e: RaceEvent)
    requires RaceAfter(r, es).Some?
    ensures RaceAfter(r, es + [e]) == RaceStep(RaceAfter(r, es).value, e)
  {
    assert (es + [e])[..|es|] == es;
  }

  /** One request from lookup to commit with nothing in between. */
  function Alone(q: Request, now: int): seq<RaceEvent> {
    if q.Rotate? then [CheckRefresh(0, now), WriteRefresh(0), Answer(0, now), Commit(0)]
    else [CheckAccess(0, now), CheckRefresh(0, now), WriteAccess(0), WriteRefresh(0), Answer(0, now), Commit(0)]
  }

  function One(s: Server, q: Request, pc: Pc, accessRow: bool, refreshRow: bool): Race {
    Race(s, [Work(q, pc, accessRow, refreshRow)])
  }

  lemma OneUpdated()
    ensures forall x: Work, y: Work :: [x][0 := y] == [y]
  {
  }

  lemma OneStarts(s: Server, q: Request)
    ensures Start(s, [q]) == One(s, q, Arrived, false, false)
  {
  }

  /** Taken one after the other the steps of a request do what the serial model says in one. */
  lemma AloneIsServe(s: Server, q: Request, now: int)
    requires ServerOk(s) && Contends(q) && Serve(s, now, q, true).1.code == 200
    ensures RaceAfter(Start(s, [q]), Alone(q, now)) == Some(One(Serve(s, now, q, true).0, q, Committed, false, false))
  {
    if q.Rotate? {
      RotateAlone(s, q, now);
    } else {
      LogoutAlone(s, q, now);
    }
  }

  lemma OneChecks(s: Server, q: Request, now: int)
    requires Contends(q) && OwnerOk(q) && Verifies(s, q.refresh, Refresh, now)
    ensures RaceStep(One(s, q, if q.Rotate? then Arrived else Admitted, false, false), CheckRefresh(0, now)) ==
      Some(One(s, q, Checked, false, false))
  {
    OneUpdated();
  }

  lemma OneWrites(s: Server, q: Request)
    requires Contends(q) && q.refresh.jti !in s.denied
    ensures RaceStep(One(s, q, if q.Rotate? then Checked else HalfWritten, q.Logout?, false), WriteRefresh(0)) ==
      Some(One(s, q, Written, q.Logout?, true))
  {
    OneUpdated();
  }

  lemma OneAnswersAndCommits(s: Server, q: Request, now: int)
    requires ServerOk(s) && Contends(q) && Serve(s, now, q, true).1.code == 200
    ensures RaceStep(One(s, q, Written, q.Logout?, true), Answer(0, now)) ==
      Some(One(Issued(s, q, now), q, Answered, q.Logout?, true))
    ensures RaceStep(One(Issued(s, q, now), q, Answered, q.Logout?, true), Commit(0)) ==
      Some(One(Serve(s, now, q, true).0, q, Committed, false, false))
  {
    OneUpdated();
  }

  lemma RotateAlone(s: Server, q: Request, now: int)
    requires ServerOk(s) && q.Rotate? && Verifies(s, q.refresh, Refresh, now)
    ensures RaceAfter(Start(s, [q]), Alone(q, now)) == Some(One(Serve(s, now, q, true).0, q, Committed, false, false))
  {
    OneStarts(s, q);
    var r, es := Start(s, [q]), [CheckRefresh(0, now)];
    Then(r, [], CheckRefresh(0, now));
    assert [] + es == es;
    OneChecks(s, q, now);
    OneWrites(s, q);
    Then(r, es, WriteRefresh(0));
    AloneEnds(s, q, es + [WriteRefresh(0)], now);
    assert es + [WriteRefresh(0)] + [Answer(0, now)] + [Commit(0)] == Alone(q, now);
  }

  lemma AloneEnds(s: Server, q: Request, es: seq<RaceEvent>, now: int)
    requires ServerOk(s) && Contends(q) && Serve(s, now, q, true).1.code == 200
    requires RaceAfter(Start(s, [q]), es) == Some(One(s, q, Written, q.Logout?, true))
    ensures RaceAfter(Start(s, [q]), es + [Answer(0, now)] + [Commit(0)]) ==
      Some(One(Serve(s, now, q, true).0, q, Committed, false, false))
  {
    OneAnswersAndCommits(s, q, now);
    Then(Start(s, [q]), es, Answer(0, now));
    Then(Start(s, [q]), es + [Answer(0, now)], Commit(0));
  }

  lemma LogoutAlone(s: Server, q: Request, now: int)
    requires ServerOk(s) && q.Logout? && OwnerOk(q)
    requires Authorised(s, q.access, now) && Verifies(s, q.refresh, Refresh, now)
    ensures RaceAfter(Start(s, [q]), Alone(q, now)) == Some(One(Serve(s, now, q, true).0, q, Committed, false, false))
  {
    var checks := [CheckAccess(0, now), CheckRefresh(0, now)];
    LogoutChecks(s, q, now);
    LogoutWrites(s, q, checks, now);
    AloneEnds(s, q, checks + [WriteAccess(0)] + [WriteRefresh(0)], now);
    assert checks + [WriteAccess(0)] + [WriteRefresh(0)] + [Answer(0, now)] + [Commit(0)] == Alone(q, now);
  }

  lemma LogoutChecks(s: Server, q: Request, now: int)
    requires q.Logout? && OwnerOk(q) && Authorised(s, q.access, now) && Verifies(s, q.refresh, Refresh, now)
    ensures RaceAfter(Start(s, [q]), [CheckAccess(0, now), CheckRefresh(0, now)]) ==
      Some(One(s, q, Checked, false, false))
  {
    OneUpdated();
    OneStarts(s, q);
    var r, es := Start(s, [q]), [CheckAccess(0, now)];
    Then(r, [], CheckAccess(0, now));
    assert [] + es == es;
    OneChecks(s, q, now);
    Then(r, es, CheckRefresh(0, now));
    assert es + [CheckRefresh(0, now)] == [CheckAccess(0, now), CheckRefresh(0, now)];
  }

  lemma LogoutWrites(s: Server, q: Request, es: seq<RaceEvent>, now: int)
    requires q.Logout? && Authorised(s, q.access, now) && Verifies(s, q.refresh, Refresh, now)
    requires RaceAfter(Start(s, [q]), es) == Some(One(s, q, Checked, false, false))
    ensures RaceAfter(Start(s, [q]), es + [WriteAccess(0)] + [WriteRefresh(0)]) == Some(One(s, q, Written, true, true))
  {
    OneUpdated();
    var r := Start(s, [q]);
    Then(r, es, WriteAccess(0));
    OneWrites(s, q);
    Then(r, es + [WriteAccess(0)], WriteRefresh(0));
  }

  function Two(s: Server, t: Token, a: Pc, aRow: bool, b: Pc, bRow: bool): Race {
    Race(s, [Work(Rotate(t), a, false, aRow), Work(Rotate(t), b, false, bRow)])
  }

  lemma TwoUpdated()
    ensures forall x: Work, y: Work, z: Work :: [x, y][0 := z] == [z, y]
    ensures forall x: Work, y: Work, z: Work :: [x, y][1 := z] == [x, z]
  {
  }

  lemma TwoStart(s: Server, t: Token)
    ensures Start(s, [Rotate(t), Rotate(t)]) == Two(s, t, Arrived, false, Arrived, false)
  {
  }

  /** The second request looks the token up after the first one's insert and before its commit. */
  function Overlap(now: int): seq<RaceEvent> {
    [CheckRefresh(0, now), WriteRefresh(0), CheckRefresh(1, now)] +
    [Answer(0, now), Commit(0), WriteRefresh(1), Answer(1, now), Commit(1)]
  }

  /**
   * A row that is written but not committed does not stop the next lookup: the second request waits
   * at its own insert until the first commits, finds the row there, and is answered 200 as well.
   */
  lemma OverlapAccepted(s: Server, t: Token, now: int)
    requires ServerOk(s) && Verifies(s, t, Refresh, now)
    ensures
      var start := Start(s, [Rotate(t), Rotate(t)]);
      RaceAfter(start, Overlap(now)[..3] + [WriteRefresh(1)]) == None &&
      RaceAfter(start, Overlap(now)).Some? &&
      var r := RaceAfter(start, Overlap(now)).value;
      |r.works| == 2 && Accepted(r, 0) && Accepted(r, 1) && LiveIn(r.server, t.user) == LiveIn(s, t.user) + 1
  {
    var start := Start(s, [Rotate(t), Rotate(t)]);
    OverlapFirst(s, t, now);
    OverlapSecond(s, t, now);
    Then(start, Overlap(now)[..3], WriteRefresh(1));
    assert Holds(Two(s, t, Written, true, Checked, false).works[0], t.jti);
    RaceGain(s, [Rotate(t), Rotate(t)], Overlap(now), t, t.user);
    var works := RaceAfter(start, Overlap(now)).value.works;
    assert works[..1][..0] == [] && Rotations(works[..1]) == 1 && Rotations(works) == 2;
    assert CommittedIn(Overlap(now), 1) by { assert Overlap(now)[7] == Commit(1); }
  }

  lemma OverlapFirst(s: Server, t: Token, now: int)
    requires ServerOk(s) && Verifies(s, t, Refresh, now)
    ensures RaceAfter(Start(s, [Rotate(t), Rotate(t)]), Overlap(now)[..3]) ==
      Some(Two(s, t, Written, true, Checked, false))
  {
    TwoUpdated();
    TwoStart(s, t);
    var r := Start(s, [Rotate(t), Rotate(t)]);
    var es := [CheckRefresh(0, now)];
    Then(r, [], CheckRefresh(0, now));
    assert [] + es == es;
    assert RaceAfter(r, es) == Some(Two(s, t, Checked, false, Arrived, false));
    Then(r, es, WriteRefresh(0));
    assert !Held(Two(s, t, Checked, false, Arrived, false), 0, t.jti);
    es := es + [WriteRefresh(0)];
    assert RaceAfter(r, es) == Some(Two(s, t, Written, true, Arrived, false));
    Then(r, es, CheckRefresh(1, now));
    assert es + [CheckRefresh(1, now)] == Overlap(now)[..3];
  }

  lemma OverlapSecond(s: Server, t: Token, now: int)
    requires ServerOk(s) && Verifies(s, t, Refresh, now)
    requires RaceAfter(Start(s, [Rotate(t), Rotate(t)]), Overlap(now)[..3]) ==
      Some(Two(s, t, Written, true, Checked, false))
    ensures
      var after := RaceAfter(Start(s, [Rotate(t), Rotate(t)]), Overlap(now));
      after.Some? && exists u :: after == Some(Two(u, t, Committed, false, Committed, false))
  {
    TwoUpdated();
    var r, es := Start(s, [Rotate(t), Rotate(t)]), Overlap(now)[..3];
    var one := Issued(s, Rotate(t), now);
    Then(r, es, Answer(0, now));
    es := es + [Answer(0, now)];
    assert RaceAfter(r, es) == Some(Two(one, t, Answered, true, Checked, false));
    Then(r, es, Commit(0));
    es := es + [Commit(0)];
    var denied := one.(denied := one.denied[t.jti := Denied(t.user, t.exp)]);
    assert RaceAfter(r, es) == Some(Two(denied, t, Committed, false, Checked, false));
    SecondEnds(r, es, denied, t, now);
    assert es + [WriteRefresh(1)] + [Answer(1, now)] + [Commit(1)] == Overlap(now);
  }

  lemma SecondEnds(r: Race, es: seq<RaceEvent>, s: Server, t: Token, now: int)
    requires t.jti in s.denied && RaceAfter(r, es) == Some(Two(s, t, Committed, false, Checked, false))
    ensures RaceAfter(r, es + [WriteRefresh(1)] + [Answer(1, now)] + [Commit(1)]) ==
      Some(Two(Issued(s, Rotate(t), now), t, Committed, false, Committed, false))
  {
    TwoUpdated();
    Then(r, es, WriteRefresh(1));
    assert !Held(Two(s, t, Committed, false, Checked, false), 1, t.jti);
    assert RaceAfter(r, es + [WriteRefresh(1)]) == Some(Two(s, t, Committed, false, Written, false));
    Then(r, es + [WriteRefresh(1)], Answer(1, now));
    var u := Issued(s, Rotate(t), now);
    assert RaceAfter(r, es + [WriteRefresh(1)] + [Answer(1, now)]) ==
      Some(Two(u, t, Committed, false, Answered, false));
    assert u.(denied := CommitRows(u.denied, Work(Rotate(t), Answered, false, false))) == u;
    Then(r, es + [WriteRefresh(1)] + [Answer(1, now)], Commit(1));
  }
}

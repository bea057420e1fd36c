/**
 * Recording a message's digest on chain: the send handler, the background recorder threads, message
 * deletion and the node, interleaved step by step. Every SQL statement, lock operation and RPC call
 * is one step; rows written by an open transaction are invisible to the others until its commit.
 */
module Recording {
  import opened Common
  import opened DigestLog
  import opened RateLimiter
  import Hex

  /** Message ids are handed out in order and never reused; here they index the message list. */
  type Id = nat

  const MAX_PER_HOUR: int := 10

  /** The hash of a signed transaction, taken to be collision-free. */
  datatype Tx = Tx(nonce: nat, digest: Bytes)

  datatype Outcome = Success(index: nat) | Reverted

  /** accepted: transactions of the recording account in order of acceptance; outcomes: those mined so far. */
  datatype Node = Node(base: nat, accepted: seq<Tx>, outcomes: seq<Outcome>, records: seq<Record>)

  datatype RowLock = Free | Recorder | Deleter

  datatype Row = Uncommitted | Live(txHash: Option<Tx>, lock: RowLock) | Gone

  /** Where a recorder thread stands. matched: its UPDATE found the message row. */
  datatype Pc =
    | Started
    | HoldsLock
    | HasNonce(nonce: nat)
    | Submitted(tx: Tx)
    | Waiting(tx: Tx)
    | Confirmed(tx: Tx)
    | Updated(tx: Tx, matched: bool)
    | Inserted(tx: Tx, matched: bool)
    | Stored(tx: Tx, matched: bool)
    | Ended

  datatype Thread = NotAsked | Refused | Thread(pc: Pc, contentHash: string, call: nat)

  datatype Message = Message(sender: User, row: Row, thread: Thread)

  /** A row of the audit table; message is the nullable foreign key. */
  datatype Audit = Audit(message: Option<Id>, tx: Tx, digest: string)

  /** submitter[i] is the message whose thread sent accepted[i]; calls are the limiter's calls so far. */
  datatype State = State(
    messages: seq<Message>, audit: seq<Audit>, nonceLock: Option<Id>, node: Node,
    submitter: seq<Id>, calls: seq<Call>)

  datatype Event =
    | SendInsert(sender: User)
    | SendRecord(m: Id, contentHash: string, reading: real)
    | SendCommit(m: Id)
    | SendAbort(m: Id)
    | DeleteStatement(m: Id)
    | DeleteCommit(m: Id)
    | DeleteAbort(m: Id)
    | Acquire(m: Id)
    | ReadNonce(m: Id)
    | Submit(m: Id)
    | SubmitLost(m: Id)
    | Release(m: Id)
    | SeeReceipt(m: Id)
    | Update(m: Id)
    | Insert(m: Id)
    | CommitStore(m: Id)
    | Fail(m: Id)
    | Mine(success: bool, time: nat)

  function Initial(base: nat): State {
    State([], [], None, Node(base, [], [], []), [], [])
  }

  // ---------------------------------------------------------------- steps

  predicate AtPc(s: State, m: Id) {
    m < |s.messages| && s.messages[m].thread.Thread?
  }

  function PcOf(s: State, m: Id): Pc
    requires AtPc(s, m)
  {
    s.messages[m].thread.pc
  }

  function SetPc(s: State, m: Id, pc: Pc): State
    requires AtPc(s, m)
  {
    var e := s.messages[m];
    s.(messages := s.messages[m := e.(thread := e.thread.(pc := pc))])
  }

  function SetRow(s: State, m: Id, row: Row): State
    requires m < |s.messages|
  {
    s.(messages := s.messages[m := s.messages[m].(row := row)])
  }

  /** ON DELETE SET NULL. */
  function SetNull(audit: seq<Audit>, m: Id): (r: seq<Audit>)
    ensures |r| == |audit|
    ensures forall k :: 0 <= k < |audit| ==>
      r[k] == if audit[k].message == Some(m) then audit[k].(message := None) else audit[k]
  {
    seq(|audit|, k requires 0 <= k < |audit| =>
      if audit[k].message == Some(m) then audit[k].(message := None) else audit[k])
  }

  /** The number of pending and mined transactions of the account, as the node counts them. */
  function PendingNonce(n: Node): nat {
    n.base + |n.accepted|
  }

  function Send(s: State, m: Id, nonce: nat): State
    requires AtPc(s, m) && Hex.RawDigest(s.messages[m].thread.contentHash).Some?
  {
    var tx := Tx(nonce, Hex.RawDigest(s.messages[m].thread.contentHash).value);
    s.(node := s.node.(accepted := s.node.accepted + [tx]), submitter := s.submitter + [m])
  }

  predicate HasReceipt(n: Node, tx: Tx) {
    n.base <= tx.nonce && tx.nonce - n.base < |n.outcomes| && tx.nonce - n.base < |n.accepted| &&
    n.accepted[tx.nonce - n.base] == tx
  }

  predicate Succeeded(n: Node, tx: Tx) {
    HasReceipt(n, tx) && n.outcomes[tx.nonce - n.base].Success?
  }

  function Recordable(s: State, m: Id): bool {
    m < |s.messages| && s.messages[m].row == Uncommitted && s.messages[m].thread == NotAsked
  }

  /** The send handler's last act before its transaction commits: ask the limiter, start the thread. */
  function SendRecordStep(s: State, m: Id, contentHash: string, reading: real): Option<State> {
    var normal := Hex.Normalise(contentHash);
    if !Recordable(s, m) || normal.None? then None
    else
      var e := s.messages[m];
      var calls := s.calls + [Call(e.sender, reading)];
      var thread :=
        if Accepts(calls, MAX_PER_HOUR, |s.calls|) then Thread(Started, normal.value, |s.calls|) else Refused;
      Some(s.(messages := s.messages[m := e.(thread := thread)], calls := calls))
  }

  function DeleteCommitStep(s: State, m: Id): Option<State> {
    if m < |s.messages| && s.messages[m].row.Live? && s.messages[m].row.lock == Deleter
    then Some(SetRow(s, m, Gone).(audit := SetNull(s.audit, m))) else None
  }

  /** UPDATE messages: waits for a deleter, locks the row it finds, and matches nothing otherwise. */
  function UpdateStep(s: State, m: Id): Option<State> {
    if !AtPc(s, m) || !PcOf(s, m).Confirmed? then None
    else
      var row, tx := s.messages[m].row, PcOf(s, m).tx;
      if !row.Live? then Some(SetPc(s, m, Updated(tx, false)))
      else if row.lock.Free? then Some(SetRow(SetPc(s, m, Updated(tx, true)), m, row.(lock := Recorder)))
      else None
  }

  /** INSERT of the audit row: the foreign key waits for a deleter and fails without a visible message. */
  function InsertStep(s: State, m: Id): Option<State> {
    if !AtPc(s, m) || !PcOf(s, m).Updated? then None
    else
      var row, pc := s.messages[m].row, PcOf(s, m);
      if !row.Live? then Some(SetPc(s, m, Ended))
      else if row.lock.Deleter? then None
      else Some(SetRow(SetPc(s, m, Inserted(pc.tx, pc.matched)), m, row.(lock := Recorder)))
  }

  /** COMMIT of both statements together. */
  function CommitStoreStep(s: State, m: Id): Option<State> {
    if !AtPc(s, m) || !PcOf(s, m).Inserted? || !s.messages[m].row.Live? then None
    else
      var row, pc := s.messages[m].row, PcOf(s, m);
      var txHash := if pc.matched then Some(pc.tx) else row.txHash;
      var t := SetRow(SetPc(s, m, Stored(pc.tx, pc.matched)), m, Live(txHash, Free));
      Some(t.(audit := s.audit + [Audit(Some(m), pc.tx, s.messages[m].thread.contentHash)]))
  }

  /** An exception at any point: locks are released, the open transaction is rolled back. */
  function FailStep(s: State, m: Id): Option<State> {
    if !AtPc(s, m) || PcOf(s, m).Stored? || PcOf(s, m).Ended? then None
    else
      var pc, row := PcOf(s, m), s.messages[m].row;
      var t := SetPc(s, m, Ended);
      var u := if row.Live? && row.lock.Recorder? then SetRow(t, m, row.(lock := Free)) else t;
      Some(if s.nonceLock == Some(m) then u.(nonceLock := None) else u)
  }

  function MineStep(s: State, success: bool, time: nat): Option<State> {
    var n := s.node;
    var i := |n.outcomes|;
    if i >= |n.accepted| then None
    else if success then
      Some(s.(node := n.(
        outcomes := n.outcomes + [Success(|n.records|)],
        records := Appended(n.records, n.accepted[i].digest, time))))
    else Some(s.(node := n.(outcomes := n.outcomes + [Reverted])))
  }

  /** The state after e; None when e is not enabled (blocked, or out of order). */
  function Step(s: State, e: Event): Option<State> {
    match e
    case SendInsert(sender) => Some(s.(messages := s.messages + [Message(sender, Uncommitted, NotAsked)]))
    case SendRecord(m, contentHash, reading) => SendRecordStep(s, m, contentHash, reading)
    case SendCommit(m) =>
      if m < |s.messages| && s.messages[m].row == Uncommitted then Some(SetRow(s, m, Live(None, Free))) else None
    case SendAbort(m) =>
      if m < |s.messages| && s.messages[m].row == Uncommitted then Some(SetRow(s, m, Gone)) else None
    case DeleteStatement(m) =>
      if m < |s.messages| && s.messages[m].row.Live? && s.messages[m].row.lock == Free
      then Some(SetRow(s, m, s.messages[m].row.(lock := Deleter))) else None
    case DeleteCommit(m) => DeleteCommitStep(s, m)
    case DeleteAbort(m) =>
      if m < |s.messages| && s.messages[m].row.Live? && s.messages[m].row.lock == Deleter
      then Some(SetRow(s, m, s.messages[m].row.(lock := Free))) else None
    case Acquire(m) =>
      if AtPc(s, m) && PcOf(s, m) == Started && s.nonceLock == None
      then Some(SetPc(s, m, HoldsLock).(nonceLock := Some(m))) else None
    case ReadNonce(m) =>
      if AtPc(s, m) && PcOf(s, m) == HoldsLock then Some(SetPc(s, m, HasNonce(PendingNonce(s.node)))) else None
    case Submit(m) =>
      if AtPc(s, m) && PcOf(s, m).HasNonce? && Hex.RawDigest(s.messages[m].thread.contentHash).Some? then
        var t := Send(s, m, PcOf(s, m).nonce);
        Some(SetPc(t, m, Submitted(t.node.accepted[|s.node.accepted|])))
      else None
    case SubmitLost(m) =>
      if AtPc(s, m) && PcOf(s, m).HasNonce? && Hex.RawDigest(s.messages[m].thread.contentHash).Some?
      then Some(SetPc(Send(s, m, PcOf(s, m).nonce), m, Ended).(nonceLock := None)) else None
    case Release(m) =>
      if AtPc(s, m) && PcOf(s, m).Submitted?
      then Some(SetPc(s, m, Waiting(PcOf(s, m).tx)).(nonceLock := None)) else None
    case SeeReceipt(m) =>
      if AtPc(s, m) && PcOf(s, m).Waiting? && HasReceipt(s.node, PcOf(s, m).tx) then
        var tx := PcOf(s, m).tx;
        Some(SetPc(s, m, if Succeeded(s.node, tx) then Confirmed(tx) else Ended))
      else None
    case Update(m) => UpdateStep(s, m)
    case Insert(m) => InsertStep(s, m)
    case CommitStore(m) => CommitStoreStep(s, m)
    case Fail(m) => FailStep(s, m)
    case Mine(success, time) => MineStep(s, success, time)
  }

  function Run(s: State, es: seq<Event>): Option<State>
    decreases |es|
  {
    if es == [] then Some(s)
    else
      var t := Step(s, es[0]);
      if t.None? then None else Run(t.value, es[1..])
  }

  // ---------------------------------------------------------------- the invariant

  /** Nonces are consecutive; every success points at the record of its own digest. */
  predicate NodeOk(n: Node) {
    |n.outcomes| <= |n.accepted| &&
    (forall i :: 0 <= i < |n.accepted| ==> n.accepted[i].nonce == n.base + i) &&
    (forall i :: 0 <= i < |n.outcomes| && n.outcomes[i].Success? ==>
      n.outcomes[i].index < |n.records| && n.records[n.outcomes[i].index].hash == n.accepted[i].digest)
  }

  predicate InCritical(pc: Pc) {
    pc.HoldsLock? || pc.HasNonce? || pc.Submitted?
  }

  predicate HasTx(pc: Pc) {
    pc.Submitted? || pc.Waiting? || pc.Confirmed? || pc.Updated? || pc.Inserted? || pc.Stored?
  }

  predicate SentBy(n: Node, submitter: seq<Id>, m: Id, tx: Tx) {
    n.base <= tx.nonce && tx.nonce - n.base < |n.accepted| == |submitter| &&
    n.accepted[tx.nonce - n.base] == tx && submitter[tx.nonce - n.base] == m
  }

  predicate ThreadOk(n: Node, submitter: seq<Id>, nonceLock: Option<Id>, m: Id, t: Thread) {
    t.Thread? ==>
      Hex.Normalise(t.contentHash) == Some(t.contentHash) &&
      (InCritical(t.pc) <==> nonceLock == Some(m)) &&
      (t.pc.HasNonce? ==> t.pc.nonce == PendingNonce(n)) &&
      (t.pc.Started? || t.pc.HoldsLock? || t.pc.HasNonce? ==> m !in submitter) &&
      (HasTx(t.pc) ==>
        SentBy(n, submitter, m, t.pc.tx) && Hex.RawDigest(t.contentHash) == Some(t.pc.tx.digest)) &&
      (HasTx(t.pc) && !t.pc.Submitted? && !t.pc.Waiting? ==> Succeeded(n, t.pc.tx))
  }

  predicate RowOk(e: Message) {
    (e.row.Live? ==>
      (e.row.txHash ==
        if e.thread.Thread? && e.thread.pc.Stored? && e.thread.pc.matched then Some(e.thread.pc.tx) else None) &&
      (e.row.lock.Recorder? <==>
        e.thread.Thread? && (e.thread.pc.Inserted? || (e.thread.pc.Updated? && e.thread.pc.matched)))) &&
    (e.thread.Thread? && (e.thread.pc.Inserted? || (e.thread.pc.Updated? && e.thread.pc.matched)) ==> e.row.Live?) &&
    (e.thread.Thread? && e.thread.pc.Stored? ==> !e.row.Uncommitted?)
  }

  /** Row a was written by the thread that sent its transaction, and points at that message while it is live. */
  predicate AuditOk(s: State, a: Audit) {
    Succeeded(s.node, a.tx) && Hex.RawDigest(a.digest) == Some(a.tx.digest) &&
    a.tx.nonce - s.node.base < |s.submitter| &&
    var m := s.submitter[a.tx.nonce - s.node.base];
    AtPc(s, m) && PcOf(s, m).Stored? && PcOf(s, m).tx == a.tx && s.messages[m].thread.contentHash == a.digest &&
    a.message == if s.messages[m].row.Live? then Some(m) else None
  }

  predicate DistinctTx(audit: seq<Audit>) {
    forall j, k :: 0 <= j < k < |audit| ==> audit[j].tx != audit[k].tx
  }

  function RowFor(m: Id, e: Message): Audit
    requires e.thread.Thread? && e.thread.pc.Stored?
  {
    Audit(if e.row.Live? then Some(m) else None, e.thread.pc.tx, e.thread.contentHash)
  }

  predicate StoredHaveRows(s: State) {
    forall m :: 0 <= m < |s.messages| && s.messages[m].thread.Thread? && s.messages[m].thread.pc.Stored? ==>
      RowFor(m, s.messages[m]) in s.audit
  }

  predicate ThreadsOk(s: State) {
    (|s.submitter| == |s.node.accepted|) &&
    (forall m :: 0 <= m < |s.messages| ==> ThreadOk(s.node, s.submitter, s.nonceLock, m, s.messages[m].thread)) &&
    (s.nonceLock.Some? ==> AtPc(s, s.nonceLock.value)) &&
    (forall i :: 0 <= i < |s.submitter| ==> AtPc(s, s.submitter[i])) &&
    (forall i, j :: 0 <= i < j < |s.submitter| ==> s.submitter[i] != s.submitter[j])
  }

  predicate RowsOk(s: State) {
    forall m :: 0 <= m < |s.messages| ==> RowOk(s.messages[m])
  }

  predicate AuditsOk(s: State) {
    (forall k :: 0 <= k < |s.audit| ==> AuditOk(s, s.audit[k])) && DistinctTx(s.audit)
  }

  predicate Inv(s: State) {
    NodeOk(s.node) && ThreadsOk(s) && RowsOk(s) && AuditsOk(s) && StoredHaveRows(s)
  }

  // ---------------------------------------------------------------- steps that touch one message

  /** t differs from s in message m, and perhaps in who holds the nonce lock, or in the limiter's calls. */
  ghost predicate OneMessage(s: State, t: State, m: Id) {
    m < |s.messages| == |t.messages| && t.messages == s.messages[m := t.messages[m]] &&
    t.node == s.node && t.submitter == s.submitter && t.audit == s.audit &&
    (forall j: Id :: j != m ==> (s.nonceLock == Some(j) <==> t.nonceLock == Some(j))) &&
    (t.nonceLock.Some? ==> AtPc(t, t.nonceLock.value))
  }

  predicate StoredSame(e: Message, f: Message) {
    (e.thread.Thread? ==> f.thread.Thread?) &&
    (f.thread.Thread? && f.thread.pc.Stored? ==> e.thread == f.thread) &&
    (e.thread.Thread? && e.thread.pc.Stored? ==> f.thread == e.thread && (f.row.Live? <==> e.row.Live?))
  }

  lemma OneMessageKeeps(s: State, t: State, m: Id)
    requires Inv(s) && OneMessage(s, t, m) && StoredSame(s.messages[m], t.messages[m])
    requires ThreadOk(t.node, t.submitter, t.nonceLock, m, t.messages[m].thread) && RowOk(t.messages[m])
    ensures Inv(t)
  {
    OneThread(s, t, m);
    OneAudits(s, t, m);
    OneRow(s, t, m);
    GrowKeepsStored(s, t);
  }

  lemma OneRow(s: State, t: State, m: Id)
    requires RowsOk(s) && m < |s.messages| == |t.messages| && t.messages == s.messages[m := t.messages[m]]
    requires RowOk(t.messages[m])
    ensures RowsOk(t)
  {
    forall j | 0 <= j < |t.messages| ensures RowOk(t.messages[j]) {
      assert RowOk(s.messages[j]);
    }
  }

  lemma OneThread(s: State, t: State, m: Id)
    requires ThreadsOk(s) && OneMessage(s, t, m) && StoredSame(s.messages[m], t.messages[m])
    requires ThreadOk(t.node, t.submitter, t.nonceLock, m, t.messages[m].thread)
    ensures ThreadsOk(t)
  {
    forall j | 0 <= j < |t.messages| ensures ThreadOk(t.node, t.submitter, t.nonceLock, j, t.messages[j].thread) {
      assert ThreadOk(s.node, s.submitter, s.nonceLock, j, s.messages[j].thread);
    }
    forall i | 0 <= i < |t.submitter| ensures AtPc(t, t.submitter[i]) {
      assert AtPc(s, s.submitter[i]);
    }
  }

  lemma OneAudits(s: State, t: State, m: Id)
    requires AuditsOk(s) && OneMessage(s, t, m) && StoredSame(s.messages[m], t.messages[m])
    ensures AuditsOk(t)
  {
    forall k | 0 <= k < |t.audit| ensures AuditOk(t, t.audit[k]) {
      assert AuditOk(s, s.audit[k]);
    }
  }

  lemma SendRecordKeeps(s: State, m: Id, contentHash: string, reading: real)
    requires Inv(s) && SendRecordStep(s, m, contentHash, reading).Some?
    ensures Inv(SendRecordStep(s, m, contentHash, reading).value)
  {
    var t := SendRecordStep(s, m, contentHash, reading).value;
    assert ThreadOk(s.node, s.submitter, s.nonceLock, m, s.messages[m].thread) && RowOk(s.messages[m]);
    Hex.NormaliseFaithful(contentHash);
    OneMessageKeeps(s, t, m);
  }

  lemma SendCommitKeeps(s: State, m: Id)
    requires Inv(s) && Step(s, SendCommit(m)).Some?
    ensures Inv(Step(s, SendCommit(m)).value)
  {
    var t := Step(s, SendCommit(m)).value;
    assert ThreadOk(s.node, s.submitter, s.nonceLock, m, s.messages[m].thread) && RowOk(s.messages[m]);
    OneMessageKeeps(s, t, m);
  }

  lemma SendAbortKeeps(s: State, m: Id)
    requires Inv(s) && Step(s, SendAbort(m)).Some?
    ensures Inv(Step(s, SendAbort(m)).value)
  {
    var t := Step(s, SendAbort(m)).value;
    assert ThreadOk(s.node, s.submitter, s.nonceLock, m, s.messages[m].thread) && RowOk(s.messages[m]);
    OneMessageKeeps(s, t, m);
  }

  lemma DeleteStatementKeeps(s: State, m: Id)
    requires Inv(s) && Step(s, DeleteStatement(m)).Some?
    ensures Inv(Step(s, DeleteStatement(m)).value)
  {
    var t := Step(s, DeleteStatement(m)).value;
    assert ThreadOk(s.node, s.submitter, s.nonceLock, m, s.messages[m].thread) && RowOk(s.messages[m]);
    OneMessageKeeps(s, t, m);
  }

  lemma DeleteAbortKeeps(s: State, m: Id)
    requires Inv(s) && Step(s, DeleteAbort(m)).Some?
    ensures Inv(Step(s, DeleteAbort(m)).value)
  {
    var t := Step(s, DeleteAbort(m)).value;
    assert ThreadOk(s.node, s.submitter, s.nonceLock, m, s.messages[m].thread) && RowOk(s.messages[m]);
    OneMessageKeeps(s, t, m);
  }

  lemma AcquireKeeps(s: State, m: Id)
    requires Inv(s) && Step(s, Acquire(m)).Some?
    ensures Inv(Step(s, Acquire(m)).value)
  {
    var t := Step(s, Acquire(m)).value;
    assert ThreadOk(s.node, s.submitter, s.nonceLock, m, s.messages[m].thread) && RowOk(s.messages[m]);
    OneMessageKeeps(s, t, m);
  }

  lemma ReadNonceKeeps(s: State, m: Id)
    requires Inv(s) && Step(s, ReadNonce(m)).Some?
    ensures Inv(Step(s, ReadNonce(m)).value)
  {
    var t := Step(s, ReadNonce(m)).value;
    assert ThreadOk(s.node, s.submitter, s.nonceLock, m, s.messages[m].thread) && RowOk(s.messages[m]);
    OneMessageKeeps(s, t, m);
  }

  lemma ReleaseKeeps(s: State, m: Id)
    requires Inv(s) && Step(s, Release(m)).Some?
    ensures Inv(Step(s, Release(m)).value)
  {
    var t := Step(s, Release(m)).value;
    assert ThreadOk(s.node, s.submitter, s.nonceLock, m, s.messages[m].thread) && RowOk(s.messages[m]);
    OneMessageKeeps(s, t, m);
  }

  lemma SeeReceiptKeeps(s: State, m: Id)
    requires Inv(s) && Step(s, SeeReceipt(m)).Some?
    ensures Inv(Step(s, SeeReceipt(m)).value)
  {
    var t := Step(s, SeeReceipt(m)).value;
    assert ThreadOk(s.node, s.submitter, s.nonceLock, m, s.messages[m].thread) && RowOk(s.messages[m]);
    OneMessageKeeps(s, t, m);
  }

  lemma UpdateKeeps(s: State, m: Id)
    requires Inv(s) && UpdateStep(s, m).Some?
    ensures Inv(UpdateStep(s, m).value)
  {
    var t := UpdateStep(s, m).value;
    assert ThreadOk(s.node, s.submitter, s.nonceLock, m, s.messages[m].thread) && RowOk(s.messages[m]);
    OneMessageKeeps(s, t, m);
  }

  lemma InsertKeeps(s: State, m: Id)
    requires Inv(s) && InsertStep(s, m).Some?
    ensures Inv(InsertStep(s, m).value)
  {
    var t := InsertStep(s, m).value;
    assert ThreadOk(s.node, s.submitter, s.nonceLock, m, s.messages[m].thread) && RowOk(s.messages[m]);
    OneMessageKeeps(s, t, m);
  }

  lemma FailKeeps(s: State, m: Id)
    requires Inv(s) && FailStep(s, m).Some?
    ensures Inv(FailStep(s, m).value)
  {
    var t := FailStep(s, m).value;
    assert ThreadOk(s.node, s.submitter, s.nonceLock, m, s.messages[m].thread) && RowOk(s.messages[m]);
    OneMessageKeeps(s, t, m);
  }

  // ---------------------------------------------------------------- the other steps

  lemma SendInsertKeeps(s: State, sender: User)
    requires Inv(s)
    ensures Inv(Step(s, SendInsert(sender)).value)
  {
    var t := Step(s, SendInsert(sender)).value;
    SendInsertThreads(s, sender);
    SendInsertAudits(s, sender);
    forall j | 0 <= j < |t.messages|
      ensures RowOk(t.messages[j])
      ensures t.messages[j].thread.Thread? && t.messages[j].thread.pc.Stored? ==> RowFor(j, t.messages[j]) in t.audit
    {
      assert j < |s.messages| ==> RowOk(s.messages[j]);
    }
  }

  lemma SendInsertAudits(s: State, sender: User)
    requires AuditsOk(s)
    ensures AuditsOk(Step(s, SendInsert(sender)).value)
  {
    var t := Step(s, SendInsert(sender)).value;
    forall k | 0 <= k < |t.audit| ensures AuditOk(t, t.audit[k]) {
      assert AuditOk(s, s.audit[k]);
    }
  }

  lemma SendInsertThreads(s: State, sender: User)
    requires ThreadsOk(s)
    ensures ThreadsOk(Step(s, SendInsert(sender)).value)
  {
    var t := Step(s, SendInsert(sender)).value;
    forall j | 0 <= j < |t.messages| ensures ThreadOk(t.node, t.submitter, t.nonceLock, j, t.messages[j].thread) {
      assert j < |s.messages| ==> ThreadOk(s.node, s.submitter, s.nonceLock, j, s.messages[j].thread);
    }
    forall i | 0 <= i < |t.submitter| ensures AtPc(t, t.submitter[i]) {
      assert AtPc(s, s.submitter[i]);
    }
  }

  /** The node forgets nothing: n' may have accepted and mined more than n. */
  predicate NodeGrows(n: Node, n': Node) {
    n'.base == n.base && n.accepted <= n'.accepted && n.outcomes <= n'.outcomes && n.records <= n'.records
  }

  lemma GrowKeepsAudits(s: State, t: State)
    requires AuditsOk(s) && NodeGrows(s.node, t.node) && s.submitter <= t.submitter
    requires t.audit == s.audit && |t.messages| == |s.messages|
    requires forall j :: 0 <= j < |s.messages| ==> StoredSame(s.messages[j], t.messages[j])
    ensures AuditsOk(t)
  {
    forall k | 0 <= k < |t.audit| ensures AuditOk(t, t.audit[k]) {
      assert AuditOk(s, s.audit[k]);
    }
  }

  lemma GrowKeepsStored(s: State, t: State)
    requires StoredHaveRows(s) && t.audit == s.audit && |t.messages| == |s.messages|
    requires forall j :: 0 <= j < |s.messages| ==> StoredSame(s.messages[j], t.messages[j])
    ensures StoredHaveRows(t)
  {
    forall j | 0 <= j < |t.messages| && t.messages[j].thread.Thread? && t.messages[j].thread.pc.Stored?
      ensures RowFor(j, t.messages[j]) in t.audit
    {
      assert RowFor(j, s.messages[j]) in s.audit;
    }
  }

  lemma MineKeeps(s: State, success: bool, time: nat)
    requires Inv(s) && Step(s, Mine(success, time)).Some?
    ensures Inv(Step(s, Mine(success, time)).value)
  {
    MineKeepsNode(s, success, time);
    MineKeepsThreads(s, success, time);
    GrowKeepsAudits(s, MineStep(s, success, time).value);
  }

  lemma MineKeepsNode(s: State, success: bool, time: nat)
    requires NodeOk(s.node) && MineStep(s, success, time).Some?
    ensures NodeOk(MineStep(s, success, time).value.node) && NodeGrows(s.node, MineStep(s, success, time).value.node)
  {
  }

  lemma MineKeepsThreads(s: State, success: bool, time: nat)
    requires ThreadsOk(s) && MineStep(s, success, time).Some?
    ensures ThreadsOk(MineStep(s, success, time).value)
  {
    var t := MineStep(s, success, time).value;
    forall j | 0 <= j < |t.messages| ensures ThreadOk(t.node, t.submitter, t.nonceLock, j, t.messages[j].thread) {
      MinedThread(s.node, t.node, s.submitter, s.nonceLock, j, s.messages[j].thread);
    }
  }

  lemma MinedThread(n: Node, n': Node, submitter: seq<Id>, nonceLock: Option<Id>, m: Id, t: Thread)
    requires ThreadOk(n, submitter, nonceLock, m, t) && NodeGrows(n, n') && n'.accepted == n.accepted
    ensures ThreadOk(n', submitter, nonceLock, m, t)
  {
  }

  /** What another thread sees of a transaction the lock holder m has had accepted. */
  lemma SentThread(n: Node, n': Node, submitter: seq<Id>, m: Id, nonceLock: Option<Id>, j: Id, t: Thread)
    requires ThreadOk(n, submitter, Some(m), j, t) && j != m && |submitter| == |n.accepted|
    requires n'.base == n.base && n'.outcomes == n.outcomes && |n'.accepted| == |n.accepted| + 1
    requires n.accepted <= n'.accepted && (nonceLock == None || nonceLock == Some(m))
    ensures ThreadOk(n', submitter + [m], nonceLock, j, t)
  {
  }

  lemma SubmitKeeps(s: State, m: Id)
    requires Inv(s) && Step(s, Submit(m)).Some?
    ensures Inv(Step(s, Submit(m)).value)
  {
    var t := Step(s, Submit(m)).value;
    assert ThreadOk(s.node, s.submitter, s.nonceLock, m, s.messages[m].thread);
    assert RowOk(s.messages[m]);
    AfterSend(s, t, m);
  }

  lemma SubmitLostKeeps(s: State, m: Id)
    requires Inv(s) && Step(s, SubmitLost(m)).Some?
    ensures Inv(Step(s, SubmitLost(m)).value)
  {
    var t := Step(s, SubmitLost(m)).value;
    assert ThreadOk(s.node, s.submitter, s.nonceLock, m, s.messages[m].thread);
    assert RowOk(s.messages[m]);
    AfterSend(s, t, m);
  }

  lemma AfterSend(s: State, t: State, m: Id)
    requires Inv(s) && AtPc(s, m) && PcOf(s, m).HasNonce? && s.nonceLock == Some(m)
    requires Hex.RawDigest(s.messages[m].thread.contentHash).Some? && PcOf(s, m).nonce == PendingNonce(s.node)
    requires m !in s.submitter && |t.messages| == |s.messages|
    requires
      var u := Send(s, m, PcOf(s, m).nonce);
      t.node == u.node && t.submitter == u.submitter && t.audit == s.audit &&
      t.messages == s.messages[m := t.messages[m]] && (t.nonceLock == None || t.nonceLock == Some(m))
    requires AtPc(t, m) && !PcOf(t, m).Stored?
    requires ThreadOk(t.node, t.submitter, t.nonceLock, m, t.messages[m].thread) && RowOk(t.messages[m])
    ensures Inv(t)
  {
    AfterSendThreads(s, t, m);
    OneRow(s, t, m);
    SendKeepsNode(s, m);
    OthersStored(s, t, m);
    GrowKeepsAudits(s, t);
    GrowKeepsStored(s, t);
  }

  lemma SendKeepsNode(s: State, m: Id)
    requires NodeOk(s.node) && AtPc(s, m) && PcOf(s, m).HasNonce? && PcOf(s, m).nonce == PendingNonce(s.node)
    requires Hex.RawDigest(s.messages[m].thread.contentHash).Some?
    ensures
      var u := Send(s, m, PcOf(s, m).nonce);
      NodeOk(u.node) && NodeGrows(s.node, u.node) && s.submitter <= u.submitter
  {
  }

  lemma OthersStored(s: State, t: State, m: Id)
    requires AtPc(s, m) && PcOf(s, m).HasNonce? && AtPc(t, m) && !PcOf(t, m).Stored?
    requires |t.messages| == |s.messages| && t.messages == s.messages[m := t.messages[m]]
    ensures forall j :: 0 <= j < |s.messages| ==> StoredSame(s.messages[j], t.messages[j])
  {
  }

  lemma AfterSendThreads(s: State, t: State, m: Id)
    requires ThreadsOk(s) && AtPc(s, m) && PcOf(s, m).HasNonce? && s.nonceLock == Some(m)
    requires Hex.RawDigest(s.messages[m].thread.contentHash).Some? && PcOf(s, m).nonce == PendingNonce(s.node)
    requires m !in s.submitter && |t.messages| == |s.messages|
    requires
      var u := Send(s, m, PcOf(s, m).nonce);
      t.node == u.node && t.submitter == u.submitter &&
      t.messages == s.messages[m := t.messages[m]] && (t.nonceLock == None || t.nonceLock == Some(m))
    requires AtPc(t, m) && !PcOf(t, m).Stored?
    requires ThreadOk(t.node, t.submitter, t.nonceLock, m, t.messages[m].thread)
    ensures ThreadsOk(t)
  {
    forall j | 0 <= j < |t.messages| ensures ThreadOk(t.node, t.submitter, t.nonceLock, j, t.messages[j].thread) {
      if j != m {
        SentThread(s.node, t.node, s.submitter, m, t.nonceLock, j, s.messages[j].thread);
      }
    }
    forall i | 0 <= i < |t.submitter| ensures AtPc(t, t.submitter[i]) {
      assert i < |s.submitter| ==> AtPc(s, s.submitter[i]);
    }
  }

  lemma DeleteCommitKeeps(s: State, m: Id)
    requires Inv(s) && DeleteCommitStep(s, m).Some?
    ensures Inv(DeleteCommitStep(s, m).value)
  {
    var t := DeleteCommitStep(s, m).value;
    DeleteKeepsThreads(s, m);
    DeleteKeepsRow(s.messages[m]);
    OneRow(s, t, m);
    DeleteKeepsAudits(s, m);
    DeleteKeepsStored(s, m);
  }

  lemma DeleteKeepsRow(e: Message)
    requires RowOk(e) && e.row.Live? && e.row.lock == Deleter
    ensures RowOk(e.(row := Gone))
  {
  }

  lemma DeleteKeepsThreads(s: State, m: Id)
    requires ThreadsOk(s) && DeleteCommitStep(s, m).Some?
    ensures ThreadsOk(DeleteCommitStep(s, m).value)
  {
    var t := DeleteCommitStep(s, m).value;
    forall j | 0 <= j < |t.messages| ensures ThreadOk(t.node, t.submitter, t.nonceLock, j, t.messages[j].thread) {
      assert ThreadOk(s.node, s.submitter, s.nonceLock, j, s.messages[j].thread);
    }
    forall i | 0 <= i < |t.submitter| ensures AtPc(t, t.submitter[i]) {
      assert AtPc(s, s.submitter[i]);
    }
  }

  lemma DeleteKeepsAudits(s: State, m: Id)
    requires AuditsOk(s) && DeleteCommitStep(s, m).Some?
    ensures AuditsOk(DeleteCommitStep(s, m).value)
  {
    var t := DeleteCommitStep(s, m).value;
    forall k | 0 <= k < |t.audit| ensures AuditOk(t, t.audit[k]) && t.audit[k].tx == s.audit[k].tx {
      DeleteKeepsAudit(s, m, s.audit[k]);
    }
  }

  lemma DeleteKeepsAudit(s: State, m: Id, a: Audit)
    requires AuditOk(s, a) && DeleteCommitStep(s, m).Some?
    ensures AuditOk(DeleteCommitStep(s, m).value, if a.message == Some(m) then a.(message := None) else a)
  {
  }

  lemma DeleteKeepsStored(s: State, m: Id)
    requires StoredHaveRows(s) && DeleteCommitStep(s, m).Some?
    ensures StoredHaveRows(DeleteCommitStep(s, m).value)
  {
    var t := DeleteCommitStep(s, m).value;
    forall j | 0 <= j < |t.messages| && t.messages[j].thread.Thread? && t.messages[j].thread.pc.Stored?
      ensures RowFor(j, t.messages[j]) in t.audit
    {
      assert RowFor(j, s.messages[j]) in s.audit;
      var k :| 0 <= k < |s.audit| && s.audit[k] == RowFor(j, s.messages[j]);
      assert t.audit[k] == RowFor(j, t.messages[j]);
    }
  }

  lemma CommitStoreKeeps(s: State, m: Id)
    requires Inv(s) && CommitStoreStep(s, m).Some?
    ensures Inv(CommitStoreStep(s, m).value)
  {
    var t := CommitStoreStep(s, m).value;
    assert ThreadOk(s.node, s.submitter, s.nonceLock, m, s.messages[m].thread);
    CommitKeepsThreads(s, m);
    OneRow(s, t, m);
    CommitKeepsAudits(s, m);
    CommitKeepsStored(s, m);
  }

  lemma CommitKeepsThreads(s: State, m: Id)
    requires ThreadsOk(s) && CommitStoreStep(s, m).Some?
    ensures ThreadsOk(CommitStoreStep(s, m).value)
  {
    var t := CommitStoreStep(s, m).value;
    forall j | 0 <= j < |t.messages| ensures ThreadOk(t.node, t.submitter, t.nonceLock, j, t.messages[j].thread) {
      assert ThreadOk(s.node, s.submitter, s.nonceLock, j, s.messages[j].thread);
    }
    forall i | 0 <= i < |t.submitter| ensures AtPc(t, t.submitter[i]) {
      assert AtPc(s, s.submitter[i]);
    }
  }

  lemma CommitKeepsStored(s: State, m: Id)
    requires StoredHaveRows(s) && CommitStoreStep(s, m).Some?
    ensures StoredHaveRows(CommitStoreStep(s, m).value)
  {
    var t := CommitStoreStep(s, m).value;
    forall j | 0 <= j < |t.messages| && t.messages[j].thread.Thread? && t.messages[j].thread.pc.Stored?
      ensures RowFor(j, t.messages[j]) in t.audit
    {
      if j == m {
        assert t.audit[|s.audit|] == RowFor(j, t.messages[j]);
      } else {
        assert RowFor(j, s.messages[j]) in s.audit;
      }
    }
  }

  lemma CommitKeepsAudits(s: State, m: Id)
    requires AuditsOk(s) && CommitStoreStep(s, m).Some?
    requires ThreadOk(s.node, s.submitter, s.nonceLock, m, s.messages[m].thread)
    ensures AuditsOk(CommitStoreStep(s, m).value)
  {
    var t := CommitStoreStep(s, m).value;
    forall k | 0 <= k < |s.audit| ensures AuditOk(t, s.audit[k]) && s.audit[k].tx != PcOf(s, m).tx {
      CommitKeepsAudit(s, m, s.audit[k]);
    }
    CommitAddsAudit(s, m);
  }

  lemma CommitKeepsAudit(s: State, m: Id, a: Audit)
    requires CommitStoreStep(s, m).Some? && AuditOk(s, a)
    requires ThreadOk(s.node, s.submitter, s.nonceLock, m, s.messages[m].thread)
    ensures AuditOk(CommitStoreStep(s, m).value, a) && a.tx != PcOf(s, m).tx
  {
    var writer := s.submitter[a.tx.nonce - s.node.base];
    assert writer != m && a.tx != PcOf(s, m).tx;
    SameWriter(s, CommitStoreStep(s, m).value, a);
  }

  lemma SameWriter(s: State, t: State, a: Audit)
    requires AuditOk(s, a) && t.node == s.node && t.submitter == s.submitter && |t.messages| >= |s.messages|
    requires t.messages[s.submitter[a.tx.nonce - s.node.base]] == s.messages[s.submitter[a.tx.nonce - s.node.base]]
    ensures AuditOk(t, a)
  {
  }

  lemma CommitAddsAudit(s: State, m: Id)
    requires CommitStoreStep(s, m).Some?
    requires ThreadOk(s.node, s.submitter, s.nonceLock, m, s.messages[m].thread)
    ensures
      var t := CommitStoreStep(s, m).value;
      |t.audit| == |s.audit| + 1 && AuditOk(t, t.audit[|s.audit|])
  {
  }

  lemma StepKeeps(s: State, e: Event)
    requires Inv(s) && Step(s, e).Some?
    ensures Inv(Step(s, e).value)
  {
    match e
    case SendInsert(sender) => SendInsertKeeps(s, sender);
    case SendRecord(m, contentHash, reading) => SendRecordKeeps(s, m, contentHash, reading);
    case SendCommit(m) => SendCommitKeeps(s, m);
    case SendAbort(m) => SendAbortKeeps(s, m);
    case DeleteStatement(m) => DeleteStatementKeeps(s, m);
    case DeleteCommit(m) => DeleteCommitKeeps(s, m);
    case DeleteAbort(m) => DeleteAbortKeeps(s, m);
    case Acquire(m) => AcquireKeeps(s, m);
    case ReadNonce(m) => ReadNonceKeeps(s, m);
    case Submit(m) => SubmitKeeps(s, m);
    case SubmitLost(m) => SubmitLostKeeps(s, m);
    case Release(m) => ReleaseKeeps(s, m);
    case SeeReceipt(m) => SeeReceiptKeeps(s, m);
    case Update(m) => UpdateKeeps(s, m);
    case Insert(m) => InsertKeeps(s, m);
    case CommitStore(m) => CommitStoreKeeps(s, m);
    case Fail(m) => FailKeeps(s, m);
    case Mine(success, time) => MineKeeps(s, success, time);
  }

  lemma {:induction false} RunKeeps(s: State, es: seq<Event>)
    requires Inv(s) && Run(s, es).Some?
    ensures Inv(Run(s, es).value)
    decreases |es|
  {
    if es == [] {
    } else {
      StepKeeps(s, es[0]);
      RunKeeps(Step(s, es[0]).value, es[1..]);
    }
  }

  // ---------------------------------------------------------------- every reachable state

  ghost predicate Reachable(base: nat, s: State) {
    exists es :: Run(Initial(base), es) == Some(s)
  }

  lemma ReachableOk(base: nat, s: State)
    requires Reachable(base, s)
    ensures Inv(s)
  {
    var es :| Run(Initial(base), es) == Some(s);
    RunKeeps(Initial(base), es);
  }

  lemma {:induction false} RunBase(s: State, es: seq<Event>)
    requires Run(s, es).Some?
    ensures NodeGrows(s.node, Run(s, es).value.node)
    decreases |es|
  {
    if es == [] {
    } else {
      StepBase(s, es[0]);
      RunBase(Step(s, es[0]).value, es[1..]);
    }
  }

  lemma StepBase(s: State, e: Event)
    requires Step(s, e).Some?
    ensures NodeGrows(s.node, Step(s, e).value.node)
  {
  }

  lemma {:induction false} RunAppend(s: State, es: seq<Event>, fs: seq<Event>)
    requires Run(s, es).Some?
    ensures Run(s, es + fs) == Run(Run(s, es).value, fs)
    decreases |es|
  {
    if es == [] {
      assert es + fs == fs;
    } else {
      assert (es + fs)[1..] == es[1..] + fs;
      RunAppend(Step(s, es[0]).value, es[1..], fs);
    }
  }

  /** At most one thread is between taking and releasing the nonce lock. */
  lemma MutualExclusion(base: nat, s: State, l: Id, m: Id)
    requires Reachable(base, s) && AtPc(s, l) && AtPc(s, m)
    requires InCritical(PcOf(s, l)) && InCritical(PcOf(s, m))
    ensures l == m
  {
    ReachableOk(base, s);
    assert ThreadOk(s.node, s.submitter, s.nonceLock, l, s.messages[l].thread);
    assert ThreadOk(s.node, s.submitter, s.nonceLock, m, s.messages[m].thread);
  }

  /**
   * In every interleaving, whatever exceptions threads meet, the nonces of accepted transactions
   * are consecutive from the account's first one, hence pairwise distinct.
   */
  lemma NoncesConsecutive(base: nat, s: State, i: nat)
    requires Reachable(base, s) && i < |s.node.accepted|
    ensures s.node.accepted[i].nonce == base + i
    ensures forall j :: 0 <= j < |s.node.accepted| && j != i ==> s.node.accepted[j].nonce != s.node.accepted[i].nonce
  {
    ReachableOk(base, s);
    var es :| Run(Initial(base), es) == Some(s);
    RunBase(Initial(base), es);
  }

  /** The same steps, but taking the lock does not wait for its holder. */
  function StepUnguarded(s: State, e: Event): Option<State> {
    if e.Acquire? && AtPc(s, e.m) && PcOf(s, e.m) == Started
    then Some(SetPc(s, e.m, HoldsLock).(nonceLock := Some(e.m))) else Step(s, e)
  }

  function RunUnguarded(s: State, es: seq<Event>): Option<State>
    decreases |es|
  {
    if es == [] then Some(s)
    else
      var t := StepUnguarded(s, es[0]);
      if t.None? then None else RunUnguarded(t.value, es[1..])
  }

  lemma RunUnguardedCons(s: State, e: Event, es: seq<Event>)
    requires StepUnguarded(s, e).Some?
    ensures RunUnguarded(s, [e] + es) == RunUnguarded(StepUnguarded(s, e).value, es)
  {
    assert ([e] + es)[1..] == es;
  }

  function BothEnter(a: Id, b: Id): seq<Event> {
    [Acquire(a)] + ([Acquire(b)] + ([ReadNonce(a)] + ([ReadNonce(b)] + ([Submit(a)] + ([Submit(b)] + [])))))
  }

  predicate ReadyToSubmit(s: State, m: Id, nonce: nat) {
    AtPc(s, m) && PcOf(s, m) == HasNonce(nonce) && Hex.RawDigest(s.messages[m].thread.contentHash).Some?
  }

  predicate ReadyToStart(s: State, m: Id) {
    AtPc(s, m) && PcOf(s, m) == Started && Hex.RawDigest(s.messages[m].thread.contentHash).Some?
  }

  /**
   * Any two waiting recorder threads: the lock rules this run out, and with no lock to wait for it
   * happens and the two accepted transactions carry the same nonce.
   */
  lemma LockIsNeeded(base: nat, s: State, a: Id, b: Id)
    requires Reachable(base, s) && AtPc(s, a) && AtPc(s, b) && a != b && s.nonceLock == None
    requires PcOf(s, a) == Started && PcOf(s, b) == Started
    ensures Run(s, BothEnter(a, b)) == None
    ensures RunUnguarded(s, BothEnter(a, b)).Some?
    ensures
      var n, t := |s.node.accepted|, RunUnguarded(s, BothEnter(a, b)).value;
      |t.node.accepted| == n + 2 && t.node.accepted[n].nonce == t.node.accepted[n + 1].nonce
  {
    ReachableOk(base, s);
    StartedReady(s, a);
    StartedReady(s, b);
    var t := BothRead(s, a, b);
    BothSubmit(t, a, b, PendingNonce(s.node));
    GuardHolds(s, a, b, [ReadNonce(a)] + ([ReadNonce(b)] + ([Submit(a)] + ([Submit(b)] + []))));
  }

  lemma GuardHolds(s: State, a: Id, b: Id, rest: seq<Event>)
    requires AtPc(s, a) && PcOf(s, a) == Started && s.nonceLock == None
    ensures Run(s, [Acquire(a)] + ([Acquire(b)] + rest)) == None
  {
    RunCons(s, Acquire(a), [Acquire(b)] + rest);
    assert ([Acquire(b)] + rest)[0] == Acquire(b);
  }

  lemma StartedReady(s: State, m: Id)
    requires ThreadsOk(s) && AtPc(s, m) && PcOf(s, m) == Started
    ensures ReadyToStart(s, m)
  {
    assert ThreadOk(s.node, s.submitter, s.nonceLock, m, s.messages[m].thread);
    Hex.NormaliseFaithful(s.messages[m].thread.contentHash);
  }

  lemma BothRead(s: State, a: Id, b: Id) returns (t: State)
    requires a != b && ReadyToStart(s, a) && ReadyToStart(s, b)
    ensures RunUnguarded(s, BothEnter(a, b)) == RunUnguarded(t, [Submit(a)] + ([Submit(b)] + []))
    ensures ReadyToSubmit(t, a, PendingNonce(s.node)) && ReadyToSubmit(t, b, PendingNonce(s.node)) && t.node == s.node
  {
    var submits := [Submit(a)] + ([Submit(b)] + []);
    var s1 := BothAcquire(s, a, b);
    RunUnguardedCons(s1, ReadNonce(a), [ReadNonce(b)] + submits);
    var s2 := StepUnguarded(s1, ReadNonce(a)).value;
    RunUnguardedCons(s2, ReadNonce(b), submits);
    t := StepUnguarded(s2, ReadNonce(b)).value;
  }

  lemma BothAcquire(s: State, a: Id, b: Id) returns (t: State)
    requires a != b && ReadyToStart(s, a) && ReadyToStart(s, b)
    ensures
      RunUnguarded(s, BothEnter(a, b)) ==
      RunUnguarded(t, [ReadNonce(a)] + ([ReadNonce(b)] + ([Submit(a)] + ([Submit(b)] + []))))
    ensures AtPc(t, a) && PcOf(t, a) == HoldsLock && AtPc(t, b) && PcOf(t, b) == HoldsLock && t.node == s.node
    ensures t.messages[a].thread.contentHash == s.messages[a].thread.contentHash
    ensures t.messages[b].thread.contentHash == s.messages[b].thread.contentHash
  {
    var rest := [ReadNonce(a)] + ([ReadNonce(b)] + ([Submit(a)] + ([Submit(b)] + [])));
    RunUnguardedCons(s, Acquire(a), [Acquire(b)] + rest);
    var s1 := StepUnguarded(s, Acquire(a)).value;
    RunUnguardedCons(s1, Acquire(b), rest);
    t := StepUnguarded(s1, Acquire(b)).value;
  }

  lemma BothSubmit(s: State, a: Id, b: Id, nonce: nat)
    requires a != b && ReadyToSubmit(s, a, nonce) && ReadyToSubmit(s, b, nonce)
    ensures
      var n, t := |s.node.accepted|, RunUnguarded(s, [Submit(a)] + ([Submit(b)] + []));
      t.Some? && |t.value.node.accepted| == n + 2 &&
      t.value.node.accepted[n].nonce == t.value.node.accepted[n + 1].nonce == nonce
  {
    RunUnguardedCons(s, Submit(a), [Submit(b)] + []);
    var s1 := StepUnguarded(s, Submit(a)).value;
    SubmitSends(s, a, b, nonce);
    RunUnguardedCons(s1, Submit(b), []);
    SubmitSends(s1, b, a, nonce);
  }

  lemma SubmitSends(s: State, m: Id, other: Id, nonce: nat)
    requires m != other && ReadyToSubmit(s, m, nonce)
    ensures
      var t := Step(s, Submit(m));
      t.Some? && |t.value.node.accepted| == |s.node.accepted| + 1 && s.node.accepted <= t.value.node.accepted &&
      t.value.node.accepted[|s.node.accepted|].nonce == nonce &&
      (ReadyToSubmit(s, other, nonce) ==> ReadyToSubmit(t.value, other, nonce))
  {
  }

  /** Every audit row names a successful on-chain record of its own digest; no two rows name the same one. */
  lemma AuditMatchesChain(base: nat, s: State, k: nat)
    requires Reachable(base, s) && k < |s.audit|
    ensures Succeeded(s.node, s.audit[k].tx)
    ensures
      var j := s.node.outcomes[s.audit[k].tx.nonce - s.node.base].index;
      j < |s.node.records| && Some(s.node.records[j].hash) == Hex.RawDigest(s.audit[k].digest)
    ensures forall l :: 0 <= l < |s.audit| && l != k ==> s.audit[l].tx != s.audit[k].tx
  {
    ReachableOk(base, s);
    assert AuditOk(s, s.audit[k]);
  }

  // ---------------------------------------------------------------- the pair of tables

  function CountFor(audit: seq<Audit>, m: Id): nat {
    if audit == [] then 0
    else CountFor(audit[..|audit| - 1], m) + (if audit[|audit| - 1].message == Some(m) then 1 else 0)
  }

  /** The message has a transaction hash exactly when one audit row points at it, with that hash. */
  predicate Paired(s: State, m: Id)
    requires m < |s.messages| && s.messages[m].row.Live?
  {
    var h := s.messages[m].row.txHash;
    if h.None? then CountFor(s.audit, m) == 0
    else
      CountFor(s.audit, m) == 1 &&
      exists k :: 0 <= k < |s.audit| && s.audit[k].message == Some(m) && s.audit[k].tx == h.value
  }

  predicate PairedIfLive(s: State, m: Id) {
    m < |s.messages| && s.messages[m].row.Live? ==> Paired(s, m)
  }

  lemma {:induction false} CountZero(audit: seq<Audit>, m: Id)
    ensures CountFor(audit, m) == 0 <==> forall k :: 0 <= k < |audit| ==> audit[k].message != Some(m)
  {
    if audit == [] {
    } else {
      CountZero(audit[..|audit| - 1], m);
      if CountFor(audit, m) == 0 {
        forall k | 0 <= k < |audit| ensures audit[k].message != Some(m) {
          assert k < |audit| - 1 ==> audit[..|audit| - 1][k] == audit[k];
        }
      }
    }
  }

  lemma {:induction false} CountOne(audit: seq<Audit>, m: Id, k: nat)
    requires k < |audit| && audit[k].message == Some(m)
    requires forall l :: 0 <= l < |audit| && l != k ==> audit[l].message != Some(m)
    ensures CountFor(audit, m) == 1
  {
    var older := audit[..|audit| - 1];
    if k == |audit| - 1 {
      CountZero(older, m);
    } else {
      CountOne(older, m, k);
    }
  }

  /** A row points only at a live message whose thread stored its transaction. */
  lemma PointsAt(s: State, m: Id)
    requires AuditsOk(s) && m < |s.messages|
    ensures forall l :: 0 <= l < |s.audit| && s.audit[l].message == Some(m) ==>
      s.messages[m].row.Live? && AtPc(s, m) && PcOf(s, m).Stored? && PcOf(s, m).tx == s.audit[l].tx
  {
    forall l | 0 <= l < |s.audit| && s.audit[l].message == Some(m)
      ensures s.messages[m].row.Live? && AtPc(s, m) && PcOf(s, m).Stored? && PcOf(s, m).tx == s.audit[l].tx
    {
      assert AuditOk(s, s.audit[l]);
    }
  }

  /** The rows pointing at a message: one if its thread stored and it is live, otherwise none. */
  lemma RowsPointing(s: State, m: Id)
    requires Inv(s) && m < |s.messages|
    ensures CountFor(s.audit, m) == if s.messages[m].row.Live? && AtPc(s, m) && PcOf(s, m).Stored? then 1 else 0
    ensures CountFor(s.audit, m) == 1 ==>
      exists k :: 0 <= k < |s.audit| && s.audit[k].message == Some(m) && s.audit[k].tx == PcOf(s, m).tx
  {
    PointsAt(s, m);
    if s.messages[m].row.Live? && AtPc(s, m) && PcOf(s, m).Stored? {
      OneRowFor(s, m);
    } else {
      CountZero(s.audit, m);
    }
  }

  lemma OneRowFor(s: State, m: Id)
    requires AuditsOk(s) && StoredHaveRows(s) && AtPc(s, m) && s.messages[m].row.Live? && PcOf(s, m).Stored?
    ensures CountFor(s.audit, m) == 1
    ensures exists k :: 0 <= k < |s.audit| && s.audit[k].message == Some(m) && s.audit[k].tx == PcOf(s, m).tx
  {
    PointsAt(s, m);
    assert RowFor(m, s.messages[m]) in s.audit;
    var k :| 0 <= k < |s.audit| && s.audit[k] == RowFor(m, s.messages[m]);
    CountOne(s.audit, m, k);
  }

  /** In every reachable state a live message is paired unless its thread stored after an unmatched UPDATE. */
  lemma PairedUnlessUnmatched(base: nat, s: State, m: Id)
    requires Reachable(base, s) && m < |s.messages| && s.messages[m].row.Live?
    ensures Paired(s, m) <==> !(AtPc(s, m) && PcOf(s, m).Stored? && !PcOf(s, m).matched)
  {
    ReachableOk(base, s);
    RowsPointing(s, m);
    assert RowOk(s.messages[m]);
  }

  /** A deleted or never committed message has no audit row pointing at it. */
  lemma DeadHaveNoRows(base: nat, s: State, m: Id)
    requires Reachable(base, s) && m < |s.messages| && !s.messages[m].row.Live?
    ensures CountFor(s.audit, m) == 0
  {
    ReachableOk(base, s);
    RowsPointing(s, m);
  }

  // ---------------------------------------------------------------- rows over time

  predicate AuditGrows(a: seq<Audit>, b: seq<Audit>) {
    |a| <= |b| &&
    forall k :: 0 <= k < |a| ==>
      b[k].tx == a[k].tx && b[k].digest == a[k].digest && (b[k].message == a[k].message || b[k].message == None)
  }

  /** Audit rows are never removed or rewritten: a deletion only clears the pointer. The log is append-only. */
  lemma {:induction false} RowsNeverRemoved(s: State, es: seq<Event>)
    requires Run(s, es).Some?
    ensures AuditGrows(s.audit, Run(s, es).value.audit)
    ensures s.node.records <= Run(s, es).value.node.records
    decreases |es|
  {
    if es == [] {
    } else {
      StepRows(s, es[0]);
      StepBase(s, es[0]);
      RowsNeverRemoved(Step(s, es[0]).value, es[1..]);
    }
  }

  lemma StepRows(s: State, e: Event)
    requires Step(s, e).Some?
    ensures AuditGrows(s.audit, Step(s, e).value.audit)
  {
  }

  /** The message is gone and its thread has not stored. */
  predicate DeletedFirst(s: State, m: Id) {
    m < |s.messages| && s.messages[m].row.Gone? && !(AtPc(s, m) && (PcOf(s, m).Stored? || PcOf(s, m).Inserted?))
  }

  predicate Touches(e: Event, m: Id) {
    !e.SendInsert? && !e.Mine? && e.m == m
  }

  lemma Untouched(s: State, e: Event, m: Id)
    requires m < |s.messages| && !Touches(e, m) && Step(s, e).Some?
    ensures |Step(s, e).value.messages| > m && Step(s, e).value.messages[m] == s.messages[m]
  {
  }

  lemma DeletedFirstKeeps(s: State, e: Event, m: Id)
    requires DeletedFirst(s, m) && Step(s, e).Some?
    ensures DeletedFirst(Step(s, e).value, m)
  {
    if Touches(e, m) {
      DeletedFirstOwn(s, e, m);
    } else {
      Untouched(s, e, m);
    }
  }

  lemma DeletedFirstOwn(s: State, e: Event, m: Id)
    requires DeletedFirst(s, m) && Touches(e, m) && Step(s, e).Some?
    ensures DeletedFirst(Step(s, e).value, m)
  {
  }

  /** A delete that wins the race leaves nothing: no audit row is ever written for that message. */
  lemma {:induction false} DeleteWins(s: State, es: seq<Event>, m: Id)
    requires Inv(s) && DeletedFirst(s, m) && Run(s, es).Some?
    ensures
      var t := Run(s, es).value;
      forall k :: 0 <= k < |t.audit| ==> t.audit[k].message != Some(m) && !SentBy(t.node, t.submitter, m, t.audit[k].tx)
    decreases |es|
  {
    if es == [] {
      forall k | 0 <= k < |s.audit|
        ensures s.audit[k].message != Some(m) && !SentBy(s.node, s.submitter, m, s.audit[k].tx)
      {
        assert AuditOk(s, s.audit[k]);
      }
    } else {
      StepKeeps(s, es[0]);
      DeletedFirstKeeps(s, es[0], m);
      DeleteWins(Step(s, es[0]).value, es[1..], m);
    }
  }

  // ---------------------------------------------------------------- when the pair can be half written

  /** The thread's UPDATE matched, or it has yet to run on a committed message. */
  predicate Matching(s: State, m: Id) {
    AtPc(s, m) && !s.messages[m].row.Uncommitted? &&
    var pc := PcOf(s, m);
    (pc.Updated? || pc.Inserted? || pc.Stored? ==> pc.matched || s.messages[m].row.Gone?)
  }

  lemma MatchingKeeps(s: State, e: Event, m: Id)
    requires Matching(s, m) && RowOk(s.messages[m]) && Step(s, e).Some?
    ensures Matching(Step(s, e).value, m)
  {
    if Touches(e, m) {
      MatchingOwn(s, e, m);
    } else {
      Untouched(s, e, m);
    }
  }

  lemma MatchingOwn(s: State, e: Event, m: Id)
    requires Matching(s, m) && RowOk(s.messages[m]) && Touches(e, m) && Step(s, e).Some?
    ensures Matching(Step(s, e).value, m)
  {
  }

  lemma {:induction false} MatchingStaysPaired(s: State, es: seq<Event>, m: Id)
    requires Inv(s) && Matching(s, m) && Run(s, es).Some?
    ensures PairedIfLive(Run(s, es).value, m)
    decreases |es|
  {
    if es == [] {
      RowsPointing(s, m);
      assert RowOk(s.messages[m]);
    } else {
      StepKeeps(s, es[0]);
      MatchingKeeps(s, es[0], m);
      MatchingStaysPaired(Step(s, es[0]).value, es[1..], m);
    }
  }

  /** The run that half-writes the pair: the send commits between the thread's two statements. */
  function LateCommit(m: Id): seq<Event> {
    [SendCommit(m), Insert(m), CommitStore(m)]
  }

  lemma LateCommitBreaksPair(s: State, m: Id)
    requires Inv(s) && AtPc(s, m) && s.messages[m].row.Uncommitted?
    requires PcOf(s, m).Updated? && !PcOf(s, m).matched
    ensures Run(s, LateCommit(m)).Some? && !PairedIfLive(Run(s, LateCommit(m)).value, m)
  {
    LateCommitRun(s, m);
    RunKeeps(s, LateCommit(m));
    RowsPointing(Run(s, LateCommit(m)).value, m);
  }

  lemma LateCommitRun(s: State, m: Id)
    requires AtPc(s, m) && s.messages[m].row.Uncommitted? && PcOf(s, m).Updated? && !PcOf(s, m).matched
    ensures Run(s, LateCommit(m)).Some?
    ensures
      var t := Run(s, LateCommit(m)).value;
      AtPc(t, m) && PcOf(t, m).Stored? && t.messages[m].row == Live(None, Free)
  {
    var t1 := Step(s, SendCommit(m)).value;
    var t2 := Step(t1, Insert(m)).value;
    var t3 := Step(t2, CommitStore(m)).value;
    assert LateCommit(m)[1..] == [Insert(m), CommitStore(m)];
    assert LateCommit(m)[1..][1..] == [CommitStore(m)];
    assert Run(t2, [CommitStore(m)]) == Some(t3);
    assert Run(t1, [Insert(m), CommitStore(m)]) == Some(t3);
  }

  /** One send whose own commit comes late, with nothing else going on. */
  function SlowSend(sender: User, contentHash: string, reading: real, time: nat): seq<Event> {
    [SendInsert(sender), SendRecord(0, contentHash, reading), Acquire(0), ReadNonce(0), Submit(0), Release(0),
     Mine(true, time), SeeReceipt(0), Update(0)]
  }

  lemma RunCons(s: State, e: Event, es: seq<Event>)
    requires Step(s, e).Some?
    ensures Run(s, [e] + es) == Run(Step(s, e).value, es)
  {
    assert ([e] + es)[1..] == es;
  }

  /** A concrete run from the empty database after which a live message has an audit row but no transaction hash. */
  lemma HalfWrittenReachable(base: nat, sender: User, contentHash: string, reading: real, time: nat)
    requires Hex.IsContentHash(contentHash)
    ensures
      var es := SlowSend(sender, contentHash, reading, time) + LateCommit(0);
      Run(Initial(base), es).Some? && !PairedIfLive(Run(Initial(base), es).value, 0)
  {
    var es := SlowSend(sender, contentHash, reading, time);
    var s := SlowSendRun(base, sender, contentHash, reading, time);
    RunKeeps(Initial(base), es);
    RunAppend(Initial(base), es, LateCommit(0));
    LateCommitBreaksPair(s, 0);
  }

  lemma SlowSendRun(base: nat, sender: User, contentHash: string, reading: real, time: nat) returns (s: State)
    requires Hex.IsContentHash(contentHash)
    ensures Run(Initial(base), SlowSend(sender, contentHash, reading, time)) == Some(s)
    ensures AtPc(s, 0) && s.messages[0].row.Uncommitted? && PcOf(s, 0).Updated? && !PcOf(s, 0).matched
  {
    var s2 := SpawnFirst(base, sender, contentHash, reading);
    var s3 := SendFirst(s2);
    s := ConfirmFirst(s3, time);
    var spawning := [SendInsert(sender), SendRecord(0, contentHash, reading)];
    var sending := [Acquire(0), ReadNonce(0), Submit(0), Release(0)];
    var confirming := [Mine(true, time), SeeReceipt(0), Update(0)];
    RunAppend(Initial(base), spawning, sending);
    RunAppend(Initial(base), spawning + sending, confirming);
    assert SlowSend(sender, contentHash, reading, time) == spawning + sending + confirming;
  }

  lemma SendFirst(s: State) returns (t: State)
    requires s.nonceLock == None && AtPc(s, 0) && PcOf(s, 0) == Started && s.messages[0].row == Uncommitted
    requires s.node == Node(s.node.base, [], [], []) && Hex.RawDigest(s.messages[0].thread.contentHash).Some?
    ensures Run(s, [Acquire(0), ReadNonce(0), Submit(0), Release(0)]) == Some(t)
    ensures AtPc(t, 0) && PcOf(t, 0).Waiting? && t.messages[0].row == Uncommitted
    ensures t.node == Node(s.node.base, [PcOf(t, 0).tx], [], []) && PcOf(t, 0).tx.nonce == s.node.base
  {
    var s1 := Step(s, Acquire(0)).value;
    var s2 := Step(s1, ReadNonce(0)).value;
    t := SubmitFirst(s2);
    RunTwo(s, Acquire(0), ReadNonce(0));
    RunAppend(s, [Acquire(0), ReadNonce(0)], [Submit(0), Release(0)]);
    assert [Acquire(0), ReadNonce(0)] + [Submit(0), Release(0)] == [Acquire(0), ReadNonce(0), Submit(0), Release(0)];
  }

  lemma SubmitFirst(s: State) returns (t: State)
    requires AtPc(s, 0) && PcOf(s, 0) == HasNonce(s.node.base) && s.messages[0].row == Uncommitted
    requires s.node == Node(s.node.base, [], [], []) && Hex.RawDigest(s.messages[0].thread.contentHash).Some?
    ensures Run(s, [Submit(0), Release(0)]) == Some(t)
    ensures AtPc(t, 0) && PcOf(t, 0).Waiting? && t.messages[0].row == Uncommitted
    ensures t.node == Node(s.node.base, [PcOf(t, 0).tx], [], []) && PcOf(t, 0).tx.nonce == s.node.base
  {
    var s1 := Step(s, Submit(0)).value;
    t := Step(s1, Release(0)).value;
    RunTwo(s, Submit(0), Release(0));
  }

  lemma ConfirmFirst(s: State, time: nat) returns (t: State)
    requires AtPc(s, 0) && PcOf(s, 0).Waiting? && s.messages[0].row == Uncommitted
    requires s.node == Node(s.node.base, [PcOf(s, 0).tx], [], []) && PcOf(s, 0).tx.nonce == s.node.base
    ensures Run(s, [Mine(true, time), SeeReceipt(0), Update(0)]) == Some(t)
    ensures AtPc(t, 0) && t.messages[0].row.Uncommitted? && PcOf(t, 0).Updated? && !PcOf(t, 0).matched
  {
    var s1 := Step(s, Mine(true, time)).value;
    var s2 := Step(s1, SeeReceipt(0)).value;
    t := Step(s2, Update(0)).value;
    RunCons(s2, Update(0), []);
    RunCons(s1, SeeReceipt(0), [Update(0)]);
    RunCons(s, Mine(true, time), [SeeReceipt(0), Update(0)]);
    assert [Update(0)] + [] == [Update(0)];
    assert [SeeReceipt(0)] + [Update(0)] == [SeeReceipt(0), Update(0)];
    assert [Mine(true, time)] + [SeeReceipt(0), Update(0)] == [Mine(true, time), SeeReceipt(0), Update(0)];
  }

  lemma FirstCallAccepted(c: Call)
    ensures Accepts([c], MAX_PER_HOUR, 0)
  {
    assert [c][..0] == [];
  }

  lemma SpawnFirst(base: nat, sender: User, contentHash: string, reading: real) returns (s: State)
    requires Hex.IsContentHash(contentHash)
    ensures Run(Initial(base), [SendInsert(sender), SendRecord(0, contentHash, reading)]) == Some(s)
    ensures s.node == Node(base, [], [], []) && s.nonceLock == None && AtPc(s, 0) && PcOf(s, 0) == Started
    ensures s.messages[0].row == Uncommitted && Hex.RawDigest(s.messages[0].thread.contentHash).Some?
  {
    var s1 := Initial(base).(messages := [Message(sender, Uncommitted, NotAsked)]);
    assert [] + s1.messages == s1.messages;
    s := FirstRecord(s1, contentHash, reading);
    RunTwo(Initial(base), SendInsert(sender), SendRecord(0, contentHash, reading));
  }

  lemma FirstRecord(s: State, contentHash: string, reading: real) returns (t: State)
    requires Hex.IsContentHash(contentHash) && Recordable(s, 0) && s.calls == []
    ensures SendRecordStep(s, 0, contentHash, reading) == Some(t)
    ensures t.node == s.node && t.nonceLock == s.nonceLock && AtPc(t, 0) && PcOf(t, 0) == Started
    ensures t.messages[0].row == Uncommitted && Hex.RawDigest(t.messages[0].thread.contentHash).Some?
  {
    Hex.NormaliseFaithful(contentHash);
    FirstCallAccepted(Call(s.messages[0].sender, reading));
    assert s.calls + [Call(s.messages[0].sender, reading)] == [Call(s.messages[0].sender, reading)];
    t := SendRecordStep(s, 0, contentHash, reading).value;
  }

  lemma RunTwo(s: State, e: Event, f: Event)
    requires Step(s, e).Some? && Step(Step(s, e).value, f).Some?
    ensures Run(s, [e, f]) == Step(Step(s, e).value, f)
  {
    RunCons(s, e, [f]);
    RunCons(Step(s, e).value, f, []);
    assert [e] + [f] == [e, f] && [f] + [] == [f];
  }

  ghost predicate AlwaysPaired(s: State, m: Id) {
    forall es :: Run(s, es).Some? ==> PairedIfLive(Run(s, es).value, m)
  }

  /**
   * When a recorder is about to run its UPDATE, the two tables are sure to agree from then on
   * exactly when the send that created the message has already committed (or rolled back).
   */
  lemma StorePairedIff(base: nat, s: State, m: Id)
    requires Reachable(base, s) && AtPc(s, m) && PcOf(s, m).Confirmed? && Step(s, Update(m)).Some?
    ensures AlwaysPaired(Step(s, Update(m)).value, m) <==> !s.messages[m].row.Uncommitted?
  {
    ReachableOk(base, s);
    StepKeeps(s, Update(m));
    var t := Step(s, Update(m)).value;
    if s.messages[m].row.Uncommitted? {
      LateCommitBreaksPair(t, m);
    } else {
      forall es | Run(t, es).Some? ensures PairedIfLive(Run(t, es).value, m) {
        MatchingStaysPaired(t, es, m);
      }
    }
  }
}

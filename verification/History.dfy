/**
 * The recording pipeline seen from its events: which submitted hash every digest on the chain and
 * every audit row comes from, which calls the limiter has seen, and what the log holds.
 */
module RecordingHistory {
  import opened Common
  import opened DigestLog
  import opened RateLimiter
  import opened Recording
  import Hex

  // ---------------------------------------------------------------- steps that leave a send alone

  /** Who sent the message, and what was submitted for it under which call, stay the same. */
  predicate SameAsk(a: Message, b: Message) {
    b.sender == a.sender && (b.thread.Thread? <==> a.thread.Thread?) &&
    (b.thread.NotAsked? <==> a.thread.NotAsked?) && (b.thread.Refused? <==> a.thread.Refused?) &&
    (b.thread.Thread? ==> b.thread.call == a.thread.call && b.thread.contentHash == a.thread.contentHash)
  }

  /** Steps other than the limiter's keep who asked, for what, and which call it was. */
  predicate SameCalls(s: State, t: State) {
    t.calls == s.calls && |s.messages| <= |t.messages| &&
    (forall m :: 0 <= m < |s.messages| ==> SameAsk(s.messages[m], t.messages[m])) &&
    (forall m :: |s.messages| <= m < |t.messages| ==> t.messages[m].thread.NotAsked?)
  }

  lemma StepSameCalls(s: State, e: Event)
    requires Step(s, e).Some? && !e.SendRecord?
    ensures SameCalls(s, Step(s, e).value)
  {
    var t := Step(s, e).value;
    forall m | 0 <= m < |s.messages| ensures m < |t.messages| && SameAsk(s.messages[m], t.messages[m]) {
      if Touches(e, m) {
        OwnSameAsk(s, e);
      } else {
        Untouched(s, e, m);
      }
    }
    NewMessages(s, e);
  }

  lemma OwnSameAsk(s: State, e: Event)
    requires Step(s, e).Some? && !e.SendRecord? && !e.SendInsert? && !e.Mine? && e.m < |s.messages|
    ensures e.m < |Step(s, e).value.messages| && SameAsk(s.messages[e.m], Step(s, e).value.messages[e.m])
  {
  }

  lemma NewMessages(s: State, e: Event)
    requires Step(s, e).Some? && !e.SendRecord?
    ensures
      var t := Step(s, e).value;
      t.calls == s.calls && |t.messages| == |s.messages| + (if e.SendInsert? then 1 else 0) &&
      (e.SendInsert? ==> t.messages[|s.messages|] == Message(e.sender, Uncommitted, NotAsked))
  {
  }

  // ---------------------------------------------------------------- runs by their events

  /** The senders of the messages inserted, in order of their ids. */
  function Senders(es: seq<Event>): seq<User> {
    if es == [] then []
    else
      var earlier, e := Senders(es[..|es| - 1]), es[|es| - 1];
      if e.SendInsert? then earlier + [e.sender] else earlier
  }

  /** The limiter calls of the sends that ask for a record, in order. */
  function Asked(es: seq<Event>): seq<Call> {
    if es == [] then []
    else
      var before, e := es[..|es| - 1], es[|es| - 1];
      if e.SendRecord? && e.m < |Senders(before)|
      then Asked(before) + [Call(Senders(before)[e.m], e.reading)] else Asked(before)
  }

  /** e is the send of message m asking for a record of its content hash. */
  predicate IsAsk(e: Event, m: Id) {
    e.SendRecord? && e.m == m
  }

  /** What event i submitted is what the message's recorder, if it was admitted, works on. */
  predicate AskOf(es: seq<Event>, i: nat, x: Message)
    requires i < |es| && es[i].SendRecord?
  {
    !x.thread.NotAsked? && es[i].m < |Senders(es[..i])| &&
    (x.thread.Thread? ==>
      Hex.Normalise(es[i].contentHash) == Some(x.thread.contentHash) && x.thread.call == |Asked(es[..i])|)
  }

  predicate AskedFor(es: seq<Event>, m: Id) {
    exists i :: 0 <= i < |es| && IsAsk(es[i], m)
  }

  /** The state agrees with the events: senders, limiter calls, and the one submission for each recorder. */
  predicate Traced(es: seq<Event>, s: State) {
    |s.messages| == |Senders(es)| && s.calls == Asked(es) &&
    (forall m :: 0 <= m < |s.messages| ==> s.messages[m].sender == Senders(es)[m]) &&
    (forall i :: 0 <= i < |es| && es[i].SendRecord? ==>
      es[i].m < |s.messages| && AskOf(es, i, s.messages[es[i].m])) &&
    (forall m :: 0 <= m < |s.messages| && s.messages[m].thread.Thread? ==> AskedFor(es, m))
  }

  lemma EventsAppend(es: seq<Event>, e: Event)
    ensures Senders(es + [e]) == if e.SendInsert? then Senders(es) + [e.sender] else Senders(es)
    ensures Asked(es + [e]) ==
      if e.SendRecord? && e.m < |Senders(es)| then Asked(es) + [Call(Senders(es)[e.m], e.reading)] else Asked(es)
  {
    assert (es + [e])[..|es|] == es;
  }

  lemma AskOfLater(es: seq<Event>, e: Event, i: nat, x: Message, y: Message)
    requires i < |es| && es[i].SendRecord? && AskOf(es, i, x) && SameAsk(x, y)
    ensures AskOf(es + [e], i, y)
  {
    assert (es + [e])[..i] == es[..i];
  }

  lemma AskedForLater(es: seq<Event>, e: Event, m: Id)
    requires AskedFor(es, m)
    ensures AskedFor(es + [e], m)
  {
    var i :| 0 <= i < |es| && IsAsk(es[i], m);
    assert (es + [e])[i] == es[i];
  }

  lemma OtherTraced(es: seq<Event>, s: State, e: Event)
    requires Traced(es, s) && Step(s, e).Some? && !e.SendRecord?
    ensures Traced(es + [e], Step(s, e).value)
  {
    var t, fs := Step(s, e).value, es + [e];
    StepSameCalls(s, e);
    NewMessages(s, e);
    EventsAppend(es, e);
    forall i | 0 <= i < |fs| && fs[i].SendRecord? ensures fs[i].m < |t.messages| && AskOf(fs, i, t.messages[fs[i].m]) {
      AskOfLater(es, e, i, s.messages[es[i].m], t.messages[es[i].m]);
    }
    forall m | 0 <= m < |t.messages| && t.messages[m].thread.Thread? ensures AskedFor(fs, m) {
      AskedForLater(es, e, m);
    }
  }

  lemma AskTraced(es: seq<Event>, s: State, e: Event)
    requires Traced(es, s) && Step(s, e).Some? && e.SendRecord?
    ensures Traced(es + [e], Step(s, e).value)
  {
    var t, fs := Step(s, e).value, es + [e];
    EventsAppend(es, e);
    AskStep(s, e);
    AsksAgree(es, s, e, t);
    forall m | 0 <= m < |t.messages| && t.messages[m].thread.Thread? ensures AskedFor(fs, m) {
      if m == e.m {
        assert fs[|es|] == e && IsAsk(fs[|es|], m);
      } else {
        AskedForLater(es, e, m);
      }
    }
  }

  lemma AsksAgree(es: seq<Event>, s: State, e: Event, t: State)
    requires Traced(es, s) && e.SendRecord? && e.m < |s.messages| == |t.messages|
    requires t.messages == s.messages[e.m := t.messages[e.m]] && s.messages[e.m].thread.NotAsked?
    requires !t.messages[e.m].thread.NotAsked?
    requires t.messages[e.m].thread.Thread? ==>
      Hex.Normalise(e.contentHash) == Some(t.messages[e.m].thread.contentHash) &&
      t.messages[e.m].thread.call == |s.calls|
    ensures forall i :: 0 <= i < |es + [e]| && (es + [e])[i].SendRecord? ==>
      (es + [e])[i].m < |t.messages| && AskOf(es + [e], i, t.messages[(es + [e])[i].m])
  {
    var fs := es + [e];
    assert fs[|es|] == e && fs[..|es|] == es;
    forall i | 0 <= i < |fs| && fs[i].SendRecord? ensures fs[i].m < |t.messages| && AskOf(fs, i, t.messages[fs[i].m]) {
      if i < |es| {
        assert AskOf(es, i, s.messages[es[i].m]);
        AskOfLater(es, e, i, s.messages[es[i].m], t.messages[es[i].m]);
      }
    }
  }

  lemma AskStep(s: State, e: Event)
    requires e.SendRecord? && Step(s, e).Some?
    ensures
      var t := Step(s, e).value;
      e.m < |s.messages| == |t.messages| && s.messages[e.m].thread.NotAsked? &&
      t.messages == s.messages[e.m := t.messages[e.m]] && t.messages[e.m].sender == s.messages[e.m].sender &&
      t.calls == s.calls + [Call(s.messages[e.m].sender, e.reading)] && !t.messages[e.m].thread.NotAsked? &&
      (t.messages[e.m].thread.Thread? ==>
        Hex.Normalise(e.contentHash) == Some(t.messages[e.m].thread.contentHash) &&
        t.messages[e.m].thread.call == |s.calls|)
  {
  }

  lemma {:induction false} RunLast(s: State, es: seq<Event>)
    requires es != [] && Run(s, es).Some?
    ensures
      var before := Run(s, es[..|es| - 1]);
      before.Some? && Step(before.value, es[|es| - 1]) == Run(s, es)
    decreases |es|
  {
    if |es| == 1 {
      assert es[..0] == [] && es[1..] == [];
    } else {
      var n := |es| - 1;
      assert es[..n][1..] == es[1..][..n - 1];
      RunLast(Step(s, es[0]).value, es[1..]);
    }
  }

  lemma {:induction false} RunTraced(base: nat, es: seq<Event>)
    requires Run(Initial(base), es).Some?
    ensures Traced(es, Run(Initial(base), es).value)
  {
    if es == [] {
    } else {
      var before, e := es[..|es| - 1], es[|es| - 1];
      RunLast(Initial(base), es);
      RunTraced(base, before);
      assert es == before + [e];
      if e.SendRecord? {
        AskTraced(before, Run(Initial(base), before).value, e);
      } else {
        OtherTraced(before, Run(Initial(base), before).value, e);
      }
    }
  }

  /** Which call event k made, and with which reading. */
  lemma {:induction false} AskedAt(es: seq<Event>, k: nat)
    requires k < |es| && es[k].SendRecord? && es[k].m < |Senders(es[..k])|
    ensures |Asked(es[..k])| < |Asked(es)| && |Senders(es[..k])| <= |Senders(es)| && es[k].m < |Senders(es)|
    ensures Asked(es)[|Asked(es[..k])|] == Call(Senders(es)[es[k].m], es[k].reading)
  {
    var n := |es| - 1;
    if k == n {
    } else {
      assert es[..n][..k] == es[..k] && es[..n][k] == es[k];
      AskedAt(es[..n], k);
    }
  }

  // ---------------------------------------------------------------- where a digest comes from

  /** The thread that had an audit row's transaction accepted, and its hash. */
  lemma RowThread(s: State, a: Audit)
    requires Inv(s) && a in s.audit
    ensures HasWriter(s, a)
  {
    assert AuditOk(s, a);
    var m := s.submitter[a.tx.nonce - s.node.base];
    assert ThreadOk(s.node, s.submitter, s.nonceLock, m, s.messages[m].thread);
  }

  /** Event i is the send of the message whose thread sent the transaction of audit row k. */
  predicate IsSendOf(es: seq<Event>, s: State, k: nat, i: nat)
    requires k < |s.audit| && i < |es|
  {
    es[i].SendRecord? && SentBy(s.node, s.submitter, es[i].m, s.audit[k].tx)
  }

  /**
   * In every run, behind every audit row there is a submission, and by AskedOnce only one: the send
   * of the message whose thread had the row's transaction accepted. The row holds its normalised hash.
   */
  lemma RowIsSubmitted(base: nat, es: seq<Event>, s: State, k: nat)
    requires Run(Initial(base), es) == Some(s) && k < |s.audit|
    ensures exists i :: 0 <= i < |es| && IsSendOf(es, s, k, i)
    ensures forall i :: 0 <= i < |es| && IsSendOf(es, s, k, i) ==>
      Hex.Normalise(es[i].contentHash) == Some(s.audit[k].digest)
  {
    RunKeeps(Initial(base), es);
    RunTraced(base, es);
    RowThread(s, s.audit[k]);
    SomeSend(es, s, k);
    forall i | 0 <= i < |es| && IsSendOf(es, s, k, i)
      ensures Hex.Normalise(es[i].contentHash) == Some(s.audit[k].digest)
    {
      SendsHash(es, s, k, i);
    }
  }

  predicate HasWriter(s: State, a: Audit) {
    a.tx.nonce >= s.node.base && a.tx.nonce - s.node.base < |s.submitter| &&
    var m := s.submitter[a.tx.nonce - s.node.base];
    AtPc(s, m) && s.messages[m].thread.contentHash == a.digest && SentBy(s.node, s.submitter, m, a.tx)
  }

  lemma SomeSend(es: seq<Event>, s: State, k: nat)
    requires Traced(es, s) && k < |s.audit| && HasWriter(s, s.audit[k])
    ensures exists i :: 0 <= i < |es| && IsSendOf(es, s, k, i)
  {
    var m := s.submitter[s.audit[k].tx.nonce - s.node.base];
    assert AskedFor(es, m);
    var i :| 0 <= i < |es| && IsAsk(es[i], m);
    assert IsSendOf(es, s, k, i);
  }

  lemma SendsHash(es: seq<Event>, s: State, k: nat, i: nat)
    requires Traced(es, s) && k < |s.audit| && HasWriter(s, s.audit[k]) && i < |es| && IsSendOf(es, s, k, i)
    ensures Hex.Normalise(es[i].contentHash) == Some(s.audit[k].digest)
  {
    assert AskOf(es, i, s.messages[es[i].m]);
  }

  lemma AskVerdict(s: State, e: Event)
    requires e.SendRecord? && Step(s, e).Some?
    ensures
      var t := Step(s, e).value;
      e.m < |t.messages| && |s.calls| < |t.calls| &&
      (t.messages[e.m].thread.Thread? <==> Accepts(t.calls, 10, |s.calls|))
  {
  }

  lemma StepKeepsAsk(s: State, e: Event, m: Id)
    requires Step(s, e).Some? && m < |s.messages| && !s.messages[m].thread.NotAsked?
    ensures m < |Step(s, e).value.messages| && SameAsk(s.messages[m], Step(s, e).value.messages[m])
  {
    if e.SendRecord? {
      AskStep(s, e);
    } else {
      StepSameCalls(s, e);
    }
  }

  /** The limiter has seen exactly the calls of the sends, in order. */
  lemma CallsAre(base: nat, es: seq<Event>, s: State)
    requires Run(Initial(base), es) == Some(s)
    ensures s.calls == Asked(es)
  {
    RunTraced(base, es);
  }

  /** The limiter accepts the call that event i makes. */
  predicate LetThrough(es: seq<Event>, i: nat)
    requires i < |es|
  {
    |Asked(es[..i])| < |Asked(es[..i + 1])| && Accepts(Asked(es[..i + 1]), 10, |Asked(es[..i])|)
  }

  lemma LastAdmitted(base: nat, es: seq<Event>, before: State, s: State)
    requires es != [] && Run(Initial(base), es) == Some(s) && es[|es| - 1].SendRecord?
    requires Run(Initial(base), es[..|es| - 1]) == Some(before) && Step(before, es[|es| - 1]) == Some(s)
    ensures
      var n := |es| - 1;
      es[n].m < |s.messages| && !s.messages[es[n].m].thread.NotAsked? &&
      (s.messages[es[n].m].thread.Thread? <==> LetThrough(es, n))
  {
    var n := |es| - 1;
    assert es[..n + 1] == es;
    CallsAre(base, es, s);
    CallsAre(base, es[..n], before);
    AskVerdict(before, es[n]);
    AskStep(before, es[n]);
  }

  /** In every run a send gets a recorder exactly when the limiter accepts its call. */
  lemma {:induction false} AdmittedIff(base: nat, es: seq<Event>, s: State, i: nat)
    requires Run(Initial(base), es) == Some(s) && i < |es| && es[i].SendRecord?
    ensures es[i].m < |s.messages| && !s.messages[es[i].m].thread.NotAsked?
    ensures s.messages[es[i].m].thread.Thread? <==> LetThrough(es, i)
  {
    var n := |es| - 1;
    RunLast(Initial(base), es);
    var before := Run(Initial(base), es[..n]).value;
    if i == n {
      LastAdmitted(base, es, before, s);
    } else {
      SamePast(es, n, i);
      AdmittedIff(base, es[..n], before, i);
      StepKeepsAsk(before, es[n], es[i].m);
    }
  }

  lemma SamePast(es: seq<Event>, n: nat, i: nat)
    requires i < n <= |es|
    ensures es[..n][i] == es[i] && (LetThrough(es[..n], i) <==> LetThrough(es, i))
  {
    assert es[..n][..i] == es[..i] && es[..n][..i + 1] == es[..i + 1];
  }

  /** A message is asked for once: no other send submits anything for it. */
  lemma AskedOnce(base: nat, es: seq<Event>, i: nat, j: nat)
    requires Run(Initial(base), es).Some? && i < j < |es| && es[i].SendRecord? && es[j].SendRecord?
    ensures es[i].m != es[j].m
  {
    StepAt(base, es, j);
    AskedBefore(base, es[..j], i);
    assert es[..j][i] == es[i];
    AskStep(Run(Initial(base), es[..j]).value, es[j]);
  }

  lemma StepAt(base: nat, es: seq<Event>, j: nat)
    requires Run(Initial(base), es).Some? && j < |es|
    ensures Run(Initial(base), es[..j]).Some? && Step(Run(Initial(base), es[..j]).value, es[j]).Some?
  {
    PrefixOfRun(Initial(base), es, j + 1);
    RunLast(Initial(base), es[..j + 1]);
    assert es[..j + 1][..j] == es[..j];
  }

  lemma AskedBefore(base: nat, es: seq<Event>, i: nat)
    requires Run(Initial(base), es).Some? && i < |es| && es[i].SendRecord?
    ensures
      var s := Run(Initial(base), es).value;
      es[i].m < |s.messages| && !s.messages[es[i].m].thread.NotAsked?
  {
    RunTraced(base, es);
    assert AskOf(es, i, Run(Initial(base), es).value.messages[es[i].m]);
  }

  lemma PrefixOfRun(s: State, es: seq<Event>, n: nat)
    requires Run(s, es).Some? && n <= |es|
    ensures Run(s, es[..n]).Some?
    decreases |es| - n
  {
    if n == |es| {
      assert es[..n] == es;
    } else {
      PrefixOfRun(s, es, n + 1);
      assert es[..n + 1][..n] == es[..n];
      RunLast(s, es[..n + 1]);
    }
  }

  // ---------------------------------------------------------------- end to end

  /** The receipt a successful transaction leaves for the verification page. */
  function LogsOf(contract: Address, n: Node, tx: Tx): seq<Log>
    requires Succeeded(n, tx)
  {
    var j := n.outcomes[tx.nonce - n.base].index;
    if j < |n.records| then [EventOf(contract, n.records[..j], n.records[j].hash, n.records[j].timestamp)] else []
  }

  /** The record that a receipt names is in the log, with the digest and time the receipt shows. */
  predicate ReceiptShows(contract: Address, n: Node, tx: Tx, hash: Bytes)
    requires Succeeded(n, tx)
  {
    var logs := LogsOf(contract, n, tx);
    |logs| == 1 && logs[0].DigestRecorded? && logs[0].address == contract && logs[0].hash == hash &&
    Consistent(contract, n.records, logs)
  }

  /**
   * From the submitted hash to the verification page: for the audit row of a send, in every later
   * state, the 32 bytes the sender submitted are in the log at the index the receipt names.
   */
  lemma EndToEnd(contract: Address, base: nat, es: seq<Event>, s: State, k: nat, i: nat, later: seq<Event>, t: State)
    requires Run(Initial(base), es) == Some(s) && Run(s, later) == Some(t)
    requires i < |es| && k < |s.audit| && IsSendOf(es, s, k, i)
    ensures
      var raw := Hex.RawDigest(es[i].contentHash);
      raw.Some? && |raw.value| == 32 && Succeeded(t.node, s.audit[k].tx) &&
      ReceiptShows(contract, t.node, s.audit[k].tx, raw.value)
  {
    RowFromSubmission(base, es, s, k, i);
    LaterShows(contract, s, later, t, s.audit[k].tx);
  }

  lemma RowFromSubmission(base: nat, es: seq<Event>, s: State, k: nat, i: nat)
    requires Run(Initial(base), es) == Some(s) && i < |es| && k < |s.audit| && IsSendOf(es, s, k, i)
    ensures Inv(s) && Succeeded(s.node, s.audit[k].tx) && |s.audit[k].tx.digest| == 32
    ensures Hex.RawDigest(es[i].contentHash) == Some(s.audit[k].tx.digest)
  {
    RunKeeps(Initial(base), es);
    RowIsSubmitted(base, es, s, k);
    SubmittedDigest(s, s.audit[k], es[i].contentHash);
  }

  lemma LaterShows(contract: Address, s: State, later: seq<Event>, t: State, tx: Tx)
    requires Inv(s) && Run(s, later) == Some(t) && Succeeded(s.node, tx)
    ensures Succeeded(t.node, tx) && ReceiptShows(contract, t.node, tx, tx.digest)
  {
    RunBase(s, later);
    NodeStaysOk(s, later, t);
    StillSucceeded(s.node, t.node, tx);
    LogsOfDigest(contract, t.node, tx);
  }

  lemma NodeStaysOk(s: State, later: seq<Event>, t: State)
    requires Inv(s) && Run(s, later) == Some(t)
    ensures NodeOk(t.node)
  {
    RunKeeps(s, later);
  }

  lemma StillSucceeded(n: Node, n': Node, tx: Tx)
    requires Succeeded(n, tx) && NodeGrows(n, n')
    ensures Succeeded(n', tx)
  {
  }

  lemma SubmittedDigest(s: State, a: Audit, submitted: string)
    requires Inv(s) && a in s.audit && Hex.Normalise(submitted) == Some(a.digest)
    ensures Succeeded(s.node, a.tx) && Hex.RawDigest(submitted) == Some(a.tx.digest) && |a.tx.digest| == 32
  {
    assert AuditOk(s, a);
    Hex.NormaliseFaithful(submitted);
  }

  lemma LogsOfDigest(contract: Address, n: Node, tx: Tx)
    requires NodeOk(n) && Succeeded(n, tx)
    ensures ReceiptShows(contract, n, tx, tx.digest) && FirstIs(LogsOf(contract, n, tx), tx.digest)
    ensures InLog(n.records, tx.digest)
  {
    var logs := LogsOf(contract, n, tx);
    assert FirstAt(logs, 0);
    assert n.records[logs[0].index].hash == tx.digest;
  }

  /**
   * The page, shown the receipt of a recorded send, says Verified exactly when both fields are filled
   * in and the text has the digest that was submitted; and then that digest is in this contract's log.
   */
  method CheckOnPage(contract: Address, base: nat, es: seq<Event>, s: State, k: nat, i: nat,
                     plaintext: string, txHash: string, fetch: string -> Fetched, keccak: string -> Bytes)
    returns (v: Verdict)
    requires Run(Initial(base), es) == Some(s) && k < |s.audit| && Succeeded(s.node, s.audit[k].tx)
    requires i < |es| && IsSendOf(es, s, k, i)
    requires fetch(Trim(txHash)) == Found(LogsOf(contract, s.node, s.audit[k].tx))
    ensures v == Verified <==>
      plaintext != "" && !AllBlank(txHash) && Hex.RawDigest(es[i].contentHash) == Some(keccak(plaintext))
    ensures v == Verified ==> InLog(s.node.records, keccak(plaintext))
  {
    RowFromSubmission(base, es, s, k, i);
    LogsOfDigest(contract, s.node, s.audit[k].tx);
    v := Verify(plaintext, txHash, fetch, keccak);
  }

  // ---------------------------------------------------------------- what the log holds

  /** The digests of the successful ones among the first |outcomes| transactions, in order. */
  function Successes(accepted: seq<Tx>, outcomes: seq<Outcome>): seq<Bytes>
    requires |outcomes| <= |accepted|
  {
    if outcomes == [] then []
    else
      var n := |outcomes| - 1;
      var earlier := Successes(accepted, outcomes[..n]);
      if outcomes[n].Success? then earlier + [accepted[n].digest] else earlier
  }

  function HashesOf(records: seq<Record>): seq<Bytes> {
    seq(|records|, k requires 0 <= k < |records| => records[k].hash)
  }

  predicate LogIs(n: Node) {
    |n.outcomes| <= |n.accepted| && HashesOf(n.records) == Successes(n.accepted, n.outcomes)
  }

  lemma {:induction false} SuccessesGrow(accepted: seq<Tx>, more: seq<Tx>, outcomes: seq<Outcome>)
    requires |outcomes| <= |accepted| && accepted <= more
    ensures Successes(more, outcomes) == Successes(accepted, outcomes)
  {
    if outcomes == [] {
    } else {
      SuccessesGrow(accepted, more, outcomes[..|outcomes| - 1]);
    }
  }

  lemma MineLogs(s: State, success: bool, time: nat)
    requires LogIs(s.node) && MineStep(s, success, time).Some?
    ensures
      var n := MineStep(s, success, time).value.node;
      LogIs(n) && (success ==> n.records == s.node.records + [Record(s.node.accepted[|s.node.outcomes|].digest, time)])
  {
    var n, m := s.node, MineStep(s, success, time).value.node;
    assert m.outcomes[..|n.outcomes|] == n.outcomes;
    if success {
      var digest := n.accepted[|n.outcomes|].digest;
      assert HashesOf(m.records) == HashesOf(n.records) + [digest];
    }
  }

  lemma StepLogs(s: State, e: Event)
    requires LogIs(s.node) && Step(s, e).Some?
    ensures LogIs(Step(s, e).value.node)
  {
    if e.Mine? {
      MineLogs(s, e.success, e.time);
    } else {
      StepBase(s, e);
      OnlyMineMines(s, e);
      SuccessesGrow(s.node.accepted, Step(s, e).value.node.accepted, s.node.outcomes);
    }
  }

  lemma OnlyMineMines(s: State, e: Event)
    requires Step(s, e).Some? && !e.Mine?
    ensures Step(s, e).value.node.outcomes == s.node.outcomes && Step(s, e).value.node.records == s.node.records
  {
  }

  /**
   * In every run the log holds exactly the digests of the transactions that were mined with success,
   * in the order of their nonces, each once.
   */
  lemma {:induction false} LogIsSuccesses(base: nat, es: seq<Event>)
    requires Run(Initial(base), es).Some?
    ensures LogIs(Run(Initial(base), es).value.node)
  {
    if es == [] {
    } else {
      RunLast(Initial(base), es);
      LogIsSuccesses(base, es[..|es| - 1]);
      StepLogs(Run(Initial(base), es[..|es| - 1]).value, es[|es| - 1]);
    }
  }

  // ---------------------------------------------------------------- what single steps achieve

  /** A committed delete is a delete: the message is gone, and its row keeps everything but the pointer. */
  lemma DeleteErases(s: State, m: Id)
    requires Step(s, DeleteCommit(m)).Some?
    ensures
      var t := Step(s, DeleteCommit(m)).value;
      m < |t.messages| && t.messages[m].row == Gone && |t.audit| == |s.audit| &&
      forall k :: 0 <= k < |s.audit| ==>
        t.audit[k] == s.audit[k].(message := if s.audit[k].message == Some(m) then None else s.audit[k].message)
  {
  }

  /** Whenever a message is committed and nobody holds its row, it can be deleted. */
  lemma CanDelete(s: State, m: Id)
    requires m < |s.messages| && s.messages[m].row.Live? && s.messages[m].row.lock == Free
    ensures
      var t := Step(s, DeleteStatement(m));
      t.Some? && Step(t.value, DeleteCommit(m)).Some?
  {
  }

  /** A recorder can fail at any point before it is done, and then holds no lock of either kind. */
  lemma FailReleases(s: State, m: Id)
    requires Inv(s) && AtPc(s, m) && !PcOf(s, m).Stored? && !PcOf(s, m).Ended?
    ensures
      var t := Step(s, Fail(m));
      t.Some? && AtPc(t.value, m) && PcOf(t.value, m) == Ended && t.value.nonceLock != Some(m) &&
      (s.messages[m].row.Live? ==>
        t.value.messages[m].row.Live? && !t.value.messages[m].row.lock.Recorder? &&
        t.value.messages[m].row.txHash == s.messages[m].row.txHash) &&
      t.value.audit == s.audit && t.value.node == s.node
  {
    assert RowOk(s.messages[m]);
  }

  /** After step e thread m is at pc. */
  predicate Leads(s: State, e: Event, m: Id, pc: Pc) {
    Step(s, e).Some? && AtPc(Step(s, e).value, m) && PcOf(Step(s, e).value, m) == pc
  }

  predicate ByDeleter(row: Row) {
    row.Live? && row.lock.Deleter?
  }

  /** The lock protocol step by step: what each step waits for, and where it leads. */
  lemma LockSteps(s: State, m: Id)
    requires AtPc(s, m)
    ensures PcOf(s, m).Started? ==>
      (Step(s, Acquire(m)).Some? <==> s.nonceLock == None) &&
      (s.nonceLock == None ==> Leads(s, Acquire(m), m, HoldsLock))
    ensures PcOf(s, m).HoldsLock? ==> Leads(s, ReadNonce(m), m, HasNonce(s.node.base + |s.node.accepted|))
    ensures PcOf(s, m).Submitted? ==>
      Leads(s, Release(m), m, Waiting(PcOf(s, m).tx)) && Step(s, Release(m)).value.nonceLock == None
  {
  }

  lemma HasDigest(s: State, m: Id)
    requires ThreadsOk(s) && AtPc(s, m)
    ensures Hex.RawDigest(s.messages[m].thread.contentHash).Some?
  {
    assert ThreadOk(s.node, s.submitter, s.nonceLock, m, s.messages[m].thread);
    Hex.NormaliseFaithful(s.messages[m].thread.contentHash);
  }

  /** A submission, lost answer or not, is accepted with the nonce read and the hash submitted. */
  lemma SubmitSteps(s: State, m: Id)
    requires ThreadsOk(s) && AtPc(s, m) && PcOf(s, m).HasNonce?
    ensures Hex.RawDigest(s.messages[m].thread.contentHash).Some?
    ensures
      var tx := Tx(PcOf(s, m).nonce, Hex.RawDigest(s.messages[m].thread.contentHash).value);
      Leads(s, Submit(m), m, Submitted(tx)) && Leads(s, SubmitLost(m), m, Ended) &&
      Step(s, Submit(m)).value.node.accepted == s.node.accepted + [tx] == Step(s, SubmitLost(m)).value.node.accepted
  {
    HasDigest(s, m);
    SubmitLeads(s, m);
  }

  lemma SubmitLeads(s: State, m: Id)
    requires AtPc(s, m) && PcOf(s, m).HasNonce? && Hex.RawDigest(s.messages[m].thread.contentHash).Some?
    ensures
      var tx := Tx(PcOf(s, m).nonce, Hex.RawDigest(s.messages[m].thread.contentHash).value);
      Leads(s, Submit(m), m, Submitted(tx)) && Leads(s, SubmitLost(m), m, Ended) &&
      Step(s, Submit(m)).value.node.accepted == s.node.accepted + [tx] == Step(s, SubmitLost(m)).value.node.accepted
  {
  }

  /** The receipt is waited for, and its status decides. */
  lemma ReceiptSteps(s: State, m: Id)
    requires AtPc(s, m) && PcOf(s, m).Waiting?
    ensures
      var tx := PcOf(s, m).tx;
      (Step(s, SeeReceipt(m)).Some? <==> HasReceipt(s.node, tx)) &&
      (HasReceipt(s.node, tx) ==> Leads(s, SeeReceipt(m), m, if Succeeded(s.node, tx) then Confirmed(tx) else Ended))
  {
  }

  /** The two statements wait for a deleter only; the row's state says what the first finds and if the second fails. */
  lemma StatementSteps(s: State, m: Id)
    requires AtPc(s, m)
    ensures
      var pc, row := PcOf(s, m), s.messages[m].row;
      (pc.Confirmed? && (row.Live? ==> row.lock.Free? || row.lock.Deleter?) ==>
        (Step(s, Update(m)).Some? <==> !ByDeleter(row)) &&
        (!ByDeleter(row) ==> Leads(s, Update(m), m, Updated(pc.tx, row.Live?)))) &&
      (pc.Updated? ==>
        (Step(s, Insert(m)).Some? <==> !ByDeleter(row)) &&
        (!ByDeleter(row) ==> Leads(s, Insert(m), m, if row.Live? then Inserted(pc.tx, pc.matched) else Ended)))
  {
  }

  lemma CommitSteps(s: State, m: Id)
    requires AtPc(s, m) && PcOf(s, m).Inserted? && RowOk(s.messages[m])
    ensures Leads(s, CommitStore(m), m, Stored(PcOf(s, m).tx, PcOf(s, m).matched))
  {
  }

  /** From the receipt to the committed pair: what each step waits for, and where it leads. */
  lemma StoreSteps(s: State, m: Id)
    requires RowsOk(s) && AtPc(s, m)
    ensures
      var pc, row := PcOf(s, m), s.messages[m].row;
      (pc.Waiting? ==>
        (Step(s, SeeReceipt(m)).Some? <==> HasReceipt(s.node, pc.tx)) &&
        (HasReceipt(s.node, pc.tx) ==>
          Leads(s, SeeReceipt(m), m, if Succeeded(s.node, pc.tx) then Confirmed(pc.tx) else Ended))) &&
      (pc.Confirmed? ==>
        (Step(s, Update(m)).Some? <==> !ByDeleter(row)) &&
        (!ByDeleter(row) ==> Leads(s, Update(m), m, Updated(pc.tx, row.Live?)))) &&
      (pc.Updated? ==>
        (Step(s, Insert(m)).Some? <==> !ByDeleter(row)) &&
        (!ByDeleter(row) ==> Leads(s, Insert(m), m, if row.Live? then Inserted(pc.tx, pc.matched) else Ended))) &&
      (pc.Inserted? ==> Leads(s, CommitStore(m), m, Stored(pc.tx, pc.matched)))
  {
    var pc := PcOf(s, m);
    assert RowOk(s.messages[m]);
    StatementSteps(s, m);
    if pc.Waiting? { ReceiptSteps(s, m); }
    if pc.Inserted? { CommitSteps(s, m); }
  }

  /** What a commit of the recorder's two statements writes. */
  lemma StoreWrites(s: State, m: Id)
    requires AtPc(s, m) && PcOf(s, m).Inserted? && RowOk(s.messages[m])
    ensures
      var t, pc := CommitStoreStep(s, m), PcOf(s, m);
      t.Some? && m < |t.value.messages| &&
      t.value.messages[m].row == Live(if pc.matched then Some(pc.tx) else None, Free) &&
      t.value.audit == s.audit + [Audit(Some(m), pc.tx, s.messages[m].thread.contentHash)]
  {
  }

  /** t is s but for the row of message m. */
  predicate OnlyRow(s: State, t: Option<State>, m: Id, row: Row) {
    m < |s.messages| && t == Some(SetRow(s, m, row))
  }

  /** The sending and deleting transactions: when their steps can happen, and what they do to the row. */
  lemma RowSteps(s: State, m: Id)
    ensures
      var row := if m < |s.messages| then s.messages[m].row else Gone;
      (if row.Uncommitted? then OnlyRow(s, Step(s, SendCommit(m)), m, Live(None, Free))
       else Step(s, SendCommit(m)) == None) &&
      (if row.Uncommitted? then OnlyRow(s, Step(s, SendAbort(m)), m, Gone)
       else Step(s, SendAbort(m)) == None) &&
      (if row.Live? && row.lock.Free? then OnlyRow(s, Step(s, DeleteStatement(m)), m, Live(row.txHash, Deleter))
       else Step(s, DeleteStatement(m)) == None) &&
      (if ByDeleter(row) then OnlyRow(s, Step(s, DeleteAbort(m)), m, Live(row.txHash, Free))
       else Step(s, DeleteAbort(m)) == None) &&
      (Step(s, DeleteCommit(m)).Some? <==> ByDeleter(row))
  {
  }

  /** An event other than a failure that can happen now and that thread m is waiting for, directly or not. */
  function Mover(s: State, m: Id): Event
    requires AtPc(s, m)
  {
    match PcOf(s, m)
    case Started => if s.nonceLock == None then Acquire(m) else HolderMove(s, s.nonceLock.value)
    case HoldsLock => ReadNonce(m)
    case HasNonce(_) => Submit(m)
    case Submitted(_) => Release(m)
    case Waiting(tx) => if HasReceipt(s.node, tx) then SeeReceipt(m) else Mine(true, 0)
    case Confirmed(_) => if ByDeleter(s.messages[m].row) then DeleteCommit(m) else Update(m)
    case Updated(_, _) => if ByDeleter(s.messages[m].row) then DeleteCommit(m) else Insert(m)
    case _ => CommitStore(m)
  }

  function HolderMove(s: State, h: Id): Event {
    if AtPc(s, h) && PcOf(s, h).HoldsLock? then ReadNonce(h)
    else if AtPc(s, h) && PcOf(s, h).HasNonce? then Submit(h)
    else Release(h)
  }

  lemma HolderMoves(s: State, h: Id)
    requires Inv(s) && s.nonceLock == Some(h)
    ensures Step(s, HolderMove(s, h)).Some?
  {
    assert ThreadOk(s.node, s.submitter, s.nonceLock, h, s.messages[h].thread);
    LockSteps(s, h);
    if PcOf(s, h).HasNonce? { SubmitSteps(s, h); }
  }

  lemma UnminedCanBeMined(s: State, m: Id)
    requires ThreadsOk(s) && AtPc(s, m) && PcOf(s, m).Waiting? && !HasReceipt(s.node, PcOf(s, m).tx)
    ensures MineStep(s, true, 0).Some?
  {
    assert ThreadOk(s.node, s.submitter, s.nonceLock, m, s.messages[m].thread);
  }

  /**
   * No deadlock: in every reachable state, as long as some recorder is neither stored nor ended, a
   * step that it is waiting for can happen without anything failing.
   */
  lemma NoDeadlock(base: nat, s: State, m: Id)
    requires Reachable(base, s) && AtPc(s, m) && !PcOf(s, m).Stored? && !PcOf(s, m).Ended?
    ensures Step(s, Mover(s, m)).Some? && !Mover(s, m).Fail?
  {
    ReachableOk(base, s);
    var pc := PcOf(s, m);
    if pc.Started? || pc.HoldsLock? || pc.HasNonce? || pc.Submitted? {
      BeforeRelease(s, m);
    } else {
      AfterRelease(s, m);
    }
  }

  lemma BeforeRelease(s: State, m: Id)
    requires Inv(s) && AtPc(s, m)
    requires PcOf(s, m).Started? || PcOf(s, m).HoldsLock? || PcOf(s, m).HasNonce? || PcOf(s, m).Submitted?
    ensures Step(s, Mover(s, m)).Some? && !Mover(s, m).Fail?
  {
    LockSteps(s, m);
    if PcOf(s, m).HasNonce? { SubmitSteps(s, m); }
    if PcOf(s, m).Started? && s.nonceLock.Some? { HolderMoves(s, s.nonceLock.value); }
  }

  lemma AfterRelease(s: State, m: Id)
    requires RowsOk(s) && ThreadsOk(s) && AtPc(s, m)
    requires PcOf(s, m).Waiting? || PcOf(s, m).Confirmed? || PcOf(s, m).Updated? || PcOf(s, m).Inserted?
    ensures Step(s, Mover(s, m)).Some? && !Mover(s, m).Fail?
  {
    StoreSteps(s, m);
    RowSteps(s, m);
    if PcOf(s, m).Waiting? && !HasReceipt(s.node, PcOf(s, m).tx) { UnminedCanBeMined(s, m); }
  }
}

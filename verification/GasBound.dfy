/**
 * What the limiter buys: over any run of the recording pipeline, how many transactions one
 * account can have had accepted by the node.
 */
module GasBound {
  import opened Common
  import opened RateLimiter
  import opened Recording
  import opened RecordingHistory

  /** Every recorder was admitted by a call of its own sender, and no two share a call. */
  predicate CallsOk(s: State) {
    (forall m :: 0 <= m < |s.messages| && s.messages[m].thread.Thread? ==> CallOk(s, m)) &&
    (forall l, m :: 0 <= l < m < |s.messages| && s.messages[l].thread.Thread? && s.messages[m].thread.Thread? ==>
      s.messages[l].thread.call != s.messages[m].thread.call)
  }

  predicate CallOk(s: State, m: Id)
    requires AtPc(s, m)
  {
    var call := s.messages[m].thread.call;
    call < |s.calls| && s.calls[call].user == s.messages[m].sender && Accepts(s.calls, MAX_PER_HOUR, call)
  }

  lemma SameCallsKeeps(s: State, t: State)
    requires CallsOk(s) && SameCalls(s, t)
    ensures CallsOk(t)
  {
    forall m | 0 <= m < |t.messages| && t.messages[m].thread.Thread? ensures CallOk(t, m) {
      assert CallOk(s, m);
    }
  }

  lemma RecordKeepsCalls(s: State, m: Id, contentHash: string, reading: real)
    requires CallsOk(s) && SendRecordStep(s, m, contentHash, reading).Some?
    ensures CallsOk(SendRecordStep(s, m, contentHash, reading).value)
  {
    var t := SendRecordStep(s, m, contentHash, reading).value;
    forall j | 0 <= j < |t.messages| && t.messages[j].thread.Thread?
      ensures CallOk(t, j) && (j != m ==> t.messages[j].thread.call < |s.calls|)
    {
      if j != m {
        assert CallOk(s, j);
        assert t.calls[..t.messages[j].thread.call] == s.calls[..t.messages[j].thread.call];
      }
    }
  }

  lemma {:induction false} RunKeepsCalls(s: State, es: seq<Event>)
    requires CallsOk(s) && Run(s, es).Some?
    ensures CallsOk(Run(s, es).value)
    decreases |es|
  {
    if es == [] {
    } else {
      var e := es[0];
      if e.SendRecord? {
        RecordKeepsCalls(s, e.m, e.contentHash, e.reading);
      } else {
        StepSameCalls(s, e);
        SameCallsKeeps(s, Step(s, e).value);
      }
      RunKeepsCalls(Step(s, e).value, es[1..]);
    }
  }

  // ---------------------------------------------------------------- counting

  predicate CallIn(c: Call, u: User, lo: real, hi: real) {
    c.user == u && lo <= c.now <= hi
  }

  /** The accepted transactions whose admission belongs to u and was read inside the window. */
  function SentIn(s: State, u: User, lo: real, hi: real): set<nat>
    requires ThreadsOk(s) && CallsOk(s)
  {
    set i: nat | i < |s.submitter| && AtPc(s, s.submitter[i]) && CallIn(CallFor(s, i), u, lo, hi)
  }

  /** The limiter call that admitted accepted transaction i. */
  function CallIndex(s: State, i: nat): nat
    requires ThreadsOk(s) && i < |s.submitter|
  {
    assert AtPc(s, s.submitter[i]);
    s.messages[s.submitter[i]].thread.call
  }

  function CallFor(s: State, i: nat): Call
    requires ThreadsOk(s) && CallsOk(s) && i < |s.submitter|
  {
    assert AtPc(s, s.submitter[i]) && CallOk(s, s.submitter[i]);
    s.calls[CallIndex(s, i)]
  }

  /** The accepted calls of u inside the window. */
  function AcceptedIn(calls: seq<Call>, u: User, lo: real, hi: real): (r: set<nat>)
    ensures forall c :: c in r ==> c < |calls|
  {
    if calls == [] then {}
    else
      var n := |calls| - 1;
      var older := AcceptedIn(calls[..n], u, lo, hi);
      if Accepts(calls, MAX_PER_HOUR, n) && CallIn(calls[n], u, lo, hi) then older + {n} else older
  }

  lemma {:induction false} AcceptedInHas(calls: seq<Call>, u: User, lo: real, hi: real, c: nat)
    requires c < |calls|
    ensures c in AcceptedIn(calls, u, lo, hi) <==> Accepts(calls, MAX_PER_HOUR, c) && CallIn(calls[c], u, lo, hi)
  {
    var n := |calls| - 1;
    if c == n {
    } else {
      AcceptedInHas(calls[..n], u, lo, hi, c);
      assert calls[..n][..c] == calls[..c];
    }
  }

  lemma {:induction false} AcceptedInCount(calls: seq<Call>, u: User, lo: real, hi: real)
    ensures |AcceptedIn(calls, u, lo, hi)| == CountIn(AcceptedTimes(calls, MAX_PER_HOUR, u), lo, hi)
  {
    if calls == [] {
    } else {
      var n := |calls| - 1;
      AcceptedInCount(calls[..n], u, lo, hi);
      CountAppend(AcceptedTimes(calls[..n], MAX_PER_HOUR, u), calls[n].now, lo, hi);
    }
  }

  /** A set maps one to one into another only if it is no larger. */
  lemma {:induction false} Injection(a: set<nat>, b: set<nat>, f: map<nat, nat>)
    requires forall x :: x in a ==> x in f && f[x] in b
    requires forall x, y :: x in a && y in a && x != y ==> f[x] != f[y]
    ensures |a| <= |b|
    decreases |a|
  {
    if a == {} {
    } else {
      var x :| x in a;
      Injection(a - {x}, b - {f[x]}, f);
    }
  }

  lemma SentNotMore(s: State, u: User, lo: real, hi: real)
    requires ThreadsOk(s) && CallsOk(s)
    ensures |SentIn(s, u, lo, hi)| <= |AcceptedIn(s.calls, u, lo, hi)|
  {
    var f := map i: nat | i < |s.submitter| :: CallIndex(s, i);
    forall i | i in SentIn(s, u, lo, hi) ensures f[i] in AcceptedIn(s.calls, u, lo, hi) {
      assert AtPc(s, s.submitter[i]) && CallOk(s, s.submitter[i]);
      AcceptedInHas(s.calls, u, lo, hi, f[i]);
    }
    forall i, j | i in SentIn(s, u, lo, hi) && j in SentIn(s, u, lo, hi) && i != j ensures f[i] != f[j] {
      assert AtPc(s, s.submitter[i]) && AtPc(s, s.submitter[j]);
      assert s.submitter[i] != s.submitter[j];
    }
    Injection(SentIn(s, u, lo, hi), AcceptedIn(s.calls, u, lo, hi), f);
  }

  /** The send of message m was asked for by u, with a clock reading inside the window. */
  predicate AskedIn(es: seq<Event>, m: Id, u: User, lo: real, hi: real) {
    m < |Senders(es)| && Senders(es)[m] == u &&
    exists k :: 0 <= k < |es| && IsAsk(es[k], m) && lo <= es[k].reading <= hi
  }

  lemma AskedWasSent(es: seq<Event>, s: State, i: nat, u: User, lo: real, hi: real)
    requires Traced(es, s) && ThreadsOk(s) && CallsOk(s) && i < |s.submitter| && AskedIn(es, s.submitter[i], u, lo, hi)
    ensures i in SentIn(s, u, lo, hi)
  {
    var m := s.submitter[i];
    assert AtPc(s, m) && CallOk(s, m);
    var k :| 0 <= k < |es| && IsAsk(es[k], m) && lo <= es[k].reading <= hi;
    assert AskOf(es, k, s.messages[m]);
    AskedAt(es, k);
  }

  /**
   * In every run, if no clock reading of a send lags an earlier lock holder's by more than d, then of
   * the transactions the node has accepted, at most ten belong to sends of one user read inside any
   * window shorter than 3600 - d seconds, however threads, deletions and failures interleave.
   */
  lemma GasPerUser(base: nat, es: seq<Event>, u: User, d: real, lo: real, hi: real)
    requires Run(Initial(base), es).Some? && Lagged(Asked(es), d)
    requires 0.0 <= d <= 3600.0 && hi - lo < 3600.0 - d
    ensures
      var s := Run(Initial(base), es).value;
      |set i: nat | i < |s.submitter| && AskedIn(es, s.submitter[i], u, lo, hi)| <= 10
  {
    var s := Run(Initial(base), es).value;
    RunKeeps(Initial(base), es);
    RunKeepsCalls(Initial(base), es);
    RunTraced(base, es);
    SentNotMore(s, u, lo, hi);
    AcceptedInCount(s.calls, u, lo, hi);
    WindowBound(s.calls, MAX_PER_HOUR, u, d, lo, hi);
    var asked := set i: nat | i < |s.submitter| && AskedIn(es, s.submitter[i], u, lo, hi);
    forall i | i in asked ensures i in SentIn(s, u, lo, hi) {
      AskedWasSent(es, s, i, u, lo, hi);
    }
    Subset(asked, SentIn(s, u, lo, hi));
  }

  lemma Subset(a: set<nat>, b: set<nat>)
    requires a <= b
    ensures |a| <= |b|
  {
    Injection(a, b, map x | x in a :: x);
  }
}

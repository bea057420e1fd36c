/**
 * The per-user limit on on-chain records: a sliding window of one hour, kept as a pruned list of
 * clock readings. Calls are numbered in the order in which they take the lock; each carries the
 * clock reading its thread made before asking for the lock.
 */
module RateLimiter {

  type User = int

  const WINDOW: real := 3600.0

  type Table = map<User, seq<real>>

  datatype Call = Call(user: User, now: real)

  function Recent(times: seq<real>, now: real): seq<real> {
    if times == [] then []
    else
      var older, t := Recent(times[..|times| - 1], now), times[|times| - 1];
      if now - t < WINDOW then older + [t] else older
  }

  function Lookup(table: Table, user: User): seq<real> {
    if user in table then table[user] else []
  }

  predicate Admits(times: seq<real>, now: real, max: int) {
    |Recent(times, now)| < max
  }

  function AfterCall(table: Table, c: Call, max: int): Table {
    var times := Lookup(table, c.user);
    if Admits(times, c.now, max) then table[c.user := Recent(times, c.now) + [c.now]] else table
  }

  /** The limiter's table; the lock makes each call one step. */
  class Limiter {
    var rate: Table

    constructor ()
      ensures rate == map[]
    {
      rate := map[];
    }

    method BlockchainRateOk(user: User, now: real, max: int) returns (ok: bool)
      modifies this
      ensures ok <==> Admits(Lookup(old(rate), user), now, max)
      ensures rate == AfterCall(old(rate), Call(user, now), max)
    {
      var times := if user in rate then rate[user] else [];
      var recent := [];
      for i := 0 to |times|
        invariant recent == Recent(times[..i], now)
      {
        assert times[..i + 1][..i] == times[..i];
        if now - times[i] < WINDOW {
          recent := recent + [times[i]];
        }
      }
      assert times[..|times|] == times;
      if |recent| >= max {
        return false;
      }
      rate := rate[user := recent + [now]];
      ok := true;
    }
  }

  // ---------------------------------------------------------------- runs

  function TableAfter(calls: seq<Call>, max: int): Table {
    if calls == [] then map[]
    else AfterCall(TableAfter(calls[..|calls| - 1], max), calls[|calls| - 1], max)
  }

  /** The verdict on call i of the run. */
  predicate Accepts(calls: seq<Call>, max: int, i: nat)
    requires i < |calls|
  {
    Admits(Lookup(TableAfter(calls[..i], max), calls[i].user), calls[i].now, max)
  }

  /** Readings of all the calls of u that were accepted, in lock order, none ever dropped. */
  function AcceptedTimes(calls: seq<Call>, max: int, u: User): seq<real> {
    if calls == [] then []
    else
      var n := |calls| - 1;
      var earlier := AcceptedTimes(calls[..n], max, u);
      if calls[n].user == u && Accepts(calls, max, n) then earlier + [calls[n].now] else earlier
  }

  function CountIn(times: seq<real>, lo: real, hi: real): nat {
    if times == [] then 0
    else
      var t := times[|times| - 1];
      CountIn(times[..|times| - 1], lo, hi) + (if lo <= t <= hi then 1 else 0)
  }

  /** No reading lags an earlier lock holder's reading by more than d. */
  predicate Lagged(calls: seq<Call>, d: real) {
    forall i, j :: 0 <= i < j < |calls| ==> calls[j].now >= calls[i].now - d
  }

  predicate ReadBy(calls: seq<Call>, clock: real) {
    forall i :: 0 <= i < |calls| ==> calls[i].now <= clock
  }

  // ---------------------------------------------------------------- facts about the window

  lemma RecentAppend(times: seq<real>, t: real, now: real)
    ensures Recent(times + [t], now) == if now - t < WINDOW then Recent(times, now) + [t] else Recent(times, now)
  {
    assert (times + [t])[..|times|] == times;
  }

  lemma CountAppend(times: seq<real>, t: real, lo: real, hi: real)
    ensures CountIn(times + [t], lo, hi) == CountIn(times, lo, hi) + (if lo <= t <= hi then 1 else 0)
  {
    assert (times + [t])[..|times|] == times;
  }

  /** Pruning at an earlier time loses nothing that a later window sees. */
  lemma {:induction false} RecentTwice(times: seq<real>, now: real, later: real)
    requires now <= later
    ensures Recent(Recent(times, now), later) == Recent(times, later)
  {
    if times == [] {
    } else {
      var rest, t := times[..|times| - 1], times[|times| - 1];
      RecentTwice(rest, now, later);
      RecentAppend(Recent(rest, now), t, later);
    }
  }

  /** A window that starts inside the hour before now counts only recent entries. */
  lemma {:induction false} CountRecent(times: seq<real>, now: real, lo: real, hi: real)
    requires now - lo < WINDOW
    ensures CountIn(times, lo, hi) == CountIn(Recent(times, now), lo, hi) <= |Recent(times, now)|
  {
    if times == [] {
    } else {
      var rest, t := times[..|times| - 1], times[|times| - 1];
      CountRecent(rest, now, lo, hi);
      assert lo <= t <= hi ==> now - t < WINDOW;
      CountAppend(Recent(rest, now), t, lo, hi);
    }
  }

  // ---------------------------------------------------------------- pruning loses nothing

  /** Seen from the latest reading onwards, the pruned list and the full log are the same. */
  lemma {:induction false} PrunedMatchesLog(calls: seq<Call>, max: int, u: User, clock: real)
    requires ReadBy(calls, clock)
    ensures Recent(Lookup(TableAfter(calls, max), u), clock) == Recent(AcceptedTimes(calls, max, u), clock)
  {
    if calls == [] {
    } else {
      var n := |calls| - 1;
      var c := calls[n];
      PrunedMatchesLog(calls[..n], max, u, clock);
      if c.user == u && Accepts(calls, max, n) {
        var kept, log := Lookup(TableAfter(calls[..n], max), u), AcceptedTimes(calls[..n], max, u);
        RecentTwice(kept, c.now, clock);
        RecentAppend(Recent(kept, c.now), c.now, clock);
        RecentAppend(log, c.now, clock);
      }
    }
  }

  /** How many of these readings are less than 3600 seconds before now. */
  function InLastHour(times: seq<real>, now: real): nat {
    if times == [] then 0
    else InLastHour(times[..|times| - 1], now) + (if now - times[|times| - 1] < 3600.0 then 1 else 0)
  }

  lemma {:induction false} RecentCounts(times: seq<real>, now: real)
    ensures |Recent(times, now)| == InLastHour(times, now)
  {
    if times == [] {
    } else {
      RecentCounts(times[..|times| - 1], now);
    }
  }

  /**
   * Serialised calls with a clock that never goes back: a call is accepted exactly when fewer than
   * max of the same user's accepted calls, out of all of them, lie in the last 3600 seconds.
   */
  lemma VerdictIsWindowCount(calls: seq<Call>, max: int, i: nat)
    requires i < |calls| && Lagged(calls, 0.0)
    ensures
      var c := calls[i];
      Accepts(calls, max, i) <==> InLastHour(AcceptedTimes(calls[..i], max, c.user), c.now) < max
  {
    assert ReadBy(calls[..i], calls[i].now);
    PrunedMatchesLog(calls[..i], max, calls[i].user, calls[i].now);
    RecentCounts(AcceptedTimes(calls[..i], max, calls[i].user), calls[i].now);
  }

  function CallsOf(calls: seq<Call>, u: User): seq<Call> {
    if calls == [] then []
    else
      var own, c := CallsOf(calls[..|calls| - 1], u), calls[|calls| - 1];
      if c.user == u then own + [c] else own
  }

  /** Users never affect each other: u's list is what u's own calls alone would have produced. */
  lemma {:induction false} UsersIndependent(calls: seq<Call>, max: int, u: User)
    ensures Lookup(TableAfter(calls, max), u) == Lookup(TableAfter(CallsOf(calls, u), max), u)
    ensures AcceptedTimes(calls, max, u) == AcceptedTimes(CallsOf(calls, u), max, u)
  {
    if calls == [] {
    } else {
      var n := |calls| - 1;
      var c := calls[n];
      var own := CallsOf(calls[..n], u);
      UsersIndependent(calls[..n], max, u);
      if c.user == u {
        assert CallsOf(calls, u) == own + [c];
        assert (own + [c])[..|own|] == own;
      }
    }
  }

  // ---------------------------------------------------------------- the bound under threads

  /**
   * Threads read the clock before they take the lock. If no reading lags the earlier holders'
   * readings by more than d, any window shorter than an hour less d holds at most max of one
   * user's accepted calls, over the whole run.
   */
  lemma {:induction false} WindowBound(calls: seq<Call>, max: int, u: User, d: real, lo: real, hi: real)
    requires 0.0 <= d <= 3600.0 && Lagged(calls, d) && hi - lo < 3600.0 - d
    ensures CountIn(AcceptedTimes(calls, max, u), lo, hi) <= if max < 0 then 0 else max
  {
    if calls == [] {
    } else {
      var n := |calls| - 1;
      var c := calls[n];
      WindowBound(calls[..n], max, u, d, lo, hi);
      var log := AcceptedTimes(calls[..n], max, u);
      if c.user == u && Accepts(calls, max, n) {
        CountAppend(log, c.now, lo, hi);
        if lo <= c.now <= hi {
          InsideWindow(calls[..n], max, u, c.now, d, lo, hi);
        }
      }
    }
  }

  /** The accepted calls of a window around now are all still on the list. */
  lemma InsideWindow(calls: seq<Call>, max: int, u: User, now: real, d: real, lo: real, hi: real)
    requires forall i :: 0 <= i < |calls| ==> now >= calls[i].now - d
    requires 0.0 <= d && lo <= now <= hi && hi - lo < WINDOW - d
    ensures CountIn(AcceptedTimes(calls, max, u), lo, hi) <= |Recent(Lookup(TableAfter(calls, max), u), now)|
  {
    var clock := now + d;
    var kept, log := Lookup(TableAfter(calls, max), u), AcceptedTimes(calls, max, u);
    PrunedMatchesLog(calls, max, u, clock);
    CountRecent(log, clock, lo, hi);
    CountRecent(kept, clock, lo, hi);
    CountRecent(kept, now, lo, hi);
  }

  // ---------------------------------------------------------------- the bound is tight

  function Zeros(n: nat, u: User): seq<Call> {
    seq(n, i => Call(u, 0.0))
  }

  lemma {:induction false} ZerosAccepted(n: nat, max: int, u: User)
    requires n <= max
    ensures Lookup(TableAfter(Zeros(n, u), max), u) == seq(n, i => 0.0) == AcceptedTimes(Zeros(n, u), max, u)
  {
    if n == 0 {
    } else {
      ZerosAccepted(n - 1, max, u);
      assert Zeros(n, u)[..n - 1] == Zeros(n - 1, u);
      AllRecent(n - 1);
    }
  }

  lemma {:induction false} AllRecent(n: nat)
    ensures Recent(seq(n, i => 0.0), 0.0) == seq(n, i => 0.0)
    ensures Recent(seq(n, i => 0.0), WINDOW) == []
  {
    if n == 0 {
    } else {
      AllRecent(n - 1);
      assert seq(n, i => 0.0)[..n - 1] == seq(n - 1, i => 0.0);
    }
  }

  lemma {:induction false} AllCounted(n: nat, hi: real)
    requires hi >= 0.0
    ensures CountIn(seq(n, i => 0.0), 0.0, hi) == n
  {
    if n == 0 {
    } else {
      AllCounted(n - 1, hi);
      assert seq(n, i => 0.0)[..n - 1] == seq(n - 1, i => 0.0);
    }
  }

  /** max calls at time 0, one an hour later, then one whose reading lags it by d. */
  function LateReader(max: int, u: User, d: real): seq<Call>
    requires max >= 0
  {
    Zeros(max, u) + [Call(u, WINDOW), Call(u, WINDOW - d)]
  }

  /** With any lag at all, a window of an hour less d can hold one call too many. */
  lemma BoundIsTight(max: int, u: User, d: real)
    requires max >= 2 && 0.0 < d <= 3600.0
    ensures Lagged(LateReader(max, u, d), d)
    ensures CountIn(AcceptedTimes(LateReader(max, u, d), max, u), 0.0, 3600.0 - d) == max + 1
  {
    LateReaderRun(max, u, d);
    LateReaderCount(max, d);
  }

  lemma LateReaderCount(max: nat, d: real)
    requires 0.0 < d <= WINDOW
    ensures CountIn(seq(max, i => 0.0) + [WINDOW] + [WINDOW - d], 0.0, WINDOW - d) == max + 1
  {
    var ts := seq(max, i => 0.0);
    AllCounted(max, WINDOW - d);
    CountAppend(ts, WINDOW, 0.0, WINDOW - d);
    CountAppend(ts + [WINDOW], WINDOW - d, 0.0, WINDOW - d);
  }

  lemma LateReaderRun(max: int, u: User, d: real)
    requires max >= 2 && 0.0 < d <= WINDOW
    ensures AcceptedTimes(LateReader(max, u, d), max, u) == seq(max, i => 0.0) + [WINDOW] + [WINDOW - d]
  {
    var one := Zeros(max, u) + [Call(u, WINDOW)];
    AfterAnHour(max, u);
    assert Recent([WINDOW], WINDOW - d) == [WINDOW] by { RecentAppend([], WINDOW, WINDOW - d); }
    OneMore(one, Call(u, WINDOW - d), max);
    assert LateReader(max, u, d) == one + [Call(u, WINDOW - d)];
  }

  lemma OneMore(calls: seq<Call>, c: Call, max: int)
    requires Admits(Lookup(TableAfter(calls, max), c.user), c.now, max)
    ensures AcceptedTimes(calls + [c], max, c.user) == AcceptedTimes(calls, max, c.user) + [c.now]
  {
    assert (calls + [c])[..|calls|] == calls;
  }

  lemma AfterAnHour(max: int, u: User)
    requires max >= 2
    ensures
      var calls := Zeros(max, u) + [Call(u, WINDOW)];
      Lookup(TableAfter(calls, max), u) == [WINDOW] &&
      AcceptedTimes(calls, max, u) == seq(max, i => 0.0) + [WINDOW]
  {
    ZerosAccepted(max, max, u);
    AllRecent(max);
    assert (Zeros(max, u) + [Call(u, WINDOW)])[..max] == Zeros(max, u);
  }
}

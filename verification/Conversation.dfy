/** The native client's conversation index: messages filed by participant pair. */
module Conversations {
  import opened Common

  datatype Message = Message(
    id: string, sender: string, recipient: string, ciphertext: string, ephPub: string, timestamp: int)

  /** Lexicographic order on user names. */
  predicate Less(a: string, b: string) {
    b != "" && (a == "" || a[0] < b[0] || (a[0] == b[0] && Less(a[1..], b[1..])))
  }

  function MakeKey(a: string, b: string): string {
    if Less(a, b) then a + "|" + b else b + "|" + a
  }

  function KeyOf(m: Message): string {
    MakeKey(m.sender, m.recipient)
  }

  // ---------------------------------------------------------------- keys

  /** What registration accepts as a user name. */
  predicate IsUsername(v: string) {
    1 <= |v| <= 64 &&
    forall i :: 0 <= i < |v| ==>
      'A' <= v[i] <= 'Z' || 'a' <= v[i] <= 'z' || '0' <= v[i] <= '9' || v[i] == '_' || v[i] == '-'
  }

  predicate NoBar(name: string) {
    '|' !in name
  }

  predicate NoBars(ms: seq<Message>) {
    forall m :: m in ms ==> NoBar(m.sender) && NoBar(m.recipient)
  }

  lemma {:induction false} LessIsStrictOrder(a: string, b: string)
    ensures !(Less(a, b) && Less(b, a))
    ensures a == b || Less(a, b) || Less(b, a)
    ensures Less(a, b) ==> a != b
  {
    if a == "" || b == "" || a[0] != b[0] {
    } else {
      LessIsStrictOrder(a[1..], b[1..]);
      assert a == [a[0]] + a[1..] && b == [b[0]] + b[1..];
    }
  }

  lemma FirstBar(s: string, a: string, b: string)
    requires NoBar(a) && s == a + "|" + b
    ensures |a| < |s| && s[|a|] == '|' && forall i :: 0 <= i < |a| ==> s[i] != '|'
    ensures a == s[..|a|] && b == s[|a| + 1..]
  {
    assert forall i :: 0 <= i < |a| ==> s[i] == a[i];
  }

  lemma SplitAtBar(a: string, b: string, c: string, d: string)
    requires NoBar(a) && NoBar(c) && a + "|" + b == c + "|" + d
    ensures a == c && b == d
  {
    FirstBar(a + "|" + b, a, b);
    FirstBar(a + "|" + b, c, d);
  }

  /** Two pairs share a key exactly when they are the same pair, in either order. */
  lemma KeyEqualIff(a: string, b: string, c: string, d: string)
    requires NoBar(a) && NoBar(b) && NoBar(c) && NoBar(d)
    ensures MakeKey(a, b) == MakeKey(c, d) <==> (a == c && b == d) || (a == d && b == c)
  {
    LessIsStrictOrder(a, b);
    var (x, y) := if Less(a, b) then (a, b) else (b, a);
    var (z, w) := if Less(c, d) then (c, d) else (d, c);
    if MakeKey(a, b) == MakeKey(c, d) {
      SplitAtBar(x, y, z, w);
    }
  }

  /** Registered users never share a thread with another pair. */
  lemma RegisteredKeyIff(a: string, b: string, c: string, d: string)
    requires IsUsername(a) && IsUsername(b) && IsUsername(c) && IsUsername(d)
    ensures MakeKey(a, b) == MakeKey(c, d) <==> {a, b} == {c, d}
  {
    KeyEqualIff(a, b, c, d);
    assert a in {a, b} && b in {a, b} && c in {c, d} && d in {c, d};
  }

  /** Without that guarantee distinct pairs can share a thread. */
  lemma BarCollides()
    ensures MakeKey("a", "b|c") == MakeKey("a|b", "c")
  {
    assert "a" + "|" + "b|c" == "a|b" + "|" + "c";
    assert "b|c"[0] == 'b' && "a|b"[0] == 'a' && "c"[0] == 'c' && "a"[0] == 'a';
  }

  // ---------------------------------------------------------------- the flat list

  /** The messages filed under key k, oldest addition first. */
  function Filed(ms: seq<Message>, k: string): seq<Message> {
    if ms == [] then []
    else
      var earlier, m := Filed(ms[..|ms| - 1], k), ms[|ms| - 1];
      if KeyOf(m) == k then earlier + [m] else earlier
  }

  predicate IsBetween(m: Message, a: string, b: string) {
    (m.sender == a && m.recipient == b) || (m.sender == b && m.recipient == a)
  }

  /** The messages between a and b in either direction. */
  function Between(ms: seq<Message>, a: string, b: string): seq<Message> {
    if ms == [] then []
    else
      var earlier, m := Between(ms[..|ms| - 1], a, b), ms[|ms| - 1];
      if IsBetween(m, a, b) then earlier + [m] else earlier
  }

  lemma {:induction false} FiledIsBetween(ms: seq<Message>, a: string, b: string)
    requires NoBars(ms) && NoBar(a) && NoBar(b)
    ensures Filed(ms, MakeKey(a, b)) == Between(ms, a, b)
  {
    if ms == [] {
    } else {
      var m := ms[|ms| - 1];
      assert m in ms;
      FiledIsBetween(ms[..|ms| - 1], a, b);
      KeyEqualIff(m.sender, m.recipient, a, b);
    }
  }

  /** How many of the messages have their key in ks. */
  function CountUnder(ms: seq<Message>, ks: set<string>): nat {
    if ms == [] then 0
    else CountUnder(ms[..|ms| - 1], ks) + (if KeyOf(ms[|ms| - 1]) in ks then 1 else 0)
  }

  lemma {:induction false} CountOneMore(ms: seq<Message>, ks: set<string>, k: string)
    requires k !in ks
    ensures CountUnder(ms, ks + {k}) == CountUnder(ms, ks) + |Filed(ms, k)|
  {
    if ms == [] {
    } else {
      CountOneMore(ms[..|ms| - 1], ks, k);
    }
  }

  lemma {:induction false} CountAll(ms: seq<Message>, ks: set<string>)
    requires forall m :: m in ms ==> KeyOf(m) in ks
    ensures CountUnder(ms, ks) == |ms|
  {
    if ms == [] {
    } else {
      assert ms[|ms| - 1] in ms;
      CountAll(ms[..|ms| - 1], ks);
    }
  }

  lemma {:induction false} CountNone(ms: seq<Message>)
    ensures CountUnder(ms, {}) == 0
  {
    if ms == [] {
    } else {
      CountNone(ms[..|ms| - 1]);
    }
  }

  // ---------------------------------------------------------------- sorting

  predicate SortedByTime(s: seq<Message>) {
    forall i, j :: 0 <= i < j < |s| ==> s[i].timestamp <= s[j].timestamp
  }

  predicate SameMessages(s: seq<Message>, t: seq<Message>) {
    multiset(s) == multiset(t)
  }

  /** The first n + 1 elements are in order but for the one at i, which may be too small for its place. */
  predicate SortedBut(s: seq<Message>, i: nat, n: nat) {
    n < |s| && forall p, q :: 0 <= p < q <= n && q != i ==> s[p].timestamp <= s[q].timestamp
  }

  lemma SwapKeeps(s: seq<Message>, i: nat, n: nat)
    requires 0 < i <= n && SortedBut(s, i, n) && s[i].timestamp < s[i - 1].timestamp
    ensures SortedBut(s[i - 1 := s[i]][i := s[i - 1]], i - 1, n)
  {
  }

  lemma SwapSame(s: seq<Message>, i: nat)
    requires 0 < i < |s|
    ensures SameMessages(s[i - 1 := s[i]][i := s[i - 1]], s)
  {
  }

  lemma SortedThrough(s: seq<Message>, i: nat, n: nat)
    requires i <= n && SortedBut(s, i, n) && (i > 0 ==> s[i - 1].timestamp <= s[i].timestamp)
    ensures SortedByTime(s[..n + 1])
  {
    forall p, q | 0 <= p < q <= n ensures s[p].timestamp <= s[q].timestamp {
      assert q == i && p < i - 1 ==> s[p].timestamp <= s[i - 1].timestamp;
    }
  }

  /** Move the last of the first n + 1 elements down to its place among the others. */
  method Insert(a: array<Message>, n: nat)
    requires n < a.Length && SortedByTime(a[..n])
    modifies a
    ensures SortedByTime(a[..n + 1]) && SameMessages(a[..], old(a[..]))
  {
    var i := n;
    while i > 0 && a[i].timestamp < a[i - 1].timestamp
      invariant 0 <= i <= n
      invariant SortedBut(a[..], i, n)
      invariant SameMessages(a[..], old(a[..]))
    {
      SwapKeeps(a[..], i, n);
      SwapSame(a[..], i);
      ghost var swapped := a[..][i - 1 := a[i]][i := a[i - 1]];
      a[i - 1], a[i] := a[i], a[i - 1];
      assert a[..] == swapped;
      i := i - 1;
    }
    SortedThrough(a[..], i, n);
    assert a[..][..n + 1] == a[..n + 1];
  }

  /** std::sort by timestamp; which of two equal timestamps comes first is not promised. */
  method SortByTime(a: array<Message>)
    modifies a
    ensures SortedByTime(a[..]) && SameMessages(a[..], old(a[..]))
  {
    var n := 0;
    while n < a.Length
      invariant 0 <= n <= a.Length
      invariant SortedByTime(a[..n]) && SameMessages(a[..], old(a[..]))
    {
      Insert(a, n);
      n := n + 1;
    }
    assert a[..n] == a[..];
  }

  // ---------------------------------------------------------------- the index

  class Conversation {
    var threads: map<string, seq<Message>>
    /** Everything ever added, in order. */
    ghost var added: seq<Message>

    ghost predicate Valid()
      reads this
    {
      (forall k :: k in threads <==> Filed(added, k) != []) &&
      (forall k :: k in threads ==> threads[k] == Filed(added, k))
    }

    constructor ()
      ensures Valid() && added == []
    {
      threads := map[];
      added := [];
    }

    /** A null pointer is ignored. */
    method AddMessage(message: Option<Message>)
      requires Valid()
      modifies this
      ensures Valid()
      ensures added == if message.Some? then old(added) + [message.value] else old(added)
    {
      if message.None? { return; }
      var m := message.value;
      var key := MakeKey(m.sender, m.recipient);
      assert (added + [m])[..|added|] == added;
      threads := threads[key := (if key in threads then threads[key] else []) + [m]];
      added := added + [m];
    }

    method GetThread(userA: string, userB: string) returns (result: seq<Message>)
      requires Valid()
      ensures SortedByTime(result) && SameMessages(result, Filed(added, MakeKey(userA, userB)))
      ensures NoBars(added) && NoBar(userA) && NoBar(userB) ==>
        SameMessages(result, Between(added, userA, userB))
    {
      var key := MakeKey(userA, userB);
      if NoBars(added) && NoBar(userA) && NoBar(userB) { FiledIsBetween(added, userA, userB); }
      if key !in threads { return []; }
      var thread := threads[key];
      var pointers := new Message[|thread|](i requires 0 <= i < |thread| => thread[i]);
      assert pointers[..] == thread;
      SortByTime(pointers);
      result := pointers[..];
    }

    method MessageCount(userA: string, userB: string) returns (n: nat)
      requires Valid()
      ensures n == |Filed(added, MakeKey(userA, userB))|
      ensures NoBars(added) && NoBar(userA) && NoBar(userB) ==> n == |Between(added, userA, userB)|
    {
      var key := MakeKey(userA, userB);
      if NoBars(added) && NoBar(userA) && NoBar(userB) { FiledIsBetween(added, userA, userB); }
      n := if key in threads then |threads[key]| else 0;
    }

    /** std::max_element: the first message with the largest timestamp. */
    method FindLatest(userA: string, userB: string) returns (latest: Option<Message>)
      requires Valid()
      ensures latest == Latest(Filed(added, MakeKey(userA, userB)))
    {
      var key := MakeKey(userA, userB);
      if key !in threads || |threads[key]| == 0 { return None; }
      var thread := threads[key];
      var best := 0;
      assert thread[..1] == [thread[0]];
      for i := 1 to |thread|
        invariant best < i && Latest(thread[..i]) == Some(thread[best])
      {
        assert thread[..i + 1][..i] == thread[..i];
        if thread[best].timestamp < thread[i].timestamp {
          best := i;
        }
      }
      assert thread[..|thread|] == thread;
      latest := Some(thread[best]);
    }

    method TotalCount() returns (total: nat)
      requires Valid()
      ensures total == |added|
    {
      total := 0;
      var keys := threads.Keys;
      ghost var done: set<string> := {};
      CountNone(added);
      while keys != {}
        invariant done !! keys && done + keys == threads.Keys
        invariant total == CountUnder(added, done)
        decreases |keys|
      {
        var k :| k in keys;
        CountOneMore(added, done, k);
        total := total + |threads[k]|;
        keys, done := keys - {k}, done + {k};
      }
      forall m | m in added ensures KeyOf(m) in done { FiledHas(added, m); }
      CountAll(added, done);
    }
  }

  lemma {:induction false} FiledHas(ms: seq<Message>, m: Message)
    requires m in ms
    ensures m in Filed(ms, KeyOf(m))
  {
    if ms[|ms| - 1] == m {
    } else {
      FiledHas(ms[..|ms| - 1], m);
    }
  }

  // ---------------------------------------------------------------- latest

  /** The first message with the largest timestamp. */
  function Latest(s: seq<Message>): Option<Message> {
    if s == [] then None
    else
      var l, m := Latest(s[..|s| - 1]), s[|s| - 1];
      if l.None? || l.value.timestamp < m.timestamp then Some(m) else l
  }

  lemma {:induction false} LatestIsMaximum(s: seq<Message>)
    requires s != []
    ensures Latest(s).Some? && Latest(s).value in s
    ensures forall m :: m in s ==> m.timestamp <= Latest(s).value.timestamp
  {
    if |s| <= 1 {
    } else {
      LatestIsMaximum(s[..|s| - 1]);
    }
  }

  /** One pass finds the timestamp at the end of the sorted thread, however ties were ordered. */
  lemma LatestEndsThread(thread: seq<Message>, sorted: seq<Message>)
    requires SortedByTime(sorted) && SameMessages(sorted, thread) && thread != []
    ensures sorted != [] && Latest(thread).Some?
    ensures Latest(thread).value.timestamp == sorted[|sorted| - 1].timestamp
  {
    LatestIsMaximum(thread);
    var latest := Latest(thread).value;
    assert latest in multiset(sorted);
    var last := sorted[|sorted| - 1];
    assert last in multiset(thread);
  }
}

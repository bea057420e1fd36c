/** The on-chain log of content digests, and the page that checks a message against it. */
module DigestLog {
  import opened Common
  import Hex

  type Address = nat

  datatype Record = Record(hash: Bytes, timestamp: nat)

  /** Entries of a transaction receipt as the verification page parses them; address is the emitting contract's. */
  datatype Log =
    | DigestRecorded(address: Address, hash: Bytes, timestamp: nat, index: nat)
    | OtherEvent(address: Address)
    | Unparseable(address: Address)

  /** What recordDigest does to the log when the owner calls it. */
  function Appended(records: seq<Record>, hash: Bytes, timestamp: nat): seq<Record> {
    records + [Record(hash, timestamp)]
  }

  /** The event of that call; records is the log before it. */
  function EventOf(address: Address, records: seq<Record>, hash: Bytes, timestamp: nat): Log {
    DigestRecorded(address, hash, timestamp, |records|)
  }

  /** The contract's storage. A failed require reverts: no event, nothing written. */
  class MessageDigest {
    const owner: Address
    const address: Address
    var records: seq<Record>

    constructor (sender: Address, address: Address)
      ensures owner == sender && this.address == address && records == []
    {
      owner := sender;
      this.address := address;
      records := [];
    }

    method RecordDigest(sender: Address, hash: Bytes, blockTime: nat) returns (emitted: Option<Log>)
      modifies this
      ensures sender != owner ==> emitted == None && records == old(records)
      ensures sender == owner ==>
        records == old(records) + [Record(hash, blockTime)] == Appended(old(records), hash, blockTime) &&
        emitted == Some(DigestRecorded(address, hash, blockTime, |old(records)|)) &&
        emitted == Some(EventOf(address, old(records), hash, blockTime))
    {
      if sender != owner { return None; }
      var index := |records|;
      records := records + [Record(hash, blockTime)];
      emitted := Some(DigestRecorded(address, hash, blockTime, index));
    }

    method GetRecord(index: nat) returns (r: Option<Record>)
      ensures r == if index < |records| then Some(records[index]) else None
    {
      if !(index < |records|) { return None; }
      r := Some(records[index]);
    }

    method GetRecordCount() returns (n: nat)
      ensures n == |records|
    {
      n := |records|;
    }
  }

  // ---------------------------------------------------------------- the verification page

  datatype Verdict = Verified | Rejected | Error

  /** The first DigestRecorded entry carries this digest. */
  predicate FirstIs(logs: seq<Log>, hash: Bytes) {
    exists i :: 0 <= i < |logs| && FirstAt(logs, i) && logs[i].hash == hash
  }

  predicate FirstAt(logs: seq<Log>, i: nat)
    requires i < |logs|
  {
    logs[i].DigestRecorded? && forall j :: 0 <= j < i ==> !logs[j].DigestRecorded?
  }

  /** How both libraries print a digest. */
  function Printed(hash: Bytes): string {
    "0x" + Hex.ToHex(hash)
  }

  lemma PrintedInjective(h: Bytes, k: Bytes)
    ensures Hex.Lower(Printed(h)) == Hex.Lower(Printed(k)) <==> h == k
  {
    LowerPrinted(h);
    LowerPrinted(k);
    if Printed(h) == Printed(k) {
      assert Hex.ToHex(h) == Printed(h)[2..] && Hex.ToHex(k) == Printed(k)[2..];
      Hex.FromToHex(h);
      Hex.FromToHex(k);
    }
  }

  lemma LowerPrinted(h: Bytes)
    ensures Hex.Lower(Printed(h)) == Printed(h)
  {
    Hex.FromToHex(h);
    Hex.ToFromHex(Hex.ToHex(h));
    assert Hex.Lower(Printed(h)) == "0x" + Hex.Lower(Hex.ToHex(h));
  }

  /** What trim() takes off the ends of a string. */
  predicate IsBlank(c: char) {
    '\t' <= c <= '\r' || c == ' ' || c == '\U{00A0}' || c == '\U{1680}' || '\U{2000}' <= c <= '\U{200A}' ||
    c == '\U{2028}' || c == '\U{2029}' || c == '\U{202F}' || c == '\U{205F}' || c == '\U{3000}' || c == '\U{FEFF}'
  }

  predicate AllBlank(s: string) {
    forall i :: 0 <= i < |s| ==> IsBlank(s[i])
  }

  /** t is s without the blanks at its two ends. */
  predicate IsTrimOf(s: string, t: string) {
    (exists a, b :: 0 <= a <= b <= |s| && TrimmedAt(s, a, b) && t == s[a..b]) &&
    (t != "" ==> !IsBlank(t[0]) && !IsBlank(t[|t| - 1]))
  }

  predicate TrimmedAt(s: string, a: nat, b: nat)
    requires a <= b <= |s|
  {
    AllBlank(s[..a]) && AllBlank(s[b..])
  }

  function Trim(s: string): (t: string)
    ensures t == "" <==> AllBlank(s)
    decreases |s|
  {
    if s == "" then ""
    else if IsBlank(s[0]) then Trim(s[1..])
    else if IsBlank(s[|s| - 1]) then Trim(s[..|s| - 1])
    else s
  }

  lemma BlankBefore(s: string, t: string)
    requires s != "" && IsBlank(s[0]) && IsTrimOf(s[1..], t)
    ensures IsTrimOf(s, t)
  {
    var r := s[1..];
    var a, b :| 0 <= a <= b <= |r| && TrimmedAt(r, a, b) && t == r[a..b];
    assert s[..a + 1] == [s[0]] + r[..a];
    assert s[b + 1..] == r[b..];
    assert TrimmedAt(s, a + 1, b + 1);
    assert s[a + 1..b + 1] == r[a..b];
  }

  lemma BlankAfter(s: string, t: string)
    requires s != "" && IsBlank(s[|s| - 1]) && IsTrimOf(s[..|s| - 1], t)
    ensures IsTrimOf(s, t)
  {
    var r := s[..|s| - 1];
    var a, b :| 0 <= a <= b <= |r| && TrimmedAt(r, a, b) && t == r[a..b];
    assert s[..a] == r[..a];
    assert s[b..] == r[b..] + [s[|s| - 1]];
    assert TrimmedAt(s, a, b);
    assert s[a..b] == r[a..b];
  }

  /** Blanks go at both ends, and nothing else goes. */
  lemma {:induction false} TrimIs(s: string)
    ensures IsTrimOf(s, Trim(s))
    decreases |s|
  {
    if s == "" {
      assert TrimmedAt(s, 0, 0) && s[0..0] == "";
    } else if IsBlank(s[0]) {
      TrimIs(s[1..]);
      BlankBefore(s, Trim(s[1..]));
    } else if IsBlank(s[|s| - 1]) {
      TrimIs(s[..|s| - 1]);
      BlankAfter(s, Trim(s[..|s| - 1]));
    } else {
      assert TrimmedAt(s, 0, |s|) && s[0..|s|] == s;
    }
  }

  /** The answer to the page's request for a receipt. */
  datatype Fetched = Found(logs: seq<Log>) | NotFound | Throws

  /**
   * The page's check of a text against the receipt for a transaction hash, given what fetching the
   * receipt of the trimmed hash answers. It says Error exactly when a field is empty, the hash after
   * trimming, or the fetch throws, and Verified exactly when none of that is so, the receipt exists
   * and its first DigestRecorded entry, whichever contract emitted it, has the digest of the text.
   */
  method Verify(plaintext: string, txHash: string, fetch: string -> Fetched, keccak: string -> Bytes)
    returns (v: Verdict)
    ensures IsTrimOf(txHash, Trim(txHash))
    ensures v == Error <==> plaintext == "" || AllBlank(txHash) || fetch(Trim(txHash)).Throws?
    ensures v == Verified <==>
      plaintext != "" && !AllBlank(txHash) && fetch(Trim(txHash)).Found? &&
      FirstIs(fetch(Trim(txHash)).logs, keccak(plaintext))
  {
    var hash := Trim(txHash);
    TrimIs(txHash);
    if plaintext == "" { return Error; }
    if hash == "" { return Error; }
    var contentHash := Printed(keccak(plaintext));
    var receipt := fetch(hash);
    if receipt.Throws? { return Error; }
    if receipt.NotFound? { return Rejected; }
    var logs := receipt.logs;
    var recorded: Option<string> := None;
    var i := 0;
    while i < |logs|
      invariant 0 <= i <= |logs| && recorded == None
      invariant forall j :: 0 <= j < i ==> !logs[j].DigestRecorded?
    {
      if logs[i].DigestRecorded? {
        recorded := Some(Hex.Lower(Printed(logs[i].hash)));
        break;
      }
      i := i + 1;
    }
    if recorded.None? { return Rejected; }
    PrintedInjective(logs[i].hash, keccak(plaintext));
    assert FirstAt(logs, i);
    v := if recorded.value == Hex.Lower(contentHash) then Verified else Rejected;
  }

  // ---------------------------------------------------------------- what Verified says about the log

  /** The entries that the contract at this address emitted name records it holds; others may say anything. */
  predicate Consistent(address: Address, records: seq<Record>, logs: seq<Log>) {
    forall i :: 0 <= i < |logs| && logs[i].DigestRecorded? && logs[i].address == address ==>
      logs[i].index < |records| && records[logs[i].index] == Record(logs[i].hash, logs[i].timestamp)
  }

  predicate InLog(records: seq<Record>, hash: Bytes) {
    exists k :: 0 <= k < |records| && records[k].hash == hash
  }

  predicate EmittedBy(address: Address, logs: seq<Log>, hash: Bytes) {
    exists i :: 0 <= i < |logs| && logs[i].DigestRecorded? && logs[i].address == address && logs[i].hash == hash
  }

  function Replaced(records: seq<Record>, hash: Bytes): seq<Record> {
    seq(|records|, k requires 0 <= k < |records| =>
      if records[k].hash == hash then Record(hash + [0], records[k].timestamp) else records[k])
  }

  /**
   * The page does not look at who emitted an entry. For a possible receipt on which it says
   * Verified, the digest is in the contract's log, whatever the log holds, exactly when the
   * contract itself emitted an entry with that digest.
   */
  lemma LoggedIff(address: Address, records: seq<Record>, logs: seq<Log>, hash: Bytes)
    requires Consistent(address, records, logs) && FirstIs(logs, hash)
    ensures (forall rs: seq<Record> :: Consistent(address, rs, logs) ==> InLog(rs, hash)) <==>
      EmittedBy(address, logs, hash)
  {
    if !EmittedBy(address, logs, hash) {
      var rs := Replaced(records, hash);
      assert Consistent(address, rs, logs);
      assert !InLog(rs, hash);
    } else {
      var i :| 0 <= i < |logs| && logs[i].DigestRecorded? && logs[i].address == address && logs[i].hash == hash;
      forall rs: seq<Record> | Consistent(address, rs, logs) ensures InLog(rs, hash) {
        assert rs[logs[i].index].hash == hash;
      }
    }
  }

  /** A receipt of somebody else's contract on which the page says Verified for a text that was never recorded. */
  lemma ForgedReceipt(address: Address, other: Address, hash: Bytes, timestamp: nat)
    requires other != address
    ensures
      var logs := [DigestRecorded(other, hash, timestamp, 0)];
      Consistent(address, [], logs) && FirstIs(logs, hash) && !InLog([], hash)
  {
    assert FirstAt([DigestRecorded(other, hash, timestamp, 0)], 0);
  }
}

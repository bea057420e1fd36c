/**
 * What the database gives away: a symbolic model of every stored row and of everything that can be
 * computed from the rows, public values and keys of one's own. Hashes are one-way, AEAD opens only
 * with its key, a Diffie-Hellman secret needs one of its two private scalars.
 */
module Secrecy {
  import opened Common

  datatype Label = KeyLabel | NonceLabel | ProtectionLabel

  /** Secret atoms are numbered; Shared carries its two scalars in order, since the exchange commutes. */
  datatype Term =
    | Password(n: nat)
    | Scalar(n: nat)
    | Plaintext(n: nat)
    | Value(n: nat)
    | PublicKey(n: nat)
    | Shared(i: nat, j: nat)
    | Argon(password: Term, salt: Term)
    | Kdf(use: Label, secret: Term, context: Term)
    | Pair(first: Term, second: Term)
    | Sealed(key: Term, nonce: Term, text: Term)
    | Digest(of: Term)

  function Dh(i: nat, j: nat): Term {
    if i <= j then Shared(i, j) else Shared(j, i)
  }

  // ---------------------------------------------------------------- deduction

  /** A computation over known terms. */
  datatype Deduction =
    | Known(t: Term)
    | AnyValue(n: nat)
    | First(d: Deduction)
    | Second(d: Deduction)
    | MakePair(a: Deduction, b: Deduction)
    | MakePublic(d: Deduction)
    | Exchange(sk: Deduction, pk: Deduction)
    | MakeArgon(a: Deduction, b: Deduction)
    | MakeKdf(use: Label, a: Deduction, b: Deduction)
    | MakeDigest(d: Deduction)
    | Seal(key: Deduction, nonce: Deduction, text: Deduction)
    | Open(key: Deduction, sealed: Deduction)

  /** What a computation yields; None when a step does not apply. */
  function Yields(d: Deduction, known: set<Term>): Option<Term> {
    match d
    case Known(t) => if t in known then Some(t) else None
    case AnyValue(n) => Some(Value(n))
    case First(e) =>
      var t := Yields(e, known);
      if t.Some? && t.value.Pair? then Some(t.value.first) else None
    case Second(e) =>
      var t := Yields(e, known);
      if t.Some? && t.value.Pair? then Some(t.value.second) else None
    case MakePair(a, b) =>
      var x, y := Yields(a, known), Yields(b, known);
      if x.Some? && y.Some? then Some(Pair(x.value, y.value)) else None
    case MakePublic(e) =>
      var t := Yields(e, known);
      if t.Some? && t.value.Scalar? then Some(PublicKey(t.value.n)) else None
    case Exchange(a, b) =>
      var x, y := Yields(a, known), Yields(b, known);
      if x.Some? && x.value.Scalar? && y.Some? && y.value.PublicKey? then Some(Dh(x.value.n, y.value.n)) else None
    case MakeArgon(a, b) =>
      var x, y := Yields(a, known), Yields(b, known);
      if x.Some? && y.Some? then Some(Argon(x.value, y.value)) else None
    case MakeKdf(use, a, b) =>
      var x, y := Yields(a, known), Yields(b, known);
      if x.Some? && y.Some? then Some(Kdf(use, x.value, y.value)) else None
    case MakeDigest(e) =>
      var t := Yields(e, known);
      if t.Some? then Some(Digest(t.value)) else None
    case Seal(k, n, e) =>
      var x, y, z := Yields(k, known), Yields(n, known), Yields(e, known);
      if x.Some? && y.Some? && z.Some? then Some(Sealed(x.value, y.value, z.value)) else None
    case Open(k, e) =>
      var x, y := Yields(k, known), Yields(e, known);
      if x.Some? && y.Some? && y.value.Sealed? && y.value.key == x.value then Some(y.value.text) else None
  }

  /** The published password hashes, the scalars an onlooker made up, and whether texts count as public. */
  datatype View = View(hashes: set<Term>, own: set<nat>, texts: bool)

  /**
   * Terms that may be known without harm in a view: no secret atom, nothing computed from one
   * except through a one-way step.
   */
  predicate Harmless(t: Term, v: View) {
    match t
    case Password(_) => false
    case Scalar(n) => n in v.own
    case Plaintext(_) => v.texts
    case Value(_) => true
    case PublicKey(_) => true
    case Shared(i, j) => i in v.own || j in v.own
    case Argon(p, s) => t in v.hashes || (Harmless(p, v) && Harmless(s, v))
    case Kdf(_, k, c) => Harmless(k, v) && Harmless(c, v)
    case Pair(a, b) => Harmless(a, v) && Harmless(b, v)
    case Sealed(k, _, m) => Harmless(k, v) ==> Harmless(m, v)
    case Digest(_) => true
  }

  /** Deduction never leads from harmless terms to a harmful one. */
  lemma {:induction false} Closure(d: Deduction, known: set<Term>, v: View)
    requires forall t :: t in known ==> Harmless(t, v)
    ensures Yields(d, known).Some? ==> Harmless(Yields(d, known).value, v)
  {
    match d
    case Known(_) =>
    case AnyValue(_) =>
    case First(e) => Closure(e, known, v);
    case Second(e) => Closure(e, known, v);
    case MakePair(a, b) => Closure(a, known, v); Closure(b, known, v);
    case MakePublic(e) =>
    case Exchange(a, b) => Closure(a, known, v);
    case MakeArgon(a, b) => Closure(a, known, v); Closure(b, known, v);
    case MakeKdf(_, a, b) => Closure(a, known, v); Closure(b, known, v);
    case MakeDigest(_) =>
    case Seal(k, n, e) => Closure(e, known, v);
    case Open(k, e) => Closure(k, known, v); Closure(e, known, v);
  }

  // ---------------------------------------------------------------- what is stored

  /** The random choices behind a user row: scalar, the server's hash salt, the envelope's salt and nonce. */
  datatype User = User(password: nat, scalar: nat, hashSalt: nat, keySalt: nat, keyNonce: nat)

  /** A message row: users by number, ephemeral scalar, text. */
  datatype Message = Message(from: nat, to: nat, eph: nat, text: nat)

  /** digests: the texts whose digest is in the audit table and on the chain. */
  datatype Db = Db(users: seq<User>, messages: seq<Message>, digests: seq<nat>)

  function HashOf(u: User): Term {
    Argon(Password(u.password), Value(u.hashSalt))
  }

  /** password_hash: the Argon2id output with its salt. */
  function HashRow(u: User): Term {
    Pair(HashOf(u), Value(u.hashSalt))
  }

  function WrappingKey(u: User): Term {
    Kdf(ProtectionLabel, Argon(Password(u.password), Value(u.keySalt)), Value(0))
  }

  /** encrypted_private_key: salt, nonce and the sealed scalar. */
  function EnvelopeRow(u: User): Term {
    Pair(Value(u.keySalt), Pair(Value(u.keyNonce), Sealed(WrappingKey(u), Value(u.keyNonce), Scalar(u.scalar))))
  }

  function ContextOf(m: Message, from: User, to: User): Term {
    Pair(PublicKey(m.eph), Pair(PublicKey(from.scalar), PublicKey(to.scalar)))
  }

  function SecretOf(m: Message, from: User, to: User): Term {
    Pair(Dh(m.eph, to.scalar), Dh(from.scalar, to.scalar))
  }

  /** eph_pub and ciphertext. */
  function MessageTerm(m: Message, from: User, to: User): Term {
    var secret, context := SecretOf(m, from, to), ContextOf(m, from, to);
    Pair(PublicKey(m.eph),
         Sealed(Kdf(KeyLabel, secret, context), Kdf(NonceLabel, secret, context), Plaintext(m.text)))
  }

  predicate Refs(db: Db) {
    forall k :: 0 <= k < |db.messages| ==> db.messages[k].from < |db.users| && db.messages[k].to < |db.users|
  }

  function UserTerms(us: seq<User>): set<Term> {
    (set i | 0 <= i < |us| :: HashRow(us[i])) +
    (set i | 0 <= i < |us| :: PublicKey(us[i].scalar)) +
    (set i | 0 <= i < |us| :: EnvelopeRow(us[i]))
  }

  /** Message row k. */
  function RowTerm(db: Db, k: nat): Term
    requires Refs(db) && k < |db.messages|
  {
    MessageTerm(db.messages[k], db.users[db.messages[k].from], db.users[db.messages[k].to])
  }

  function MessageTerms(db: Db): set<Term>
    requires Refs(db)
  {
    (set k | 0 <= k < |db.messages| :: RowTerm(db, k)) +
    (set k | 0 <= k < |db.digests| :: Digest(Plaintext(db.digests[k])))
  }

  /** Every row, the log on the chain, and the onlooker's own scalars. */
  function Seen(db: Db, own: set<nat>): set<Term>
    requires Refs(db)
  {
    UserTerms(db.users) + MessageTerms(db) + (set n | n in own :: Scalar(n))
  }

  function Hashes(us: seq<User>): set<Term> {
    set i | 0 <= i < |us| :: HashOf(us[i])
  }

  // ---------------------------------------------------------------- runs

  /** next is larger than every scalar, salt and nonce drawn so far. */
  datatype State = State(db: Db, next: nat)

  datatype Event =
    | Register(password: nat)
    | Send(from: nat, to: nat, text: nat, recorded: bool)
    | Delete(k: nat)

  /** Forwarding is a send of the same text; deleting a message leaves its digest on the chain. */
  function Step(s: State, e: Event): State {
    match e
    case Register(password) =>
      var u := User(password, s.next, s.next + 1, s.next + 2, s.next + 3);
      State(s.db.(users := s.db.users + [u]), s.next + 4)
    case Send(from, to, text, recorded) =>
      if from < |s.db.users| && to < |s.db.users|
      then State(s.db.(
        messages := s.db.messages + [Message(from, to, s.next, text)],
        digests := if recorded then s.db.digests + [text] else s.db.digests), s.next + 1)
      else s
    case Delete(k) =>
      if k < |s.db.messages| then s.(db := s.db.(messages := s.db.messages[..k] + s.db.messages[k + 1..])) else s
  }

  function After(start: nat, es: seq<Event>): State {
    if es == [] then State(Db([], [], []), start) else Step(After(start, es[..|es| - 1]), es[|es| - 1])
  }

  /** What a registration, a send and a deletion store, with values that were never used before. */
  lemma StepStores(s: State, e: Event)
    ensures
      var d := Step(s, e).db;
      match e
      case Register(password) =>
        |d.users| == |s.db.users| + 1 && d.users[..|s.db.users|] == s.db.users && d.messages == s.db.messages &&
        d.digests == s.db.digests && d.users[|s.db.users|].password == password &&
        s.next <= d.users[|s.db.users|].scalar
      case Send(from, to, text, recorded) =>
        d.users == s.db.users &&
        (from < |s.db.users| && to < |s.db.users| ==>
          (exists eph :: eph >= s.next && d.messages == s.db.messages + [Message(from, to, eph, text)]) &&
          d.digests == if recorded then s.db.digests + [text] else s.db.digests)
      case Delete(k) =>
        d.users == s.db.users && d.digests == s.db.digests &&
        (k < |s.db.messages| ==> d.messages == s.db.messages[..k] + s.db.messages[k + 1..])
  {
    if e.Send? && e.from < |s.db.users| && e.to < |s.db.users| {
      assert Step(s, e).db.messages == s.db.messages + [Message(e.from, e.to, s.next, e.text)];
    }
  }

  /** No honest scalar is the onlooker's. */
  predicate Honest(db: Db, own: set<nat>) {
    (forall i :: 0 <= i < |db.users| ==> db.users[i].scalar !in own) &&
    (forall k :: 0 <= k < |db.messages| ==> db.messages[k].eph !in own)
  }

  /** Somebody's stored password hash is the Argon2 output that wraps somebody's private key. */
  predicate SaltsCollide(us: seq<User>) {
    exists i, j :: 0 <= i < |us| && 0 <= j < |us| && SameHash(us[i], us[j])
  }

  predicate SameHash(wrapped: User, hashed: User) {
    wrapped.password == hashed.password && wrapped.keySalt == hashed.hashSalt
  }

  lemma EnvelopeHarmless(us: seq<User>, v: View, u: User)
    requires !SaltsCollide(us) && u in us && v.hashes == Hashes(us)
    ensures Harmless(EnvelopeRow(u), v)
  {
    var a := Argon(Password(u.password), Value(u.keySalt));
    var i :| 0 <= i < |us| && us[i] == u;
    forall j | 0 <= j < |us| ensures HashOf(us[j]) != a {
      assert !SameHash(us[i], us[j]);
    }
    var sealed := Sealed(WrappingKey(u), Value(u.keyNonce), Scalar(u.scalar));
    assert !Harmless(Password(u.password), v);
    assert !Harmless(a, v);
    assert !Harmless(WrappingKey(u), v);
    assert Harmless(sealed, v);
    assert Harmless(Pair(Value(u.keyNonce), sealed), v);
  }

  lemma MessageHarmless(v: View, m: Message, from: User, to: User)
    requires v.texts || (from.scalar !in v.own && to.scalar !in v.own && m.eph !in v.own)
    ensures Harmless(MessageTerm(m, from, to), v)
  {
    assert v.texts || !Harmless(Dh(m.eph, to.scalar), v);
    assert v.texts || !Harmless(SecretOf(m, from, to), v);
  }

  /** The view in which texts are secret. */
  function Onlooker(db: Db, own: set<nat>): View {
    View(Hashes(db.users), own, false)
  }

  lemma SeenHarmless(db: Db, v: View)
    requires Refs(db) && (v.texts || Honest(db, v.own)) && !SaltsCollide(db.users) && v.hashes == Hashes(db.users)
    ensures forall t :: t in Seen(db, v.own) ==> Harmless(t, v)
  {
    forall i | 0 <= i < |db.users| ensures Harmless(EnvelopeRow(db.users[i]), v) {
      EnvelopeHarmless(db.users, v, db.users[i]);
    }
    forall k | 0 <= k < |db.messages|
      ensures Harmless(RowTerm(db, k), v)
    {
      var m := db.messages[k];
      MessageHarmless(v, m, db.users[m.from], db.users[m.to]);
    }
  }

  /** A password, the text of a message, or a private scalar, static or ephemeral, that is not the onlooker's. */
  predicate Secret(t: Term, own: set<nat>) {
    t.Password? || t.Plaintext? || (t.Scalar? && t.n !in own)
  }

  /** The wrapping key read off a stored hash, when salts collide. */
  function Unwrap(wrapped: User, hashed: User): Deduction {
    Open(MakeKdf(ProtectionLabel, First(Known(HashRow(hashed))), AnyValue(0)),
         Second(Second(Known(EnvelopeRow(wrapped)))))
  }

  /**
   * For any contents of the tables: some user's private key can be computed from what is stored
   * exactly when a server-side password hash and an envelope share password and salt.
   */
  lemma KeysLeakIff(db: Db, own: set<nat>)
    requires Refs(db) && Honest(db, own)
    ensures (exists d, i :: 0 <= i < |db.users| && Yields(d, Seen(db, own)) == Some(Scalar(db.users[i].scalar)))
      <==> SaltsCollide(db.users)
  {
    if SaltsCollide(db.users) {
      var i, j :| 0 <= i < |db.users| && 0 <= j < |db.users| && SameHash(db.users[i], db.users[j]);
      Unwraps(db, own, i, j);
    } else {
      SeenHarmless(db, Onlooker(db, own));
      forall d, i | 0 <= i < |db.users| ensures Yields(d, Seen(db, own)) != Some(Scalar(db.users[i].scalar)) {
        Closure(d, Seen(db, own), Onlooker(db, own));
      }
    }
  }

  lemma Unwraps(db: Db, own: set<nat>, i: nat, j: nat)
    requires Refs(db) && i < |db.users| && j < |db.users| && SameHash(db.users[i], db.users[j])
    ensures Yields(Unwrap(db.users[i], db.users[j]), Seen(db, own)) == Some(Scalar(db.users[i].scalar))
  {
    var known, u, v := Seen(db, own), db.users[i], db.users[j];
    assert HashRow(v) in known && EnvelopeRow(u) in known;
    var key := MakeKdf(ProtectionLabel, First(Known(HashRow(v))), AnyValue(0));
    assert Yields(First(Known(HashRow(v))), known) == Some(HashOf(v));
    assert Yields(key, known) == Some(WrappingKey(u));
    var rest := Second(Known(EnvelopeRow(u)));
    assert Yields(rest, known) == Some(EnvelopeRow(u).second);
    assert Yields(Second(rest), known) == Some(EnvelopeRow(u).second.second);
  }

  // ---------------------------------------------------------------- every run

  predicate Drawn(s: State, start: nat) {
    Refs(s.db) && start <= s.next &&
    (forall i :: 0 <= i < |s.db.users| ==>
      start <= s.db.users[i].scalar < s.next && s.db.users[i].hashSalt < s.next && s.db.users[i].keySalt < s.next) &&
    (forall k :: 0 <= k < |s.db.messages| ==> start <= s.db.messages[k].eph) &&
    (forall i, j :: 0 <= i < |s.db.users| && 0 <= j < |s.db.users| ==>
      s.db.users[i].keySalt != s.db.users[j].hashSalt) &&
    (forall i, j :: 0 <= i < j < |s.db.users| ==> s.db.users[i].scalar != s.db.users[j].scalar)
  }

  lemma {:induction false} RunDraws(start: nat, es: seq<Event>)
    ensures Drawn(After(start, es), start)
  {
    if es == [] {
    } else {
      RunDraws(start, es[..|es| - 1]);
      StepDraws(After(start, es[..|es| - 1]), es[|es| - 1], start);
    }
  }

  lemma StepDraws(s: State, e: Event, start: nat)
    requires Drawn(s, start)
    ensures Drawn(Step(s, e), start)
  {
    match e
    case Register(password) => RegisterDraws(s, password, start);
    case Send(_, _, _, _) => SendDraws(s, e, start);
    case Delete(_) => DeleteDraws(s, e, start);
  }

  lemma SendDraws(s: State, e: Event, start: nat)
    requires Drawn(s, start) && e.Send?
    ensures Drawn(Step(s, e), start)
  {
  }

  lemma DeleteDraws(s: State, e: Event, start: nat)
    requires Drawn(s, start) && e.Delete?
    ensures Drawn(Step(s, e), start)
  {
  }

  lemma RegisterDraws(s: State, password: nat, start: nat)
    requires Drawn(s, start)
    ensures Drawn(Step(s, Register(password)), start)
  {
  }

  /**
   * In every run, nothing that can be computed from the stored rows, the on-chain digests and
   * one's own keys is a password, the text of a message or any private key, a user's or an
   * ephemeral one, that is not one's own.
   */
  lemma StoredStateSecrecy(start: nat, es: seq<Event>, own: set<nat>, d: Deduction)
    requires forall n :: n in own ==> n < start
    ensures
      var db := After(start, es).db;
      Refs(db) && (Yields(d, Seen(db, own)).Some? ==> !Secret(Yields(d, Seen(db, own)).value, own))
  {
    RunDraws(start, es);
    var db := After(start, es).db;
    SeenHarmless(db, Onlooker(db, own));
    Closure(d, Seen(db, own), Onlooker(db, own));
  }

  // ---------------------------------------------------------------- sender authentication

  /** Every sealed box that occurs in t, at any depth. */
  function SealedIn(t: Term): set<Term> {
    match t
    case Argon(p, s) => SealedIn(p) + SealedIn(s)
    case Kdf(_, k, c) => SealedIn(k) + SealedIn(c)
    case Pair(a, b) => SealedIn(a) + SealedIn(b)
    case Sealed(k, n, m) => {t} + SealedIn(k) + SealedIn(n) + SealedIn(m)
    case Digest(m) => SealedIn(m)
    case _ => {}
  }

  predicate Occurs(x: Term, known: set<Term>) {
    exists t :: t in known && x in SealedIn(t)
  }

  /** x is sealed under a message key into which the static exchange of scalars i and j went. */
  predicate BoundTo(x: Term, i: nat, j: nat) {
    x.Sealed? && x.key.Kdf? && x.key.use == KeyLabel && x.key.secret.Pair? && x.key.secret.second == Dh(i, j)
  }

  predicate AllOccur(t: Term, known: set<Term>, i: nat, j: nat) {
    forall x :: x in SealedIn(t) && BoundTo(x, i, j) ==> Occurs(x, known)
  }

  /** Without scalar i or scalar j no new box bound to them can be made, only taken from what is known. */
  lemma {:induction false} Unforgeable(d: Deduction, known: set<Term>, v: View, i: nat, j: nat)
    requires (forall t :: t in known ==> Harmless(t, v)) && i !in v.own && j !in v.own
    ensures Yields(d, known).Some? ==> AllOccur(Yields(d, known).value, known, i, j)
  {
    match d
    case Known(_) =>
    case AnyValue(_) =>
    case First(e) => Unforgeable(e, known, v, i, j);
    case Second(e) => Unforgeable(e, known, v, i, j);
    case MakePair(a, b) => Unforgeable(a, known, v, i, j); Unforgeable(b, known, v, i, j);
    case MakePublic(_) =>
    case Exchange(_, _) =>
    case MakeArgon(a, b) => Unforgeable(a, known, v, i, j); Unforgeable(b, known, v, i, j);
    case MakeKdf(_, a, b) => Unforgeable(a, known, v, i, j); Unforgeable(b, known, v, i, j);
    case MakeDigest(e) => Unforgeable(e, known, v, i, j);
    case Seal(k, n, e) =>
      Unforgeable(k, known, v, i, j);
      Unforgeable(n, known, v, i, j);
      Unforgeable(e, known, v, i, j);
      if Yields(d, known).Some? { KeyOutOfReach(k, known, v, i, j, Yields(d, known).value); }
    case Open(_, e) => Unforgeable(e, known, v, i, j);
  }

  lemma KeyOutOfReach(k: Deduction, known: set<Term>, v: View, i: nat, j: nat, box: Term)
    requires (forall t :: t in known ==> Harmless(t, v)) && i !in v.own && j !in v.own
    requires box.Sealed? && Yields(k, known) == Some(box.key)
    ensures !BoundTo(box, i, j)
  {
    Closure(k, known, v);
    assert !Harmless(Dh(i, j), v);
    assert BoundTo(box, i, j) ==> !Harmless(box.key.secret, v);
  }

  /** The sealed part of a stored message row. */
  function BoxOf(db: Db, k: nat): Term
    requires Refs(db) && k < |db.messages|
  {
    RowTerm(db, k).second
  }

  lemma StoredBoxes(db: Db, own: set<nat>, x: Term, i: nat, j: nat)
    requires Refs(db) && Occurs(x, Seen(db, own)) && BoundTo(x, i, j)
    ensures exists k :: 0 <= k < |db.messages| && BoxOf(db, k) == x
  {
    var t :| t in Seen(db, own) && x in SealedIn(t);
    if t in UserTerms(db.users) {
      NoBoxInUsers(db.users, t, x, i, j);
    }
    assert t in MessageTerms(db);
    forall n: nat ensures SealedIn(Digest(Plaintext(n))) == {} {
      assert SealedIn(Plaintext(n)) == {};
    }
    var k :| 0 <= k < |db.messages| && t == RowTerm(db, k);
    OnlyBox(db.messages[k], db.users[db.messages[k].from], db.users[db.messages[k].to]);
    assert BoxOf(db, k) == x;
  }

  lemma NoBoxInUsers(us: seq<User>, t: Term, x: Term, i: nat, j: nat)
    requires t in UserTerms(us) && x in SealedIn(t)
    ensures !BoundTo(x, i, j)
  {
    forall u: User ensures SealedIn(HashRow(u)) == {} {
      assert SealedIn(HashOf(u)) == {};
    }
    var k :| 0 <= k < |us| && t == EnvelopeRow(us[k]);
    EnvelopeBox(us[k]);
  }

  lemma EnvelopeBox(u: User)
    ensures SealedIn(EnvelopeRow(u)) == {EnvelopeRow(u).second.second}
  {
    assert SealedIn(Argon(Password(u.password), Value(u.keySalt))) == {};
    assert SealedIn(WrappingKey(u)) == {};
    var box := EnvelopeRow(u).second.second;
    assert SealedIn(Scalar(u.scalar)) == {} && SealedIn(Value(u.keyNonce)) == {};
    assert SealedIn(box) == {box};
    assert SealedIn(EnvelopeRow(u).second) == {box};
  }

  lemma OnlyBox(m: Message, from: User, to: User)
    ensures SealedIn(MessageTerm(m, from, to)) == {MessageTerm(m, from, to).second}
  {
    assert SealedIn(SecretOf(m, from, to)) == {};
    assert SealedIn(ContextOf(m, from, to).second) == {};
    assert SealedIn(ContextOf(m, from, to)) == {};
    assert SealedIn(Kdf(KeyLabel, SecretOf(m, from, to), ContextOf(m, from, to))) == {};
    assert SealedIn(Kdf(NonceLabel, SecretOf(m, from, to), ContextOf(m, from, to))) == {};
    var box := MessageTerm(m, from, to).second;
    assert SealedIn(Plaintext(m.text)) == {};
    assert SealedIn(box) == {box};
  }

  /** Row k runs between users f and t; the context says which of them sent it. */
  predicate Between(db: Db, k: nat, f: nat, t: nat)
    requires k < |db.messages|
  {
    (db.messages[k].from == f && db.messages[k].to == t) || (db.messages[k].from == t && db.messages[k].to == f)
  }

  /** The context under which whoever opens for `to` in the name of `from` derives the key. */
  predicate Names(context: Term, from: User, to: User) {
    context.Pair? && context.second == Pair(PublicKey(from.scalar), PublicKey(to.scalar))
  }

  /**
   * Only the sender can produce what opens in the sender's name. In every run, whatever scalars the
   * onlooker holds, other users' and ephemeral ones included, as long as they are not those of f
   * and t: any box computable from the stored rows whose key holds the exchange between f and t is
   * the box of a stored message between those two, and of one from f to t if the context says so.
   */
  lemma SenderAuthentic(start: nat, es: seq<Event>, own: set<nat>, d: Deduction, box: Term, f: nat, t: nat)
    requires
      var us := After(start, es).db.users;
      f < |us| && t < |us| && us[f].scalar !in own && us[t].scalar !in own && BoundTo(box, us[f].scalar, us[t].scalar)
    requires
      var db := After(start, es).db;
      Refs(db) && Yields(d, Seen(db, own)).Some? && box in SealedIn(Yields(d, Seen(db, own)).value)
    ensures
      var db := After(start, es).db;
      exists k :: 0 <= k < |db.messages| && BoxOf(db, k) == box && Between(db, k, f, t) &&
        (Names(box.key.context, db.users[f], db.users[t]) ==> db.messages[k].from == f && db.messages[k].to == t)
  {
    var db := After(start, es).db;
    RunDraws(start, es);
    BoxIsStored(db, own, d, box, f, t);
    var k :| 0 <= k < |db.messages| && BoxOf(db, k) == box;
    SameParties(After(start, es), start, k, f, t);
  }

  lemma BoxIsStored(db: Db, own: set<nat>, d: Deduction, box: Term, f: nat, t: nat)
    requires Refs(db) && !SaltsCollide(db.users) && f < |db.users| && t < |db.users|
    requires db.users[f].scalar !in own && db.users[t].scalar !in own
    requires BoundTo(box, db.users[f].scalar, db.users[t].scalar)
    requires Yields(d, Seen(db, own)).Some? && box in SealedIn(Yields(d, Seen(db, own)).value)
    ensures exists k :: 0 <= k < |db.messages| && BoxOf(db, k) == box
  {
    var v := View(Hashes(db.users), own, true);
    SeenHarmless(db, v);
    Unforgeable(d, Seen(db, own), v, db.users[f].scalar, db.users[t].scalar);
    StoredBoxes(db, own, box, db.users[f].scalar, db.users[t].scalar);
  }

  lemma SameParties(s: State, start: nat, k: nat, f: nat, t: nat)
    requires Drawn(s, start) && k < |s.db.messages| && f < |s.db.users| && t < |s.db.users|
    requires
      var m, us := s.db.messages[k], s.db.users;
      Dh(us[m.from].scalar, us[m.to].scalar) == Dh(us[f].scalar, us[t].scalar)
    ensures Between(s.db, k, f, t)
    ensures Names(BoxOf(s.db, k).key.context, s.db.users[f], s.db.users[t]) ==>
      s.db.messages[k].from == f && s.db.messages[k].to == t
  {
  }

  /** Every stored message is sealed with the exchange between its own two users, under a context that names them. */
  lemma RowsBound(db: Db, k: nat)
    requires Refs(db) && k < |db.messages|
    ensures
      var m := db.messages[k];
      BoundTo(BoxOf(db, k), db.users[m.from].scalar, db.users[m.to].scalar) &&
      Names(BoxOf(db, k).key.context, db.users[m.from], db.users[m.to]) &&
      BoxOf(db, k).key.secret.first == Dh(m.eph, db.users[m.to].scalar) && BoxOf(db, k).text == Plaintext(m.text)
  {
  }

  /** With the password the envelope gives the private key back. */
  lemma OwnerUnwraps(db: Db, own: set<nat>, i: nat)
    requires Refs(db) && i < |db.users|
    ensures exists d :: Yields(d, Seen(db, own) + {Password(db.users[i].password)}) == Some(Scalar(db.users[i].scalar))
  {
    var u := db.users[i];
    var known := Seen(db, own) + {Password(u.password)};
    assert EnvelopeRow(u) in known && Password(u.password) in known;
    var row := Known(EnvelopeRow(u));
    var stretched := MakeArgon(Known(Password(u.password)), First(row));
    var key := MakeKdf(ProtectionLabel, stretched, AnyValue(0));
    assert Yields(First(row), known) == Some(Value(u.keySalt));
    assert Yields(stretched, known) == Some(Argon(Password(u.password), Value(u.keySalt)));
    assert Yields(key, known) == Some(WrappingKey(u));
    assert Yields(Second(row), known) == Some(EnvelopeRow(u).second);
    assert Yields(Second(Second(row)), known) == Some(EnvelopeRow(u).second.second);
    var d := Open(key, Second(Second(row)));
    assert Yields(d, known) == Some(Scalar(u.scalar));
  }

  /** The recipient can compute the key a message was sealed under: the model is not secret by being unusable. */
  lemma RecipientOpens(db: Db, k: nat, own: set<nat>)
    requires Refs(db) && k < |db.messages|
    ensures
      var m := db.messages[k];
      var from, to := db.users[m.from], db.users[m.to];
      exists d :: Yields(d, Seen(db, own) + {Scalar(to.scalar)}) == Some(Plaintext(m.text))
  {
    var m := db.messages[k];
    var from, to := db.users[m.from], db.users[m.to];
    var known := Seen(db, own) + {Scalar(to.scalar)};
    assert RowTerm(db, k) in MessageTerms(db);
    assert MessageTerm(m, from, to) in known && PublicKey(from.scalar) in known && Scalar(to.scalar) in known;
    var d := Opening(m, from, to);
    OpensWith(m, from, to, known);
  }

  /** The two exchanges and the context, from the recipient's side. */
  function SecretFor(m: Message, from: User, to: User): Deduction {
    var sk := Known(Scalar(to.scalar));
    MakePair(Exchange(sk, First(Known(MessageTerm(m, from, to)))), Exchange(sk, Known(PublicKey(from.scalar))))
  }

  function ContextFor(m: Message, from: User, to: User): Deduction {
    MakePair(First(Known(MessageTerm(m, from, to))),
             MakePair(Known(PublicKey(from.scalar)), MakePublic(Known(Scalar(to.scalar)))))
  }

  function Opening(m: Message, from: User, to: User): Deduction {
    Open(MakeKdf(KeyLabel, SecretFor(m, from, to), ContextFor(m, from, to)), Second(Known(MessageTerm(m, from, to))))
  }

  lemma OpensWith(m: Message, from: User, to: User, known: set<Term>)
    requires MessageTerm(m, from, to) in known && PublicKey(from.scalar) in known && Scalar(to.scalar) in known
    ensures Yields(Opening(m, from, to), known) == Some(Plaintext(m.text))
  {
    var row, sk, pk := Known(MessageTerm(m, from, to)), Known(Scalar(to.scalar)), Known(PublicKey(from.scalar));
    assert Yields(First(row), known) == Some(PublicKey(m.eph));
    assert Yields(Second(row), known) == Some(MessageTerm(m, from, to).second);
    assert Yields(Exchange(sk, First(row)), known) == Some(Dh(m.eph, to.scalar));
    assert Yields(Exchange(sk, pk), known) == Some(Dh(from.scalar, to.scalar));
    assert Yields(SecretFor(m, from, to), known) == Some(SecretOf(m, from, to));
    assert Yields(MakePublic(sk), known) == Some(PublicKey(to.scalar));
    assert Yields(MakePair(pk, MakePublic(sk)), known) == Some(ContextOf(m, from, to).second);
    assert Yields(ContextFor(m, from, to), known) == Some(ContextOf(m, from, to));
    var key := MakeKdf(KeyLabel, SecretFor(m, from, to), ContextFor(m, from, to));
    assert Yields(key, known) == Some(Kdf(KeyLabel, SecretOf(m, from, to), ContextOf(m, from, to)));
  }
}

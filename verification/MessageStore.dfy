/**
 * Messages, access grants and the handlers over them. Tables are lists of rows, queries are what
 * their SQL says: joins pair rows, WHERE filters them, ORDER BY permutes them.
 */
module MessageStore {
  import opened Common

  datatype UserRow = UserRow(id: nat, username: string, publicKey: string)

  datatype MessageRow = MessageRow(
    id: nat, sender: nat, recipient: nat, ciphertext: string, ephPub: string, createdAt: int)

  datatype GrantRow = GrantRow(message: nat, user: nat, grantedAt: int, revokedAt: Option<int>)

  /** nextMessage and nextUser are the id sequences; they only go up. */
  datatype Db = Db(
    users: seq<UserRow>, messages: seq<MessageRow>, grants: seq<GrantRow>, nextUser: nat, nextMessage: nat)

  /** A message row joined with its sender and its recipient. */
  datatype Joined = Joined(message: MessageRow, senderName: string, senderKey: string, recipientName: string)

  const EMPTY := Db([], [], [], 0, 0)

  // ---------------------------------------------------------------- queries

  function UsersWith(us: seq<UserRow>, id: nat): (r: seq<UserRow>)
    ensures forall u :: u in r <==> u in us && u.id == id
  {
    if us == [] then []
    else
      var n := |us| - 1;
      if us[n].id == id then UsersWith(us[..n], id) + [us[n]] else UsersWith(us[..n], id)
  }

  predicate UserExists(db: Db, id: nat) {
    UsersWith(db.users, id) != []
  }

  /** Every pair of a sender row and a recipient row that matches m. */
  function JoinRecipients(m: MessageRow, s: UserRow, rs: seq<UserRow>): seq<Joined> {
    seq(|rs|, i requires 0 <= i < |rs| => Joined(m, s.username, s.publicKey, rs[i].username))
  }

  function JoinSenders(m: MessageRow, ss: seq<UserRow>, rs: seq<UserRow>): seq<Joined> {
    if ss == [] then []
    else JoinSenders(m, ss[..|ss| - 1], rs) + JoinRecipients(m, ss[|ss| - 1], rs)
  }

  function Join(ms: seq<MessageRow>, us: seq<UserRow>): seq<Joined> {
    if ms == [] then []
    else
      var m := ms[|ms| - 1];
      Join(ms[..|ms| - 1], us) + JoinSenders(m, UsersWith(us, m.sender), UsersWith(us, m.recipient))
  }

  function WithId(js: seq<Joined>, id: nat): (r: seq<Joined>)
    ensures forall j :: j in r <==> j in js && j.message.id == id
  {
    if js == [] then []
    else
      var n := |js| - 1;
      if js[n].message.id == id then WithId(js[..n], id) + [js[n]] else WithId(js[..n], id)
  }

  /** Message.get_by_id: the first joined row with that id. */
  function GetById(db: Db, id: nat): Option<MessageRow> {
    var rows := WithId(Join(db.messages, db.users), id);
    if rows == [] then None else Some(rows[0].message)
  }

  predicate HasAccess(db: Db, m: nat, u: nat) {
    exists g :: g in db.grants && g.message == m && g.user == u && g.revokedAt.None?
  }

  predicate CanAccess(db: Db, m: MessageRow, u: nat) {
    m.sender == u || m.recipient == u || HasAccess(db, m.id, u)
  }

  /** The ids selected by the subquery of the inbox query. */
  function GrantedIds(gs: seq<GrantRow>, u: nat): (r: seq<nat>)
    ensures forall m :: m in r <==> exists g :: g in gs && g.message == m && g.user == u && g.revokedAt.None?
  {
    if gs == [] then []
    else
      var n := |gs| - 1;
      var earlier := GrantedIds(gs[..n], u);
      if gs[n].user == u && gs[n].revokedAt.None? then earlier + [gs[n].message] else earlier
  }

  /** The WHERE clause of the inbox query over the joined rows. */
  function InboxRows(js: seq<Joined>, u: nat, granted: seq<nat>): (r: seq<Joined>)
    ensures forall j :: j in r <==>
      j in js && (j.message.sender == u || j.message.recipient == u || j.message.id in granted)
  {
    if js == [] then []
    else
      var n := |js| - 1;
      var earlier, m := InboxRows(js[..n], u, granted), js[n].message;
      if m.sender == u || m.recipient == u || m.id in granted then earlier + [js[n]] else earlier
  }

  /** Any order in which the database may return the rows under ORDER BY created_at DESC. */
  predicate IsInbox(db: Db, u: nat, result: seq<Joined>) {
    multiset(result) == multiset(InboxRows(Join(db.messages, db.users), u, GrantedIds(db.grants, u))) &&
    forall i, j :: 0 <= i < j < |result| ==> result[i].message.createdAt >= result[j].message.createdAt
  }

  // ---------------------------------------------------------------- updates

  function DropMessage(ms: seq<MessageRow>, id: nat): (r: seq<MessageRow>)
    ensures forall m :: m in r <==> m in ms && m.id != id
  {
    if ms == [] then []
    else
      var n := |ms| - 1;
      if ms[n].id == id then DropMessage(ms[..n], id) else DropMessage(ms[..n], id) + [ms[n]]
  }

  function DropGrants(gs: seq<GrantRow>, message: nat): (r: seq<GrantRow>)
    ensures forall g :: g in r <==> g in gs && g.message != message
  {
    if gs == [] then []
    else
      var n := |gs| - 1;
      if gs[n].message == message then DropGrants(gs[..n], message) else DropGrants(gs[..n], message) + [gs[n]]
  }

  predicate GrantFor(g: GrantRow, m: nat, u: nat) {
    g.message == m && g.user == u
  }

  predicate HasRow(gs: seq<GrantRow>, m: nat, u: nat) {
    exists i :: 0 <= i < |gs| && GrantFor(gs[i], m, u)
  }

  /** INSERT ... ON CONFLICT (message_id, user_id) DO UPDATE. */
  function Upsert(gs: seq<GrantRow>, m: nat, u: nat, now: int): seq<GrantRow> {
    if HasRow(gs, m, u) then
      seq(|gs|, i requires 0 <= i < |gs| =>
        if GrantFor(gs[i], m, u) then GrantRow(m, u, now, None) else gs[i])
    else gs + [GrantRow(m, u, now, None)]
  }

  /** UPDATE ... SET revoked_at WHERE ... AND revoked_at IS NULL. */
  function SetRevoked(gs: seq<GrantRow>, m: nat, u: nat, now: int): seq<GrantRow> {
    seq(|gs|, i requires 0 <= i < |gs| =>
      if GrantFor(gs[i], m, u) && gs[i].revokedAt.None? then gs[i].(revokedAt := Some(now)) else gs[i])
  }

  // ---------------------------------------------------------------- handlers

  datatype Request =
    | AddUser(username: string, publicKey: string)
    | Send(me: nat, recipient: nat, ciphertext: string, ephPub: string)
    | Forward(me: nat, m: nat, recipient: nat, ciphertext: string, ephPub: string)
    | Delete(me: nat, m: nat)
    | Grant(me: nat, m: nat, user: nat)
    | Revoke(me: nat, m: nat, user: nat)
    | Get(me: nat, m: nat)

  /** What a successful request did. */
  datatype Fact =
    | Created(m: nat, sender: nat, recipient: nat)
    | Deleted(m: nat)
    | Granted(m: nat, user: nat)
    | Revoked(m: nat, user: nat)

  datatype Reply = Reply(db: Db, code: int, fact: Option<Fact>)

  /** Message.create: fails when the sender or the recipient is not a user. */
  function Create(db: Db, me: nat, recipient: nat, ciphertext: string, ephPub: string, now: int): Reply {
    if !UserExists(db, me) || !UserExists(db, recipient) then Reply(db.(nextMessage := db.nextMessage + 1), 500, None)
    else
      var row := MessageRow(db.nextMessage, me, recipient, ciphertext, ephPub, now);
      Reply(db.(messages := db.messages + [row], nextMessage := db.nextMessage + 1), 201,
        Some(Created(row.id, me, recipient)))
  }

  /** The row and, ON DELETE CASCADE, its grants. */
  function Deletion(db: Db, m: nat): Db {
    db.(messages := DropMessage(db.messages, m), grants := DropGrants(db.grants, m))
  }

  function AddUserReply(db: Db, username: string, publicKey: string): Reply {
    var row := UserRow(db.nextUser, username, publicKey);
    Reply(db.(users := db.users + [row], nextUser := db.nextUser + 1), 201, None)
  }

  function SendReply(db: Db, now: int, me: nat, recipient: nat, ciphertext: string, ephPub: string): Reply {
    if recipient == me then Reply(db, 400, None)
    else if !UserExists(db, recipient) then Reply(db, 404, None)
    else Create(db, me, recipient, ciphertext, ephPub, now)
  }

  /** The checks of a forward come first; then it is a send. */
  function ForwardReply(db: Db, now: int, me: nat, m: nat, recipient: nat, ciphertext: string, ephPub: string): Reply {
    var msg := GetById(db, m);
    if msg.None? then Reply(db, 404, None)
    else if !CanAccess(db, msg.value, me) then Reply(db, 403, None)
    else SendReply(db, now, me, recipient, ciphertext, ephPub)
  }

  function DeleteReply(db: Db, me: nat, m: nat): Reply {
    var msg := GetById(db, m);
    if msg.None? then Reply(db, 404, None)
    else if msg.value.sender != me && msg.value.recipient != me then Reply(db, 403, None)
    else Reply(Deletion(db, m), 200, Some(Deleted(m)))
  }

  function GrantReply(db: Db, now: int, me: nat, m: nat, user: nat): Reply {
    var msg := GetById(db, m);
    if msg.None? then Reply(db, 404, None)
    else if msg.value.sender != me then Reply(db, 403, None)
    else if !UserExists(db, user) then Reply(db, 404, None)
    else if msg.value.sender == user || msg.value.recipient == user then Reply(db, 409, None)
    else Reply(db.(grants := Upsert(db.grants, m, user, now)), 200, Some(Granted(m, user)))
  }

  function RevokeReply(db: Db, now: int, me: nat, m: nat, user: nat): Reply {
    var msg := GetById(db, m);
    if msg.None? then Reply(db, 404, None)
    else if msg.value.sender != me then Reply(db, 403, None)
    else if !HasAccess(db, m, user) then Reply(db, 404, None)
    else Reply(db.(grants := SetRevoked(db.grants, m, user, now)), 200, Some(Revoked(m, user)))
  }

  function GetReply(db: Db, me: nat, m: nat): Reply {
    var msg := GetById(db, m);
    if msg.None? then Reply(db, 404, None)
    else if !CanAccess(db, msg.value, me) then Reply(db, 403, None)
    else Reply(db, 200, None)
  }

  function Handle(db: Db, now: int, request: Request): Reply {
    match request
    case AddUser(username, publicKey) => AddUserReply(db, username, publicKey)
    case Send(me, recipient, ciphertext, ephPub) => SendReply(db, now, me, recipient, ciphertext, ephPub)
    case Forward(me, m, recipient, ciphertext, ephPub) => ForwardReply(db, now, me, m, recipient, ciphertext, ephPub)
    case Delete(me, m) => DeleteReply(db, me, m)
    case Grant(me, m, user) => GrantReply(db, now, me, m, user)
    case Revoke(me, m, user) => RevokeReply(db, now, me, m, user)
    case Get(me, m) => GetReply(db, me, m)
  }

  // ---------------------------------------------------------------- integrity

  predicate UsersOk(db: Db) {
    (forall i, j :: 0 <= i < j < |db.users| ==> db.users[i].id != db.users[j].id) &&
    (forall u :: u in db.users ==> u.id < db.nextUser)
  }

  predicate DistinctMessages(ms: seq<MessageRow>) {
    forall i, j :: 0 <= i < j < |ms| ==> ms[i].id != ms[j].id
  }

  /** Primary key, foreign keys, and no message from a user to itself. */
  predicate MessagesOk(db: Db) {
    DistinctMessages(db.messages) &&
    (forall m :: m in db.messages ==>
      m.id < db.nextMessage && m.sender != m.recipient && UserExists(db, m.sender) && UserExists(db, m.recipient))
  }

  predicate DistinctGrants(gs: seq<GrantRow>) {
    forall i, j :: 0 <= i < j < |gs| ==> !GrantFor(gs[j], gs[i].message, gs[i].user)
  }

  /** Primary key, foreign keys, and no grant to a message's own sender or recipient. */
  predicate GrantsOk(db: Db) {
    DistinctGrants(db.grants) &&
    (forall g :: g in db.grants ==> UserExists(db, g.user) && GrantedToOther(db, g))
  }

  predicate GrantedToOther(db: Db, g: GrantRow) {
    exists m :: m in db.messages && m.id == g.message && m.sender != g.user && m.recipient != g.user
  }

  predicate DbOk(db: Db) {
    UsersOk(db) && MessagesOk(db) && GrantsOk(db)
  }

  // ---------------------------------------------------------------- joins lose and repeat nothing

  lemma {:induction false} NoUser(us: seq<UserRow>, id: nat)
    requires forall i :: 0 <= i < |us| ==> us[i].id != id
    ensures UsersWith(us, id) == []
  {
    if us == [] {
    } else {
      NoUser(us[..|us| - 1], id);
    }
  }

  lemma {:induction false} OneUser(us: seq<UserRow>, id: nat)
    requires forall i, j :: 0 <= i < j < |us| ==> us[i].id != us[j].id
    requires UsersWith(us, id) != []
    ensures |UsersWith(us, id)| == 1
  {
    var n := |us| - 1;
    if us[n].id == id {
      NoUser(us[..n], id);
    } else {
      OneUser(us[..n], id);
    }
  }

  predicate Messages(js: seq<Joined>, ms: seq<MessageRow>) {
    |js| == |ms| && forall i :: 0 <= i < |ms| ==> js[i].message == ms[i]
  }

  lemma {:induction false} JoinIsOneToOne(ms: seq<MessageRow>, us: seq<UserRow>)
    requires forall i, j :: 0 <= i < j < |us| ==> us[i].id != us[j].id
    requires forall m :: m in ms ==> UsersWith(us, m.sender) != [] && UsersWith(us, m.recipient) != []
    ensures Messages(Join(ms, us), ms)
  {
    if ms == [] {
    } else {
      var n := |ms| - 1;
      assert ms[n] in ms;
      OneJoined(ms[n], us);
      JoinIsOneToOne(ms[..n], us);
      var one := JoinSenders(ms[n], UsersWith(us, ms[n].sender), UsersWith(us, ms[n].recipient));
      MessagesAppend(Join(ms[..n], us), one, ms);
    }
  }

  lemma MessagesAppend(js: seq<Joined>, one: seq<Joined>, ms: seq<MessageRow>)
    requires ms != [] && Messages(js, ms[..|ms| - 1]) && |one| == 1 && one[0].message == ms[|ms| - 1]
    ensures Messages(js + one, ms)
  {
  }

  lemma OneJoined(m: MessageRow, us: seq<UserRow>)
    requires forall i, j :: 0 <= i < j < |us| ==> us[i].id != us[j].id
    requires UsersWith(us, m.sender) != [] && UsersWith(us, m.recipient) != []
    ensures
      var js := JoinSenders(m, UsersWith(us, m.sender), UsersWith(us, m.recipient));
      |js| == 1 && js[0].message == m
  {
    OneUser(us, m.sender);
    OneUser(us, m.recipient);
    var ss := UsersWith(us, m.sender);
    assert ss[..0] == [];
  }

  /** The two joins drop and duplicate nothing: one joined row per message, in table order. */
  lemma JoinKeepsMessages(db: Db)
    requires DbOk(db)
    ensures |Join(db.messages, db.users)| == |db.messages|
    ensures forall i :: 0 <= i < |db.messages| ==> Join(db.messages, db.users)[i].message == db.messages[i]
  {
    JoinIsOneToOne(db.messages, db.users);
  }

  lemma JoinMembers(db: Db, m: MessageRow)
    requires DbOk(db)
    ensures m in db.messages <==> exists j :: j in Join(db.messages, db.users) && j.message == m
  {
    JoinKeepsMessages(db);
    var js := Join(db.messages, db.users);
    if m in db.messages {
      var i :| 0 <= i < |db.messages| && db.messages[i] == m;
      assert js[i] in js;
    }
  }

  lemma FoundIsRow(db: Db, id: nat)
    requires DbOk(db) && GetById(db, id).Some?
    ensures GetById(db, id).value in db.messages && GetById(db, id).value.id == id
  {
    var rows := WithId(Join(db.messages, db.users), id);
    assert rows[0] in rows;
    JoinMembers(db, rows[0].message);
  }

  lemma RowIsFound(db: Db, m: MessageRow)
    requires DbOk(db) && m in db.messages
    ensures GetById(db, m.id) == Some(m)
  {
    JoinMembers(db, m);
    var j :| j in Join(db.messages, db.users) && j.message == m;
    assert j in WithId(Join(db.messages, db.users), m.id);
    FoundIsRow(db, m.id);
    SameRow(db.messages, m, GetById(db, m.id).value);
  }

  lemma SameRow(ms: seq<MessageRow>, x: MessageRow, y: MessageRow)
    requires DistinctMessages(ms) && x in ms && y in ms && x.id == y.id
    ensures x == y
  {
  }

  lemma GetByIdIs(db: Db, id: nat)
    requires DbOk(db)
    ensures GetById(db, id).Some? ==> GetById(db, id).value in db.messages && GetById(db, id).value.id == id
    ensures forall m :: m in db.messages && m.id == id ==> GetById(db, id) == Some(m)
  {
    if GetById(db, id).Some? { FoundIsRow(db, id); }
    forall m | m in db.messages && m.id == id ensures GetById(db, id) == Some(m) { RowIsFound(db, m); }
  }

  // ---------------------------------------------------------------- the inbox query and the point check

  predicate DistinctIds(js: seq<Joined>) {
    forall i, j :: 0 <= i < j < |js| ==> js[i].message.id != js[j].message.id
  }

  lemma {:induction false} InboxDistinct(js: seq<Joined>, u: nat, granted: seq<nat>)
    requires DistinctIds(js)
    ensures DistinctIds(InboxRows(js, u, granted))
  {
    if js == [] {
    } else {
      var n := |js| - 1;
      InboxDistinct(js[..n], u, granted);
      forall x | x in InboxRows(js[..n], u, granted) ensures x.message.id != js[n].message.id {
        assert x in js[..n];
      }
    }
  }

  lemma {:induction false} CountOnce(js: seq<Joined>, x: Joined)
    requires DistinctIds(js)
    ensures multiset(js)[x] <= 1
  {
    if js == [] {
    } else {
      var n := |js| - 1;
      assert js == js[..n] + [js[n]];
      CountOnce(js[..n], x);
      assert x == js[n] ==> x !in js[..n];
    }
  }

  lemma CountTwice(js: seq<Joined>, i: nat, j: nat)
    requires i < j < |js|
    ensures js[i] == js[j] ==> multiset(js)[js[i]] >= 2
  {
    assert js == js[..j] + js[j..];
    assert js[i] in js[..j] && js[j] in js[j..];
  }

  /** Each message once. */
  lemma InboxNoRepeats(db: Db, u: nat, result: seq<Joined>)
    requires DbOk(db) && IsInbox(db, u, result)
    ensures DistinctIds(result)
  {
    var rows := InboxRows(Join(db.messages, db.users), u, GrantedIds(db.grants, u));
    JoinKeepsMessages(db);
    InboxDistinct(Join(db.messages, db.users), u, GrantedIds(db.grants, u));
    PermutedDistinct(result, rows);
  }

  lemma PermutedDistinct(result: seq<Joined>, rows: seq<Joined>)
    requires DistinctIds(rows) && multiset(result) == multiset(rows)
    ensures DistinctIds(result)
  {
    forall i, j | 0 <= i < j < |result| ensures result[i].message.id != result[j].message.id {
      CountOnce(rows, result[i]);
      CountTwice(result, i, j);
      assert result[i] in multiset(rows) && result[j] in multiset(rows);
      NotSameId(rows, result[i], result[j]);
    }
  }

  lemma NotSameId(js: seq<Joined>, x: Joined, y: Joined)
    requires DistinctIds(js) && x in js && y in js && x != y
    ensures x.message.id != y.message.id
  {
  }

  /**
   * Whatever order the database picks among equal times, the inbox of u holds exactly the messages
   * the point check lets u read, newest first.
   */
  lemma InboxAgrees(db: Db, u: nat, result: seq<Joined>, m: MessageRow)
    requires DbOk(db) && IsInbox(db, u, result)
    ensures (exists j :: j in result && j.message == m) <==> m in db.messages && CanAccess(db, m, u)
  {
    var js, granted := Join(db.messages, db.users), GrantedIds(db.grants, u);
    var rows := InboxRows(js, u, granted);
    JoinMembers(db, m);
    forall j | j in result ensures j in rows { assert j in multiset(result); }
    forall j | j in rows ensures j in result { assert j in multiset(rows); }
    assert m.id in granted <==> HasAccess(db, m.id, u);
  }

  /** GET of one message answers 200 exactly when the message is in the list. */
  lemma GetAgrees(db: Db, u: nat, result: seq<Joined>, id: nat, now: int)
    requires DbOk(db) && IsInbox(db, u, result)
    ensures Handle(db, now, Get(u, id)).code == 200 <==> exists j :: j in result && j.message.id == id
  {
    GetByIdIs(db, id);
    var msg := GetById(db, id);
    if msg.Some? {
      InboxAgrees(db, u, result, msg.value);
    }
    forall j | j in result && j.message.id == id ensures msg == Some(j.message) {
      InboxAgrees(db, u, result, j.message);
    }
  }

  /** j names and keys are those of the message's sender and recipient. */
  predicate NamedRight(j: Joined, us: seq<UserRow>) {
    (exists s :: s in us && s.id == j.message.sender && s.username == j.senderName && s.publicKey == j.senderKey) &&
    (exists r :: r in us && r.id == j.message.recipient && r.username == j.recipientName)
  }

  lemma {:induction false} SendersNamed(m: MessageRow, ss: seq<UserRow>, rs: seq<UserRow>, us: seq<UserRow>)
    requires forall s :: s in ss ==> s in us && s.id == m.sender
    requires forall r :: r in rs ==> r in us && r.id == m.recipient
    ensures forall j :: j in JoinSenders(m, ss, rs) ==> NamedRight(j, us)
  {
    if ss == [] {
    } else {
      var s := ss[|ss| - 1];
      SendersNamed(m, ss[..|ss| - 1], rs, us);
      forall j | j in JoinRecipients(m, s, rs) ensures NamedRight(j, us) {
        var i :| 0 <= i < |rs| && j == JoinRecipients(m, s, rs)[i];
        assert s in ss && rs[i] in rs;
      }
    }
  }

  /** Every row of an inbox carries the names and key of its own sender and recipient. */
  lemma {:induction false} JoinNamed(ms: seq<MessageRow>, us: seq<UserRow>)
    ensures forall j :: j in Join(ms, us) ==> NamedRight(j, us)
  {
    if ms == [] {
    } else {
      var m := ms[|ms| - 1];
      JoinNamed(ms[..|ms| - 1], us);
      SendersNamed(m, UsersWith(us, m.sender), UsersWith(us, m.recipient), us);
    }
  }

  lemma InboxNamed(db: Db, u: nat, result: seq<Joined>, j: Joined)
    requires IsInbox(db, u, result) && j in result
    ensures NamedRight(j, db.users)
  {
    JoinNamed(db.messages, db.users);
    assert j in multiset(result);
  }

  // ---------------------------------------------------------------- every request keeps the tables intact

  lemma {:induction false} DropDistinct(ms: seq<MessageRow>, id: nat)
    requires DistinctMessages(ms)
    ensures DistinctMessages(DropMessage(ms, id))
  {
    if ms == [] {
    } else {
      var n := |ms| - 1;
      DropDistinct(ms[..n], id);
      forall m | m in DropMessage(ms[..n], id) ensures m.id != ms[n].id { assert m in ms[..n]; }
    }
  }

  lemma {:induction false} DropGrantsDistinct(gs: seq<GrantRow>, m: nat)
    requires DistinctGrants(gs)
    ensures DistinctGrants(DropGrants(gs, m))
  {
    if gs == [] {
    } else {
      var n := |gs| - 1;
      DropGrantsDistinct(gs[..n], m);
      forall g | g in DropGrants(gs[..n], m) ensures !GrantFor(gs[n], g.message, g.user) { assert g in gs[..n]; }
    }
  }

  lemma AddUserKeeps(db: Db, username: string, publicKey: string)
    requires DbOk(db)
    ensures DbOk(AddUserReply(db, username, publicKey).db)
  {
    var d := AddUserReply(db, username, publicKey).db;
    assert d.users[..|db.users|] == db.users;
    forall i | 0 <= i < |db.users| ensures db.users[i].id < db.nextUser { assert db.users[i] in db.users; }
    forall u: nat | UserExists(db, u) ensures UserExists(d, u) {}
    forall g | g in d.grants ensures GrantedToOther(d, g) { assert GrantedToOther(db, g); }
  }

  lemma CreateKeeps(db: Db, me: nat, recipient: nat, ciphertext: string, ephPub: string, now: int)
    requires DbOk(db) && me != recipient
    ensures DbOk(Create(db, me, recipient, ciphertext, ephPub, now).db)
  {
    var d := Create(db, me, recipient, ciphertext, ephPub, now).db;
    forall i | 0 <= i < |db.messages| ensures db.messages[i].id < db.nextMessage {
      assert db.messages[i] in db.messages;
    }
    forall u: nat ensures UserExists(d, u) == UserExists(db, u) {}
    forall g | g in d.grants ensures GrantedToOther(d, g) {
      assert GrantedToOther(db, g);
      var m :| m in db.messages && m.id == g.message && m.sender != g.user && m.recipient != g.user;
      assert m in d.messages;
    }
  }

  lemma DeleteKeeps(db: Db, m: nat)
    requires DbOk(db)
    ensures DbOk(Deletion(db, m))
  {
    var d := Deletion(db, m);
    DropDistinct(db.messages, m);
    DropGrantsDistinct(db.grants, m);
    forall u: nat ensures UserExists(d, u) == UserExists(db, u) {}
    forall g | g in d.grants ensures UserExists(d, g.user) && GrantedToOther(d, g) {
      assert g in db.grants && GrantedToOther(db, g);
      var x :| x in db.messages && x.id == g.message && x.sender != g.user && x.recipient != g.user;
      assert x in d.messages;
    }
  }

  /** Changing the grant table alone: what has to be checked. */
  lemma GrantsChange(db: Db, gs: seq<GrantRow>)
    requires DbOk(db) && DistinctGrants(gs)
    requires forall i :: 0 <= i < |gs| ==> UserExists(db, gs[i].user) && GrantedToOther(db, gs[i])
    ensures DbOk(db.(grants := gs))
  {
    var d := db.(grants := gs);
    forall u: nat ensures UserExists(d, u) == UserExists(db, u) {}
    forall g | g in gs ensures UserExists(d, g.user) && GrantedToOther(d, g) { assert GrantedToOther(db, g); }
  }

  lemma GrantKeeps(db: Db, m: nat, u: nat, now: int)
    requires DbOk(db) && UserExists(db, u) && GrantedToOther(db, GrantRow(m, u, now, None))
    ensures DbOk(db.(grants := Upsert(db.grants, m, u, now)))
  {
    var gs := Upsert(db.grants, m, u, now);
    forall i | 0 <= i < |gs| ensures UserExists(db, gs[i].user) && GrantedToOther(db, gs[i]) {
      if i < |db.grants| {
        assert db.grants[i] in db.grants;
        assert GrantedToOther(db, db.grants[i]);
      }
      assert GrantedToOther(db, GrantRow(m, u, now, None));
    }
    GrantsChange(db, gs);
  }

  lemma RevokeKeeps(db: Db, m: nat, u: nat, now: int)
    requires DbOk(db)
    ensures DbOk(db.(grants := SetRevoked(db.grants, m, u, now)))
  {
    var gs := SetRevoked(db.grants, m, u, now);
    forall i | 0 <= i < |gs| ensures UserExists(db, gs[i].user) && GrantedToOther(db, gs[i]) {
      assert db.grants[i] in db.grants;
      assert GrantedToOther(db, db.grants[i]);
    }
    GrantsChange(db, gs);
  }

  lemma GrantHandled(db: Db, now: int, me: nat, m: nat, user: nat)
    requires DbOk(db)
    ensures DbOk(GrantReply(db, now, me, m, user).db)
  {
    GetByIdIs(db, m);
    if GrantReply(db, now, me, m, user).code == 200 {
      assert GrantedToOther(db, GrantRow(m, user, now, None));
      GrantKeeps(db, m, user, now);
    }
  }

  lemma SendHandled(db: Db, now: int, me: nat, recipient: nat, ciphertext: string, ephPub: string)
    requires DbOk(db)
    ensures DbOk(SendReply(db, now, me, recipient, ciphertext, ephPub).db)
  {
    if me != recipient {
      CreateKeeps(db, me, recipient, ciphertext, ephPub, now);
    }
  }

  lemma DeleteHandled(db: Db, me: nat, m: nat)
    requires DbOk(db)
    ensures DbOk(DeleteReply(db, me, m).db)
  {
    DeleteKeeps(db, m);
  }

  lemma RevokeHandled(db: Db, now: int, me: nat, m: nat, user: nat)
    requires DbOk(db)
    ensures DbOk(RevokeReply(db, now, me, m, user).db)
  {
    RevokeKeeps(db, m, user, now);
  }

  lemma HandleKeeps(db: Db, now: int, request: Request)
    requires DbOk(db)
    ensures DbOk(Handle(db, now, request).db)
  {
    match request
    case AddUser(username, publicKey) => AddUserKeeps(db, username, publicKey);
    case Send(me, recipient, ciphertext, ephPub) => SendHandled(db, now, me, recipient, ciphertext, ephPub);
    case Forward(me, _, recipient, ciphertext, ephPub) => SendHandled(db, now, me, recipient, ciphertext, ephPub);
    case Delete(me, m) => DeleteHandled(db, me, m);
    case Grant(me, m, user) => GrantHandled(db, now, me, m, user);
    case Revoke(me, m, user) => RevokeHandled(db, now, me, m, user);
    case Get(_, _) =>
  }

  // ---------------------------------------------------------------- access and history

  datatype Event = Event(now: int, request: Request)

  function After(es: seq<Event>): Db {
    if es == [] then EMPTY
    else Handle(After(es[..|es| - 1]), es[|es| - 1].now, es[|es| - 1].request).db
  }

  /** What happened, in order: one entry for each request that succeeded in changing something. */
  function History(es: seq<Event>): seq<Fact> {
    if es == [] then []
    else
      var n := |es| - 1;
      var fact := Handle(After(es[..n]), es[n].now, es[n].request).fact;
      if fact.Some? then History(es[..n]) + [fact.value] else History(es[..n])
  }

  /** m was created by a for b and has not been deleted since. */
  predicate Alive(log: seq<Fact>, m: nat, a: nat, b: nat) {
    exists i :: 0 <= i < |log| && log[i] == Created(m, a, b) && NoneAfter(log, i, Deleted(m))
  }

  predicate NoneAfter(log: seq<Fact>, i: nat, f: Fact) {
    forall j :: i < j < |log| ==> log[j] != f
  }

  /** The last grant or revocation of m to u was a grant, and m has not been deleted since. */
  predicate Stands(log: seq<Fact>, m: nat, u: nat) {
    exists i :: 0 <= i < |log| && log[i] == Granted(m, u) &&
      NoneAfter(log, i, Revoked(m, u)) && NoneAfter(log, i, Deleted(m))
  }

  ghost predicate Readable(log: seq<Fact>, m: nat, u: nat) {
    exists a: nat, b: nat :: Alive(log, m, a, b) && (u == a || u == b || Stands(log, m, u))
  }

  lemma NoneAfterAppend(log: seq<Fact>, f: Fact, i: nat, g: Fact)
    requires i < |log|
    ensures NoneAfter(log + [f], i, g) <==> NoneAfter(log, i, g) && f != g
  {
    assert (log + [f])[|log|] == f;
    if NoneAfter(log + [f], i, g) {
      forall j | i < j < |log| ensures log[j] != g { assert (log + [f])[j] == log[j]; }
    }
  }

  lemma AliveAppend(log: seq<Fact>, f: Fact, m: nat, a: nat, b: nat)
    ensures Alive(log + [f], m, a, b) <==> f == Created(m, a, b) || (Alive(log, m, a, b) && f != Deleted(m))
  {
    var l := log + [f];
    assert l[|log|] == f;
    if f == Created(m, a, b) {
      assert NoneAfter(l, |log|, Deleted(m));
    }
    if Alive(l, m, a, b) && f != Created(m, a, b) {
      var i :| 0 <= i < |l| && l[i] == Created(m, a, b) && NoneAfter(l, i, Deleted(m));
      NoneAfterAppend(log, f, i, Deleted(m));
    }
    if Alive(log, m, a, b) && f != Deleted(m) {
      var i :| 0 <= i < |log| && log[i] == Created(m, a, b) && NoneAfter(log, i, Deleted(m));
      NoneAfterAppend(log, f, i, Deleted(m));
      assert l[i] == Created(m, a, b);
    }
  }

  lemma StandsAppend(log: seq<Fact>, f: Fact, m: nat, u: nat)
    ensures Stands(log + [f], m, u) <==>
      f == Granted(m, u) || (Stands(log, m, u) && f != Revoked(m, u) && f != Deleted(m))
  {
    var l := log + [f];
    assert l[|log|] == f;
    if f == Granted(m, u) {
      assert NoneAfter(l, |log|, Deleted(m)) && NoneAfter(l, |log|, Revoked(m, u));
    }
    if Stands(l, m, u) && f != Granted(m, u) {
      var i :| 0 <= i < |l| && l[i] == Granted(m, u) && NoneAfter(l, i, Revoked(m, u)) && NoneAfter(l, i, Deleted(m));
      NoneAfterAppend(log, f, i, Deleted(m));
      NoneAfterAppend(log, f, i, Revoked(m, u));
    }
    if Stands(log, m, u) && f != Revoked(m, u) && f != Deleted(m) {
      var i :| 0 <= i < |log| && log[i] == Granted(m, u) &&
        NoneAfter(log, i, Revoked(m, u)) && NoneAfter(log, i, Deleted(m));
      NoneAfterAppend(log, f, i, Deleted(m));
      NoneAfterAppend(log, f, i, Revoked(m, u));
      assert l[i] == Granted(m, u);
    }
  }

  /** The table holds a row for m from a to b. */
  predicate Holds(db: Db, m: nat, a: nat, b: nat) {
    exists x :: x in db.messages && x.id == m && x.sender == a && x.recipient == b
  }

  /** Rows for m from a to b follow what the reply says was done. */
  predicate HoldsFollows(db: Db, r: Reply, m: nat, a: nat, b: nat) {
    Holds(r.db, m, a, b) <==> r.fact == Some(Created(m, a, b)) || (Holds(db, m, a, b) && r.fact != Some(Deleted(m)))
  }

  lemma CreateHolds(db: Db, me: nat, recipient: nat, ciphertext: string, ephPub: string, now: int,
                    m: nat, a: nat, b: nat)
    ensures HoldsFollows(db, Create(db, me, recipient, ciphertext, ephPub, now), m, a, b)
  {
    var r := Create(db, me, recipient, ciphertext, ephPub, now);
    if r.fact.Some? {
      assert r.db.messages[|db.messages|] in r.db.messages;
      forall x | x in db.messages ensures x in r.db.messages {}
    }
  }

  lemma SendHolds(db: Db, now: int, me: nat, recipient: nat, ciphertext: string, ephPub: string, m: nat, a: nat, b: nat)
    ensures HoldsFollows(db, SendReply(db, now, me, recipient, ciphertext, ephPub), m, a, b)
  {
    CreateHolds(db, me, recipient, ciphertext, ephPub, now, m, a, b);
  }

  lemma DeleteHolds(db: Db, me: nat, m': nat, m: nat, a: nat, b: nat)
    ensures HoldsFollows(db, DeleteReply(db, me, m'), m, a, b)
  {
  }

  lemma GrantHoldsRows(db: Db, now: int, me: nat, m': nat, user: nat, m: nat, a: nat, b: nat)
    ensures HoldsFollows(db, GrantReply(db, now, me, m', user), m, a, b)
    ensures HoldsFollows(db, RevokeReply(db, now, me, m', user), m, a, b)
  {
  }

  lemma HoldsStep(db: Db, now: int, request: Request, m: nat, a: nat, b: nat)
    ensures HoldsFollows(db, Handle(db, now, request), m, a, b)
  {
    match request
    case AddUser(_, _) =>
    case Send(me, recipient, ciphertext, ephPub) => SendHolds(db, now, me, recipient, ciphertext, ephPub, m, a, b);
    case Forward(me, _, recipient, ciphertext, ephPub) =>
      SendHolds(db, now, me, recipient, ciphertext, ephPub, m, a, b);
    case Delete(me, m') => DeleteHolds(db, me, m', m, a, b);
    case Grant(me, m', user) => GrantHoldsRows(db, now, me, m', user, m, a, b);
    case Revoke(me, m', user) => GrantHoldsRows(db, now, me, m', user, m, a, b);
    case Get(_, _) =>
  }

  lemma GrantHolds(gs: seq<GrantRow>, m: nat, u: nat)
    ensures (exists g :: g in gs && g.message == m && g.user == u && g.revokedAt.None?) <==>
      (exists i :: 0 <= i < |gs| && GrantFor(gs[i], m, u) && gs[i].revokedAt.None?)
  {
    if exists i :: 0 <= i < |gs| && GrantFor(gs[i], m, u) && gs[i].revokedAt.None? {
      var i :| 0 <= i < |gs| && GrantFor(gs[i], m, u) && gs[i].revokedAt.None?;
      assert gs[i] in gs;
    }
  }

  lemma UpsertAccess(db: Db, m: nat, u: nat, now: int, m': nat, u': nat)
    ensures HasAccess(db.(grants := Upsert(db.grants, m, u, now)), m', u') <==>
      (m' == m && u' == u) || HasAccess(db, m', u')
  {
    var gs := Upsert(db.grants, m, u, now);
    GrantHolds(gs, m', u');
    GrantHolds(db.grants, m', u');
    if HasRow(db.grants, m, u) {
      var k :| 0 <= k < |db.grants| && GrantFor(db.grants[k], m, u);
      assert GrantFor(gs[k], m, u) && gs[k].revokedAt.None?;
      if HasAccess(db, m', u') {
        var i :| 0 <= i < |db.grants| && GrantFor(db.grants[i], m', u') && db.grants[i].revokedAt.None?;
        assert GrantFor(gs[i], m', u') && gs[i].revokedAt.None?;
      }
    } else {
      assert gs[|db.grants|] == GrantRow(m, u, now, None);
      assert forall i :: 0 <= i < |db.grants| ==> gs[i] == db.grants[i];
    }
  }

  lemma RevokeAccess(db: Db, m: nat, u: nat, now: int, m': nat, u': nat)
    ensures HasAccess(db.(grants := SetRevoked(db.grants, m, u, now)), m', u') <==>
      HasAccess(db, m', u') && !(m' == m && u' == u)
  {
    var gs := SetRevoked(db.grants, m, u, now);
    GrantHolds(gs, m', u');
    GrantHolds(db.grants, m', u');
    if HasAccess(db, m', u') && !(m' == m && u' == u) {
      var i :| 0 <= i < |db.grants| && GrantFor(db.grants[i], m', u') && db.grants[i].revokedAt.None?;
      assert gs[i] == db.grants[i];
    }
  }

  lemma DropAccess(db: Db, m: nat, m': nat, u': nat)
    ensures HasAccess(Deletion(db, m), m', u') <==> HasAccess(db, m', u') && m' != m
  {
  }

  /** Grants of m to u follow what the reply says was done. */
  predicate AccessFollows(db: Db, r: Reply, m: nat, u: nat) {
    HasAccess(r.db, m, u) <==>
      r.fact == Some(Granted(m, u)) ||
      (HasAccess(db, m, u) && r.fact != Some(Revoked(m, u)) && r.fact != Some(Deleted(m)))
  }

  lemma SendAccess(db: Db, now: int, me: nat, recipient: nat, ciphertext: string, ephPub: string, m: nat, u: nat)
    ensures AccessFollows(db, SendReply(db, now, me, recipient, ciphertext, ephPub), m, u)
  {
  }

  lemma DeleteAccess(db: Db, me: nat, m': nat, m: nat, u: nat)
    ensures AccessFollows(db, DeleteReply(db, me, m'), m, u)
  {
    DropAccess(db, m', m, u);
  }

  lemma GrantAccess(db: Db, now: int, me: nat, m': nat, user: nat, m: nat, u: nat)
    ensures AccessFollows(db, GrantReply(db, now, me, m', user), m, u)
  {
    UpsertAccess(db, m', user, now, m, u);
  }

  lemma UnshareAccess(db: Db, now: int, me: nat, m': nat, user: nat, m: nat, u: nat)
    ensures AccessFollows(db, RevokeReply(db, now, me, m', user), m, u)
  {
    RevokeAccess(db, m', user, now, m, u);
  }

  lemma AccessStep(db: Db, now: int, request: Request, m: nat, u: nat)
    ensures AccessFollows(db, Handle(db, now, request), m, u)
  {
    match request
    case AddUser(_, _) =>
    case Send(me, recipient, ciphertext, ephPub) => SendAccess(db, now, me, recipient, ciphertext, ephPub, m, u);
    case Forward(me, _, recipient, ciphertext, ephPub) => SendAccess(db, now, me, recipient, ciphertext, ephPub, m, u);
    case Delete(me, m') => DeleteAccess(db, me, m', m, u);
    case Grant(me, m', user) => GrantAccess(db, now, me, m', user, m, u);
    case Revoke(me, m', user) => UnshareAccess(db, now, me, m', user, m, u);
    case Get(_, _) =>
  }

  lemma {:induction false} TablesAreHistory(es: seq<Event>, m: nat, u: nat)
    ensures DbOk(After(es))
    ensures forall a: nat, b: nat :: Holds(After(es), m, a, b) <==> Alive(History(es), m, a, b)
    ensures HasAccess(After(es), m, u) <==> Stands(History(es), m, u)
  {
    if es == [] {
    } else {
      var n := |es| - 1;
      var db, e := After(es[..n]), es[n];
      TablesAreHistory(es[..n], m, u);
      HandleKeeps(db, e.now, e.request);
      AccessStep(db, e.now, e.request, m, u);
      var fact := Handle(db, e.now, e.request).fact;
      if fact.Some? { StandsAppend(History(es[..n]), fact.value, m, u); }
      forall a: nat, b: nat ensures Holds(After(es), m, a, b) <==> Alive(History(es), m, a, b) {
        HoldsStep(db, e.now, e.request, m, a, b);
        if fact.Some? { AliveAppend(History(es[..n]), fact.value, m, a, b); }
      }
    }
  }

  /**
   * In every reachable state u can read m exactly when m was created and not deleted and u is its
   * sender or its recipient, or the last successful grant or revocation of m to u was a grant.
   */
  lemma AccessIsHistory(es: seq<Event>, now: int, m: nat, u: nat)
    ensures Handle(After(es), now, Get(u, m)).code == 200 <==> Readable(History(es), m, u)
  {
    TablesAreHistory(es, m, u);
    GetIs(After(es), now, m, u);
    if Readable(History(es), m, u) {
      var a: nat, b: nat :| Alive(History(es), m, a, b) && (u == a || u == b || Stands(History(es), m, u));
      assert Holds(After(es), m, a, b);
    }
  }

  lemma GetIs(db: Db, now: int, m: nat, u: nat)
    requires DbOk(db)
    ensures Handle(db, now, Get(u, m)).code == 200 <==>
      exists a: nat, b: nat :: Holds(db, m, a, b) && (u == a || u == b || HasAccess(db, m, u))
  {
    GetByIdIs(db, m);
    if Handle(db, now, Get(u, m)).code == 200 {
      var x := GetById(db, m).value;
      assert Holds(db, m, x.sender, x.recipient);
    }
    forall a: nat, b: nat | Holds(db, m, a, b)
      ensures GetById(db, m).Some? && GetById(db, m).value.id == m &&
        GetById(db, m).value.sender == a && GetById(db, m).value.recipient == b
    {
      var x :| x in db.messages && x.id == m && x.sender == a && x.recipient == b;
    }
  }

  /** No grant row ever names the message's own sender or recipient, and those two always differ. */
  lemma GrantsNameOthers(es: seq<Event>, g: GrantRow, x: MessageRow)
    requires g in After(es).grants && x in After(es).messages
    ensures x.sender != x.recipient
    ensures g.message == x.id ==> g.user != x.sender && g.user != x.recipient
  {
    TablesAreHistory(es, 0, 0);
    var db := After(es);
    assert GrantedToOther(db, g);
    GetByIdIs(db, g.message);
  }

  /** The list a user is shown, after any run: each message that history lets the user read, once, newest first. */
  lemma InboxIsHistory(es: seq<Event>, u: nat, result: seq<Joined>, m: nat)
    requires IsInbox(After(es), u, result)
    ensures (exists j :: j in result && j.message.id == m) <==> Readable(History(es), m, u)
    ensures DistinctIds(result)
    ensures forall i, j :: 0 <= i < j < |result| ==> result[i].message.createdAt >= result[j].message.createdAt
  {
    TablesAreHistory(es, m, u);
    AccessIsHistory(es, 0, m, u);
    GetAgrees(After(es), u, result, m, 0);
    InboxNoRepeats(After(es), u, result);
  }

  // ---------------------------------------------------------------- every answer in terms of history

  /** The rows of users, from the registrations alone: the n-th has id n. */
  function Accounts(es: seq<Event>): seq<UserRow> {
    if es == [] then []
    else
      var earlier, q := Accounts(es[..|es| - 1]), es[|es| - 1].request;
      if q.AddUser? then earlier + [UserRow(|earlier|, q.username, q.publicKey)] else earlier
  }

  lemma UsersChange(db: Db, now: int, q: Request)
    ensures
      var d := Handle(db, now, q).db;
      if q.AddUser? then
        d.users == db.users + [UserRow(db.nextUser, q.username, q.publicKey)] && d.nextUser == db.nextUser + 1
      else d.users == db.users && d.nextUser == db.nextUser
  {
  }

  /** The users table holds the registrations, in order. */
  lemma {:induction false} UsersAre(es: seq<Event>)
    ensures After(es).users == Accounts(es) && After(es).nextUser == |Accounts(es)|
    ensures forall i :: 0 <= i < |Accounts(es)| ==> Accounts(es)[i].id == i
  {
    if es == [] {
    } else {
      UsersAre(es[..|es| - 1]);
      UsersChange(After(es[..|es| - 1]), es[|es| - 1].now, es[|es| - 1].request);
    }
  }

  lemma UserKnown(es: seq<Event>, id: nat)
    ensures UserExists(After(es), id) <==> id < |Accounts(es)|
  {
    UsersAre(es);
    var us := After(es).users;
    if id < |us| {
      assert us[id] in us && us[id] in UsersWith(us, id);
    }
    if UserExists(After(es), id) {
      assert UsersWith(us, id)[0] in UsersWith(us, id);
    }
  }

  /** m was created and has not been deleted. */
  ghost predicate Present(log: seq<Fact>, m: nat) {
    exists a: nat, b: nat :: Alive(log, m, a, b)
  }

  ghost predicate SenderOf(log: seq<Fact>, m: nat, me: nat) {
    exists b: nat :: Alive(log, m, me, b)
  }

  ghost predicate PartyTo(log: seq<Fact>, m: nat, me: nat) {
    exists a: nat, b: nat :: Alive(log, m, a, b) && (me == a || me == b)
  }

  function SendCode(es: seq<Event>, me: nat, recipient: nat): int {
    if recipient == me then 400
    else if recipient >= |Accounts(es)| then 404
    else if me >= |Accounts(es)| then 500
    else 201
  }

  /** What each request is to be answered after a run, by what happened in it. */
  ghost function Answer(es: seq<Event>, q: Request): int {
    var log := History(es);
    match q
    case AddUser(_, _) => 201
    case Send(me, recipient, _, _) => SendCode(es, me, recipient)
    case Forward(me, m, recipient, _, _) =>
      if !Present(log, m) then 404 else if !Readable(log, m, me) then 403 else SendCode(es, me, recipient)
    case Delete(me, m) => if !Present(log, m) then 404 else if !PartyTo(log, m, me) then 403 else 200
    case Grant(me, m, user) =>
      if !Present(log, m) then 404
      else if !SenderOf(log, m, me) then 403
      else if user >= |Accounts(es)| then 404
      else if PartyTo(log, m, user) then 409
      else 200
    case Revoke(me, m, user) =>
      if !Present(log, m) then 404
      else if !SenderOf(log, m, me) then 403
      else if !Stands(log, m, user) then 404
      else 200
    case Get(me, m) => if !Present(log, m) then 404 else if !Readable(log, m, me) then 403 else 200
  }

  /** A request that draws a message id: a send or forward that comes as far as the INSERT. */
  ghost predicate Draws(es: seq<Event>, q: Request) {
    (q.Send? || q.Forward?) && (Answer(es, q) == 201 || Answer(es, q) == 500)
  }

  ghost function IdsDrawn(es: seq<Event>): nat {
    if es == [] then 0
    else IdsDrawn(es[..|es| - 1]) + (if Draws(es[..|es| - 1], es[|es| - 1].request) then 1 else 0)
  }

  /** What a request is to do after a run. */
  ghost function Effect(es: seq<Event>, q: Request): Option<Fact> {
    if Answer(es, q) != 200 && Answer(es, q) != 201 then None
    else
      match q
      case AddUser(_, _) => None
      case Send(me, recipient, _, _) => Some(Created(IdsDrawn(es), me, recipient))
      case Forward(me, _, recipient, _, _) => Some(Created(IdsDrawn(es), me, recipient))
      case Delete(_, m) => Some(Deleted(m))
      case Grant(_, m, user) => Some(Granted(m, user))
      case Revoke(_, m, user) => Some(Revoked(m, user))
      case Get(_, _) => None
  }

  /** The row found for m is the one message that history knows under m. */
  ghost predicate RowMatches(log: seq<Fact>, m: nat, row: Option<MessageRow>) {
    if row.None? then forall a: nat, b: nat :: !Alive(log, m, a, b)
    else
      row.value.id == m &&
      forall a: nat, b: nat :: Alive(log, m, a, b) <==> a == row.value.sender && b == row.value.recipient
  }

  lemma RowByHistory(es: seq<Event>, m: nat, u: nat)
    ensures RowMatches(History(es), m, GetById(After(es), m))
    ensures HasAccess(After(es), m, u) <==> Stands(History(es), m, u)
  {
    var db, log := After(es), History(es);
    TablesAreHistory(es, m, u);
    GetByIdIs(db, m);
    forall a: nat, b: nat | Alive(log, m, a, b)
      ensures GetById(db, m).Some? && a == GetById(db, m).value.sender && b == GetById(db, m).value.recipient
    {
      assert Holds(db, m, a, b);
      var x :| x in db.messages && x.id == m && x.sender == a && x.recipient == b;
    }
    if GetById(db, m).Some? {
      var x := GetById(db, m).value;
      assert Holds(db, m, x.sender, x.recipient);
    }
  }

  /** The three relations a user can have to a message, read off its row. */
  lemma Relations(log: seq<Fact>, m: nat, row: Option<MessageRow>, me: nat)
    requires RowMatches(log, m, row)
    ensures Present(log, m) <==> row.Some?
    ensures SenderOf(log, m, me) <==> row.Some? && row.value.sender == me
    ensures PartyTo(log, m, me) <==> row.Some? && (row.value.sender == me || row.value.recipient == me)
    ensures Readable(log, m, me) <==>
      row.Some? && (row.value.sender == me || row.value.recipient == me || Stands(log, m, me))
  {
    if row.Some? {
      assert Alive(log, m, row.value.sender, row.value.recipient);
    }
  }

  /** The relations of me to m after a run, and the grants of m to u. */
  lemma RelationsAre(es: seq<Event>, m: nat, me: nat)
    ensures
      var log, row := History(es), GetById(After(es), m);
      (Present(log, m) <==> row.Some?) && (row.Some? ==> row.value.id == m) &&
      (SenderOf(log, m, me) <==> row.Some? && row.value.sender == me) &&
      (PartyTo(log, m, me) <==> row.Some? && (row.value.sender == me || row.value.recipient == me)) &&
      (Readable(log, m, me) <==>
        row.Some? && (row.value.sender == me || row.value.recipient == me || Stands(log, m, me))) &&
      (HasAccess(After(es), m, me) <==> Stands(log, m, me))
  {
    RowByHistory(es, m, me);
    Relations(History(es), m, GetById(After(es), m), me);
  }

  lemma SendAnswer(es: seq<Event>, now: int, me: nat, recipient: nat, ciphertext: string, ephPub: string)
    ensures SendReply(After(es), now, me, recipient, ciphertext, ephPub).code == SendCode(es, me, recipient)
  {
    UserKnown(es, me);
    UserKnown(es, recipient);
  }

  lemma ForwardAnswer(es: seq<Event>, now: int, q: Request)
    requires q.Forward?
    ensures ForwardReply(After(es), now, q.me, q.m, q.recipient, q.ciphertext, q.ephPub).code == Answer(es, q)
  {
    RelationsAre(es, q.m, q.me);
    SendAnswer(es, now, q.me, q.recipient, q.ciphertext, q.ephPub);
  }

  lemma DeleteAnswer(es: seq<Event>, q: Request)
    requires q.Delete?
    ensures DeleteReply(After(es), q.me, q.m).code == Answer(es, q)
  {
    RelationsAre(es, q.m, q.me);
  }

  lemma GrantAnswer(es: seq<Event>, now: int, q: Request)
    requires q.Grant?
    ensures GrantReply(After(es), now, q.me, q.m, q.user).code == Answer(es, q)
  {
    RelationsAre(es, q.m, q.me);
    RelationsAre(es, q.m, q.user);
    UserKnown(es, q.user);
  }

  lemma RevokeAnswer(es: seq<Event>, now: int, q: Request)
    requires q.Revoke?
    ensures RevokeReply(After(es), now, q.me, q.m, q.user).code == Answer(es, q)
  {
    RelationsAre(es, q.m, q.me);
    RelationsAre(es, q.m, q.user);
  }

  lemma GetAnswer(es: seq<Event>, q: Request)
    requires q.Get?
    ensures GetReply(After(es), q.me, q.m).code == Answer(es, q)
  {
    RelationsAre(es, q.m, q.me);
  }

  /** After any run, every request is answered by what happened in the run, error codes included. */
  lemma AnswerIs(es: seq<Event>, now: int, q: Request)
    ensures Handle(After(es), now, q).code == Answer(es, q)
  {
    match q
    case AddUser(_, _) =>
    case Send(me, recipient, ciphertext, ephPub) => SendAnswer(es, now, me, recipient, ciphertext, ephPub);
    case Forward(_, _, _, _, _) => ForwardAnswer(es, now, q);
    case Delete(_, _) => DeleteAnswer(es, q);
    case Grant(_, _, _) => GrantAnswer(es, now, q);
    case Revoke(_, _, _) => RevokeAnswer(es, now, q);
    case Get(_, _) => GetAnswer(es, q);
  }

  /** What a reply says was done, by its code. */
  predicate FactFits(db: Db, q: Request, r: Reply) {
    if r.code != 200 && r.code != 201 then r.fact == None
    else
      match q
      case AddUser(_, _) => r.fact == None
      case Send(me, recipient, _, _) => r.fact == Some(Created(db.nextMessage, me, recipient))
      case Forward(me, _, recipient, _, _) => r.fact == Some(Created(db.nextMessage, me, recipient))
      case Delete(_, m) => r.fact == Some(Deleted(m))
      case Grant(_, m, user) => r.fact == Some(Granted(m, user))
      case Revoke(_, m, user) => r.fact == Some(Revoked(m, user))
      case Get(_, _) => r.fact == None
  }

  lemma FactIs(db: Db, now: int, q: Request)
    ensures FactFits(db, q, Handle(db, now, q))
  {
  }

  lemma IdsChange(db: Db, now: int, q: Request)
    ensures
      var r := Handle(db, now, q);
      r.db.nextMessage ==
        db.nextMessage + (if (q.Send? || q.Forward?) && (r.code == 201 || r.code == 500) then 1 else 0)
  {
  }

  lemma {:induction false} IdsAre(es: seq<Event>)
    ensures After(es).nextMessage == IdsDrawn(es)
  {
    if es == [] {
    } else {
      var before, e := es[..|es| - 1], es[|es| - 1];
      IdsAre(before);
      AnswerIs(before, e.now, e.request);
      IdsChange(After(before), e.now, e.request);
    }
  }

  /** After any run, a request does what it asks for exactly when it is answered 200 or 201, under a fresh id. */
  lemma EffectIs(es: seq<Event>, now: int, q: Request)
    ensures Handle(After(es), now, q).fact == Effect(es, q)
  {
    AnswerIs(es, now, q);
    IdsAre(es);
    FactIs(After(es), now, q);
  }

  /** A request that does nothing leaves every table as it was. */
  lemma RefusedUnchanged(db: Db, now: int, q: Request)
    requires Handle(db, now, q).fact.None? && !q.AddUser?
    ensures
      var d := Handle(db, now, q).db;
      d.users == db.users && d.messages == db.messages && d.grants == db.grants
  {
  }

  // ---------------------------------------------------------------- what the writes do to the rows

  /** One row for this message and user, open since now; all other rows as they were. */
  lemma UpsertRows(gs: seq<GrantRow>, m: nat, u: nat, now: int, g: GrantRow)
    ensures g in Upsert(gs, m, u, now) <==> g == GrantRow(m, u, now, None) || (g in gs && !GrantFor(g, m, u))
  {
    var hs := Upsert(gs, m, u, now);
    if HasRow(gs, m, u) {
      var k :| 0 <= k < |gs| && GrantFor(gs[k], m, u);
      assert hs[k] == GrantRow(m, u, now, None);
      if g in gs && !GrantFor(g, m, u) {
        var i :| 0 <= i < |gs| && gs[i] == g;
        assert hs[i] == g;
      }
    }
  }

  /** The open row of this message and user gets its revocation time; all other rows are as they were. */
  lemma RevokedRows(gs: seq<GrantRow>, m: nat, u: nat, now: int, g: GrantRow)
    ensures g in SetRevoked(gs, m, u, now) <==>
      (g in gs && !(GrantFor(g, m, u) && g.revokedAt.None?)) ||
      (GrantFor(g, m, u) && g.revokedAt == Some(now) && g.(revokedAt := None) in gs)
  {
    var hs := SetRevoked(gs, m, u, now);
    if g in gs && !(GrantFor(g, m, u) && g.revokedAt.None?) {
      var i :| 0 <= i < |gs| && gs[i] == g;
      assert hs[i] == g;
    }
    if GrantFor(g, m, u) && g.revokedAt == Some(now) && g.(revokedAt := None) in gs {
      var i :| 0 <= i < |gs| && gs[i] == g.(revokedAt := None);
      assert hs[i] == g;
    }
    if g in hs {
      var i :| 0 <= i < |hs| && hs[i] == g;
      assert gs[i] in gs;
    }
  }

  /** What a successful grant, revocation or deletion leaves in the tables. */
  lemma WritesAre(db: Db, now: int, q: Request, g: GrantRow, x: MessageRow)
    requires Handle(db, now, q).code == 200 && (q.Grant? || q.Revoke? || q.Delete?)
    ensures
      var d := Handle(db, now, q).db;
      match q
      case Grant(_, m, user) =>
        d.messages == db.messages &&
        (g in d.grants <==> g == GrantRow(m, user, now, None) || (g in db.grants && !GrantFor(g, m, user)))
      case Revoke(_, m, user) =>
        d.messages == db.messages &&
        (g in d.grants <==>
          (g in db.grants && !(GrantFor(g, m, user) && g.revokedAt.None?)) ||
          (GrantFor(g, m, user) && g.revokedAt == Some(now) && g.(revokedAt := None) in db.grants))
      case Delete(_, m) =>
        (x in d.messages <==> x in db.messages && x.id != m) && (g in d.grants <==> g in db.grants && g.message != m)
      case _ => true
  {
    match q
    case Grant(_, m, user) => UpsertRows(db.grants, m, user, now, g);
    case Revoke(_, m, user) => RevokedRows(db.grants, m, user, now, g);
    case Delete(_, _) =>
    case _ =>
  }

  // ---------------------------------------------------------------- messages are never altered

  predicate RowsStay(db: Db, d: Db) {
    db.nextMessage <= d.nextMessage &&
    forall y :: y in d.messages ==> y in db.messages || y.id >= db.nextMessage
  }

  lemma StepStays(db: Db, now: int, request: Request)
    ensures RowsStay(db, Handle(db, now, request).db)
  {
  }

  lemma StaysTwice(a: Db, b: Db, c: Db)
    requires RowsStay(a, b) && RowsStay(b, c)
    ensures RowsStay(a, c)
  {
  }

  lemma {:induction false} RunStays(es: seq<Event>, i: nat)
    requires i <= |es|
    ensures RowsStay(After(es[..i]), After(es))
  {
    if i == |es| {
      assert es[..i] == es;
    } else {
      var n := |es| - 1;
      assert es[..n][..i] == es[..i];
      RunStays(es[..n], i);
      StepStays(After(es[..n]), es[n].now, es[n].request);
      StaysTwice(After(es[..i]), After(es[..n]), After(es));
    }
  }

  /** A row found under an id at any later point is the row that was there before. */
  lemma NeverAltered(es: seq<Event>, i: nat, x: MessageRow, y: MessageRow)
    requires i <= |es| && x in After(es[..i]).messages && y in After(es).messages && x.id == y.id
    ensures x == y
  {
    TablesAreHistory(es[..i], 0, 0);
    RunStays(es, i);
    SameRow(After(es[..i]).messages, x, y);
  }

  /** The row a send or a forward asks for. */
  function RowAsked(q: Request, id: nat, now: int): MessageRow
    requires q.Send? || q.Forward?
  {
    MessageRow(id, q.me, q.recipient, q.ciphertext, q.ephPub, now)
  }

  lemma CreatesAsked(db: Db, now: int, q: Request)
    requires (q.Send? || q.Forward?) && Handle(db, now, q).code == 201
    ensures
      var r := Handle(db, now, q);
      r.fact == Some(Created(db.nextMessage, q.me, q.recipient)) &&
      r.db.messages == db.messages + [RowAsked(q, db.nextMessage, now)]
  {
  }

  /**
   * While a message lasts, sent or forwarded, what is read back is what was submitted: parties,
   * ciphertext, ephemeral key and time.
   */
  lemma ReadBack(es: seq<Event>, i: nat, y: MessageRow)
    requires i < |es| && (es[i].request.Send? || es[i].request.Forward?) && y in After(es).messages
    requires Handle(After(es[..i]), es[i].now, es[i].request).code == 201
    requires Handle(After(es[..i]), es[i].now, es[i].request).fact.value.m == y.id
    ensures y == RowAsked(es[i].request, y.id, es[i].now)
  {
    var before := After(es[..i]);
    CreatesAsked(before, es[i].now, es[i].request);
    assert es[..i + 1][..i] == es[..i];
    var after := After(es[..i + 1]);
    assert after.messages[|before.messages|] == RowAsked(es[i].request, y.id, es[i].now);
    NeverAltered(es, i + 1, after.messages[|before.messages|], y);
  }

  // ---------------------------------------------------------------- who may act

  /** The user on whose behalf the request is made. */
  function Actor(request: Request): Option<nat> {
    if request.AddUser? then None else Some(request.me)
  }

  /** The row a request acted on, and its actor's part in it. */
  lemma ActsOnOwn(db: Db, now: int, request: Request)
    requires Handle(db, now, request).fact.Some? && !Handle(db, now, request).fact.value.Created?
    ensures
      var fact := Handle(db, now, request).fact.value;
      var msg := GetById(db, fact.m);
      msg.Some? && Actor(request).Some? &&
      (Actor(request).value == msg.value.sender || (fact.Deleted? && Actor(request).value == msg.value.recipient))
  {
  }

  lemma CreatesOwn(db: Db, now: int, request: Request)
    requires Handle(db, now, request).fact.Some? && Handle(db, now, request).fact.value.Created?
    ensures Actor(request) == Some(Handle(db, now, request).fact.value.sender)
  {
  }

  predicate Entitled(log: seq<Fact>, fact: Fact, me: nat, a: nat, b: nat) {
    Alive(log, fact.m, a, b) && (me == a || (fact.Deleted? && me == b))
  }

  /**
   * In every reachable state, a message is created only in its sender's own name, deleted only by
   * its sender or recipient, and shared or unshared only by its sender.
   */
  lemma OnlyOwnersAct(es: seq<Event>, now: int, request: Request)
    requires Handle(After(es), now, request).fact.Some?
    ensures
      var fact := Handle(After(es), now, request).fact.value;
      Actor(request).Some? &&
      if fact.Created? then Actor(request).value == fact.sender
      else exists a: nat, b: nat :: Entitled(History(es), fact, Actor(request).value, a, b)
  {
    var fact := Handle(After(es), now, request).fact.value;
    if fact.Created? {
      CreatesOwn(After(es), now, request);
    } else {
      ActsOnOwn(After(es), now, request);
      OwnerEntitled(es, fact, Actor(request).value);
    }
  }

  lemma OwnerEntitled(es: seq<Event>, fact: Fact, me: nat)
    requires
      var msg := GetById(After(es), fact.m);
      msg.Some? && (me == msg.value.sender || (fact.Deleted? && me == msg.value.recipient))
    ensures exists a: nat, b: nat :: Entitled(History(es), fact, me, a, b)
  {
    TablesAreHistory(es, fact.m, 0);
    FoundIsRow(After(es), fact.m);
    var x := GetById(After(es), fact.m).value;
    assert Holds(After(es), fact.m, x.sender, x.recipient);
    assert Entitled(History(es), fact, me, x.sender, x.recipient);
  }
}

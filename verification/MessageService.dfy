/** The message handlers as the server runs them: tables updated in place, early exits. */
module MessageHandlers {
  import opened Common
  import opened MessageStore

  lemma OneWithId(js: seq<Joined>, j: Joined, id: nat)
    ensures WithId(js + [j], id) == if j.message.id == id then WithId(js, id) + [j] else WithId(js, id)
  {
    assert (js + [j])[..|js|] == js;
  }

  lemma SplitLast(js: seq<Joined>, more: seq<Joined>)
    requires more != []
    ensures js + more == js + more[..|more| - 1] + [more[|more| - 1]]
  {
  }

  predicate RowsOf(js: seq<Joined>, m: MessageRow) {
    forall i :: 0 <= i < |js| ==> js[i].message == m
  }

  lemma {:induction false} RowsWithId(js: seq<Joined>, more: seq<Joined>, m: MessageRow)
    requires RowsOf(more, m)
    ensures WithId(js + more, m.id) == WithId(js, m.id) + more
  {
    if more == [] {
      assert js + more == js;
      assert WithId(js, m.id) + more == WithId(js, m.id);
    } else {
      var rest, last := more[..|more| - 1], more[|more| - 1];
      RowsWithId(js, rest, m);
      OneWithId(js + rest, last, m.id);
      SplitLast(js, more);
      SplitLast(WithId(js, m.id), more);
    }
  }

  lemma {:induction false} RowsWithoutId(js: seq<Joined>, more: seq<Joined>, m: MessageRow, id: nat)
    requires RowsOf(more, m) && m.id != id
    ensures WithId(js + more, id) == WithId(js, id)
  {
    if more == [] {
      assert js + more == js;
    } else {
      var rest, last := more[..|more| - 1], more[|more| - 1];
      RowsWithoutId(js, rest, m, id);
      OneWithId(js + rest, last, id);
      SplitLast(js, more);
    }
  }

  /** All the joined rows of m are rows of m. */
  lemma {:induction false} JoinedOf(m: MessageRow, ss: seq<UserRow>, rs: seq<UserRow>)
    ensures RowsOf(JoinSenders(m, ss, rs), m)
  {
    if ss == [] {
    } else {
      JoinedOf(m, ss[..|ss| - 1], rs);
    }
  }

  class MessageService {
    var users: seq<UserRow>
    var messages: seq<MessageRow>
    var grants: seq<GrantRow>
    var nextUser: nat
    var nextMessage: nat

    ghost function State(): Db
      reads this
    {
      Db(users, messages, grants, nextUser, nextMessage)
    }

    constructor ()
      ensures State() == EMPTY
    {
      users, messages, grants := [], [], [];
      nextUser, nextMessage := 0, 0;
    }

    method UserById(id: nat) returns (found: bool)
      ensures found <==> UserExists(State(), id)
    {
      found := false;
      for i := 0 to |users|
        invariant found <==> UsersWith(users[..i], id) != []
      {
        assert users[..i + 1][..i] == users[..i];
        if users[i].id == id {
          found := true;
        }
      }
      assert users[..|users|] == users;
    }

    /** The rows of users with this id, as the inner side of a join. */
    method UsersById(id: nat) returns (rows: seq<UserRow>)
      ensures rows == UsersWith(users, id)
    {
      rows := [];
      for i := 0 to |users|
        invariant rows == UsersWith(users[..i], id)
      {
        assert users[..i + 1][..i] == users[..i];
        if users[i].id == id {
          rows := rows + [users[i]];
        }
      }
      assert users[..|users|] == users;
    }

    /** One message row joined with its senders and, for each, with its recipients. */
    method Joins(m: MessageRow) returns (rows: seq<Joined>)
      ensures rows == JoinSenders(m, UsersWith(users, m.sender), UsersWith(users, m.recipient))
    {
      var senders := UsersById(m.sender);
      var recipients := UsersById(m.recipient);
      rows := [];
      for i := 0 to |senders|
        invariant rows == JoinSenders(m, senders[..i], recipients)
      {
        assert senders[..i + 1][..i] == senders[..i];
        var s := senders[i];
        rows := rows + seq(|recipients|, k requires 0 <= k < |recipients| =>
          Joined(m, s.username, s.publicKey, recipients[k].username));
      }
      assert senders[..|senders|] == senders;
    }

    /** The joined rows of the message with this id; the first one is the answer. */
    method MessageById(id: nat) returns (msg: Option<MessageRow>)
      ensures msg == GetById(State(), id)
    {
      var rows := [];
      for i := 0 to |messages|
        invariant rows == WithId(Join(messages[..i], users), id)
      {
        assert messages[..i + 1][..i] == messages[..i];
        var joined := Joins(messages[i]);
        JoinedOf(messages[i], UsersWith(users, messages[i].sender), UsersWith(users, messages[i].recipient));
        if messages[i].id == id {
          RowsWithId(Join(messages[..i], users), joined, messages[i]);
          rows := rows + joined;
        } else {
          RowsWithoutId(Join(messages[..i], users), joined, messages[i], id);
        }
      }
      assert messages[..|messages|] == messages;
      msg := if rows == [] then None else Some(rows[0].message);
    }

    method HasGrant(m: nat, user: nat) returns (found: bool)
      ensures found <==> HasAccess(State(), m, user)
    {
      for i := 0 to |grants|
        invariant forall k :: 0 <= k < i ==> !(GrantFor(grants[k], m, user) && grants[k].revokedAt.None?)
      {
        if grants[i].message == m && grants[i].user == user && grants[i].revokedAt.None? {
          assert grants[i] in grants;
          return true;
        }
      }
      found := false;
    }

    method MayRead(msg: MessageRow, me: nat) returns (ok: bool)
      ensures ok <==> CanAccess(State(), msg, me)
    {
      if msg.sender == me || msg.recipient == me { return true; }
      ok := HasGrant(msg.id, me);
    }

    /** INSERT INTO messages; the id is drawn even when a foreign key then refuses the row. */
    method CreateMessage(me: nat, recipient: nat, ciphertext: string, ephPub: string, now: int) returns (code: int)
      modifies this`messages, this`nextMessage
      ensures var r := Create(old(State()), me, recipient, ciphertext, ephPub, now); State() == r.db && code == r.code
    {
      var id := nextMessage;
      nextMessage := nextMessage + 1;
      var knownSender := UserById(me);
      if !knownSender { return 500; }
      var knownRecipient := UserById(recipient);
      if !knownRecipient { return 500; }
      messages := messages + [MessageRow(id, me, recipient, ciphertext, ephPub, now)];
      code := 201;
    }

    method SendMessage(me: nat, recipient: nat, ciphertext: string, ephPub: string, now: int) returns (code: int)
      modifies this
      ensures
        var r := Handle(old(State()), now, Send(me, recipient, ciphertext, ephPub));
        State() == r.db && code == r.code
    {
      if recipient == me { return 400; }
      var known := UserById(recipient);
      if !known { return 404; }
      code := CreateMessage(me, recipient, ciphertext, ephPub, now);
    }

    method ForwardMessage(me: nat, m: nat, recipient: nat, ciphertext: string, ephPub: string, now: int)
      returns (code: int)
      modifies this
      ensures
        var r := Handle(old(State()), now, Forward(me, m, recipient, ciphertext, ephPub));
        State() == r.db && code == r.code
    {
      var msg := MessageById(m);
      if msg.None? { return 404; }
      var allowed := MayRead(msg.value, me);
      if !allowed { return 403; }
      if recipient == me { return 400; }
      var known := UserById(recipient);
      if !known { return 404; }
      code := CreateMessage(me, recipient, ciphertext, ephPub, now);
    }

    method GetMessage(me: nat, m: nat, now: int) returns (code: int, body: Option<MessageRow>)
      ensures code == Handle(State(), now, Get(me, m)).code
      ensures body == if code == 200 then GetById(State(), m) else None
    {
      var msg := MessageById(m);
      if msg.None? { return 404, None; }
      var allowed := MayRead(msg.value, me);
      if !allowed { return 403, None; }
      code, body := 200, msg;
    }

    method RemoveMessage(m: nat)
      modifies this`messages
      ensures messages == DropMessage(old(messages), m)
    {
      var kept := [];
      for i := 0 to |messages|
        invariant messages == old(messages) && kept == DropMessage(messages[..i], m)
      {
        assert messages[..i + 1][..i] == messages[..i];
        if messages[i].id != m {
          kept := kept + [messages[i]];
        }
      }
      assert messages[..|messages|] == messages;
      messages := kept;
    }

    method RemoveGrants(m: nat)
      modifies this`grants
      ensures grants == DropGrants(old(grants), m)
    {
      var kept := [];
      for i := 0 to |grants|
        invariant grants == old(grants) && kept == DropGrants(grants[..i], m)
      {
        assert grants[..i + 1][..i] == grants[..i];
        if grants[i].message != m {
          kept := kept + [grants[i]];
        }
      }
      assert grants[..|grants|] == grants;
      grants := kept;
    }

    /** Update the row of this message and user where there is one, or add it. */
    method UpsertGrant(m: nat, user: nat, now: int)
      modifies this`grants
      ensures grants == Upsert(old(grants), m, user, now)
    {
      var present := false;
      for i := 0 to |grants|
        invariant |grants| == |old(grants)|
        invariant present <==> exists k :: 0 <= k < i && GrantFor(old(grants)[k], m, user)
        invariant forall k :: i <= k < |grants| ==> grants[k] == old(grants)[k]
        invariant forall k :: 0 <= k < i ==>
          grants[k] == if GrantFor(old(grants)[k], m, user) then GrantRow(m, user, now, None) else old(grants)[k]
      {
        if grants[i].message == m && grants[i].user == user {
          present := true;
          grants := grants[i := grants[i].(grantedAt := now, revokedAt := None)];
        }
      }
      assert present <==> HasRow(old(grants), m, user);
      if !present {
        assert grants == old(grants);
        grants := grants + [GrantRow(m, user, now, None)];
      }
    }

    method CloseGrant(m: nat, user: nat, now: int)
      modifies this`grants
      ensures grants == SetRevoked(old(grants), m, user, now)
    {
      for i := 0 to |grants|
        invariant |grants| == |old(grants)|
        invariant forall k :: i <= k < |grants| ==> grants[k] == old(grants)[k]
        invariant forall k :: 0 <= k < i ==> grants[k] == SetRevoked(old(grants), m, user, now)[k]
      {
        if grants[i].message == m && grants[i].user == user && grants[i].revokedAt.None? {
          grants := grants[i := grants[i].(revokedAt := Some(now))];
        }
      }
    }

    /** The grant rows go with the message: ON DELETE CASCADE. */
    method DeleteMessage(me: nat, m: nat, now: int) returns (code: int)
      modifies this`messages, this`grants
      ensures var r := Handle(old(State()), now, Delete(me, m)); State() == r.db && code == r.code
    {
      var msg := MessageById(m);
      if msg.None? { return 404; }
      if msg.value.sender != me && msg.value.recipient != me { return 403; }
      RemoveMessage(m);
      RemoveGrants(m);
      code := 200;
    }

    method GrantAccess(me: nat, m: nat, user: nat, now: int) returns (code: int)
      modifies this`grants
      ensures var r := Handle(old(State()), now, Grant(me, m, user)); State() == r.db && code == r.code
    {
      var msg := MessageById(m);
      if msg.None? { return 404; }
      if msg.value.sender != me { return 403; }
      var known := UserById(user);
      if !known { return 404; }
      if msg.value.sender == user || msg.value.recipient == user { return 409; }
      UpsertGrant(m, user, now);
      code := 200;
    }

    method RevokeAccess(me: nat, m: nat, user: nat, now: int) returns (code: int)
      modifies this`grants
      ensures var r := Handle(old(State()), now, Revoke(me, m, user)); State() == r.db && code == r.code
    {
      var msg := MessageById(m);
      if msg.None? { return 404; }
      if msg.value.sender != me { return 403; }
      var active := HasGrant(m, user);
      if !active { return 404; }
      CloseGrant(m, user, now);
      code := 200;
    }
  }
}

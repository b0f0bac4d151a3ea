/** `server/messageServer.js`: listing a user's messages, posting a message,
    marking one read, and the contact list of a user. Each handler reads the
    messages collection, changes it in memory and saves it; here each one is
    a single step on the `messages` field. Ids come from `Date.now()` and
    timestamps from the clock, so both are parameters. */
module MessageServer {
  import opened Common
  import opened Records
  import opened Seqs
  import Database

  /** `msg.senderId === userId || msg.receiverId === userId` */
  predicate Involves(m: Message, userId: string)
  {
    m.senderId == Str(userId) || m.receiverId == Str(userId)
  }

  /** `GET /api/messages/:userId` */
  function UserMessages(messages: seq<Message>, userId: string): (r: seq<Message>)
    ensures forall m :: m in r <==> m in messages && Involves(m, userId)
  {
    Filter(messages, (m: Message) => Involves(m, userId))
  }

  /** The listing keeps every message of the user as often as it is stored,
      and no other message. */
  lemma UserMessagesCounts(messages: seq<Message>, userId: string)
    ensures forall m :: multiset(UserMessages(messages, userId))[m] ==
                          if Involves(m, userId) then multiset(messages)[m] else 0
  {
    FilterMultiset(messages, (m: Message) => Involves(m, userId));
  }

  /** The listing is in stored order: it distributes over concatenation. */
  lemma UserMessagesInOrder(front: seq<Message>, back: seq<Message>, userId: string)
    ensures UserMessages(front + back, userId) ==
            UserMessages(front, userId) + UserMessages(back, userId)
  {
    FilterAppend(front, back, (m: Message) => Involves(m, userId));
  }

  /** The message `POST /api/messages` builds from its body: `type`
      defaults to `"text"` and `metadata` to `{}` only when missing, and a
      new message is unread. */
  function NewMessage(body: Record, id: string, now: int): (m: Message)
    ensures m.id == id && !m.read && m.createdAt == now && m.updatedAt == now
    ensures m.senderId == Get(body, "senderId") && m.receiverId == Get(body, "receiverId")
    ensures m.content == Get(body, "content")
    ensures m.msgType == Str("text") <==> Get(body, "type") in {Undefined, Str("text")}
    ensures m.msgType != Undefined && m.metadata != Undefined
    ensures Get(body, "type") != Undefined ==> m.msgType == Get(body, "type")
    ensures Get(body, "metadata") != Undefined ==> m.metadata == Get(body, "metadata")
  {
    var t := Get(body, "type");
    var md := Get(body, "metadata");
    Message(id, Get(body, "senderId"), Get(body, "receiverId"), Get(body, "content"),
            if t == Undefined then Str("text") else t,
            if md == Undefined then Obj(map[]) else md,
            false, now, now)
  }

  /** `POST /api/messages`: exactly one message is appended; the earlier
      ones are untouched. */
  method PostMessage(db: Database.Db, body: Record, id: string, now: int) returns (m: Message)
    modifies db`messages
    ensures m == NewMessage(body, id, now)
    ensures db.messages == old(db.messages) + [m]
  {
    m := NewMessage(body, id, now);
    db.messages := db.messages + [m];
  }

  /** After a post, each user's listing gains the new message at its end
      exactly when the message involves that user. */
  lemma PostedMessageListed(messages: seq<Message>, m: Message, userId: string)
    ensures UserMessages(messages + [m], userId) ==
            UserMessages(messages, userId) + (if Involves(m, userId) then [m] else [])
  {
    UserMessagesInOrder(messages, [m], userId);
    assert [m][1..] == [];
  }

    /** `PUT /api/messages/:messageId/read`: an unknown id answers 404 and
      saves nothing; otherwise the first message with that id becomes read
      with a fresh `updatedAt`, nothing else changes, and it is returned. */
  method MarkRead(db: Database.Db, messageId: string, now: int) returns (r: Option<Message>)
    modifies db`messages
    ensures var i := FindIndex(old(db.messages), MessageId, messageId);
            if i == |old(db.messages)| then r.None? && db.messages == old(db.messages)
            else r == Some(old(db.messages)[i].(read := true, updatedAt := now)) &&
                 db.messages == old(db.messages)[i := r.value]
  {
    var i := 0;
    while i < |db.messages| && db.messages[i].id != messageId
      invariant 0 <= i <= |db.messages|
      invariant forall j :: 0 <= j < i ==> db.messages[j].id != messageId
    {
      i := i + 1;
    }
    assert i == FindIndex(db.messages, MessageId, messageId);
    if i == |db.messages| {
      return None;
    }
    var m := db.messages[i].(read := true, updatedAt := now);
    db.messages := db.messages[i := m];
    r := Some(m);
  }

  /** The unread messages addressed to a user. */
  function UnreadFor(messages: seq<Message>, userId: string): (r: seq<Message>)
    ensures forall m :: m in r <==> m in messages && !m.read && m.receiverId == Str(userId)
  {
    Filter(messages, (m: Message) => !m.read && m.receiverId == Str(userId))
  }

  /** Marking a message read lowers its receiver's unread count by one when
      it was unread for them, and leaves every other count alone. */
  lemma MarkReadUnreadCount(messages: seq<Message>, i: nat, now: int, userId: string)
    requires i < |messages|
    ensures var m := messages[i];
            var after := messages[i := m.(read := true, updatedAt := now)];
            |UnreadFor(after, userId)| ==
              |UnreadFor(messages, userId)| - (if !m.read && m.receiverId == Str(userId) then 1 else 0)
  {
    var m := messages[i];
    FilterUpdateCount(messages, i, m.(read := true, updatedAt := now),
                      (m: Message) => !m.read && m.receiverId == Str(userId));
  }

  /** The ids a user has exchanged messages with: the receivers of the
      messages they sent and the senders of those they received. */
  function ContactIds(messages: seq<Message>, userId: string): set<Value>
  {
    (set m | m in messages && m.senderId == Str(userId) :: m.receiverId) +
    (set m | m in messages && m.receiverId == Str(userId) :: m.senderId)
  }

  /** `users.filter(user => ids.has(user.id))` */
  function UsersWithIdIn(users: seq<Record>, ids: set<Value>): (r: seq<Record>)
    ensures forall u :: u in r <==> u in users && Get(u, "id") in ids
  {
    Filter(users, (u: Record) => Get(u, "id") in ids)
  }

  /** `GET /api/contacts/:userId`: the id set is built in one pass over the
      messages, then the users whose id is in it are kept in user order; so
      a user is a contact exactly when they are the counterpart of one of
      the messages involving `userId`. */
  method Contacts(db: Database.Db, userId: string) returns (contacts: seq<Record>)
    ensures contacts == UsersWithIdIn(db.users, ContactIds(db.messages, userId))
  {
    var ids: set<Value> := {};
    var i := 0;
    while i < |db.messages|
      invariant 0 <= i <= |db.messages|
      invariant ids == ContactIds(db.messages[..i], userId)
    {
      var m := db.messages[i];
      assert db.messages[..i + 1] == db.messages[..i] + [m];
      if m.senderId == Str(userId) {
        ids := ids + {m.receiverId};
      }
      if m.receiverId == Str(userId) {
        ids := ids + {m.senderId};
      }
      i := i + 1;
    }
    assert db.messages[..i] == db.messages;
    contacts := UsersWithIdIn(db.users, ids);
  }

  /** When the stored users are distinct, every contact appears once. */
  lemma ContactsDistinct(users: seq<Record>, ids: set<Value>)
    requires Distinct(users)
    ensures Distinct(UsersWithIdIn(users, ids))
  {
    FilterDistinct(users, (u: Record) => Get(u, "id") in ids);
  }
}

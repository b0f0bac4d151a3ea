/** `server/notificationServer.js`: the e-mail endpoint, gated on the user's
    confirmed address and opt-in, and the order notification, which looks up
    the shop and its owner, appends a system message for the owner and mails
    the owner when they opted in. Mail delivery and its HTML are outside the
    model: a mail is represented by its recipient and subject. */
module NotificationServer {
  import opened Common
  import opened Records
  import Database

  /** `` `${v}` `` for the values a request body can carry. */
  function ValueToString(v: Value): string
  {
    match v
    case Undefined => "undefined"
    case Null => "null"
    case Bool(b) => if b then "true" else "false"
    case Num(n) => IntToString(n)
    case Str(s) => s
    case Arr(items) => JoinItems(items)
    case Obj(_) => "[object Object]"
  }

  /** `String(array)`: the items joined by commas, `null` and `undefined`
      printing as nothing. */
  function JoinItems(items: seq<Value>): string
    decreases items
  {
    if items == [] then ""
    else
      var first := if items[0].Undefined? || items[0].Null? then "" else ValueToString(items[0]);
      if |items| == 1 then first else first + "," + JoinItems(items[1..])
  }

  /** `user && user.emailConfirmed && user.emailNotifications` */
  predicate EmailEligible(user: Option<Record>)
  {
    user.Some? && Truthy(Get(user.value, "emailConfirmed")) && Truthy(Get(user.value, "emailNotifications"))
  }

  /** A mail handed to the transport: the `to` and `subject` options as
      passed, whatever their type. */
  datatype Mail = Mail(to: Value, subject: Value)

  /** The answers of `POST /api/notifications/email`. */
  datatype EmailResult = NotEligible | EmailSent(mail: Mail)

  /** `POST /api/notifications/email`: 400 and no mail unless the user
      exists with a confirmed address and notifications on; otherwise one
      mail to the user's address with the given title. */
  function SendEmailNotification(users: seq<Record>, userId: Value, title: Value): (r: EmailResult)
    ensures r.NotEligible? <==> !EmailEligible(Database.FindByKey(users, "id", userId))
    ensures r.EmailSent? ==>
              var u := Database.FindByKey(users, "id", userId);
              Get(u.value, "id") == userId && r.mail == Mail(Get(u.value, "email"), title)
  {
    var user := Database.FindByKey(users, "id", userId);
    if !EmailEligible(user) then NotEligible
    else EmailSent(Mail(Get(user.value, "email"), title))
  }

  /** The answers of `POST /api/notifications/order`. */
  datatype OrderNotifyResult =
    | ShopNotFound                      // 404 "Shop not found"
    | OwnerNotFound                     // 404 "Shop owner not found"
    | Notified(message: Message, mail: Option<Mail>)  // 200 { success: true }

  /** The system message left for the shop owner. */
  function SystemMessage(owner: Record, body: Record, id: string, now: int): (m: Message)
    ensures m.senderId == Str("system") && m.receiverId == Get(owner, "id")
    ensures m.msgType == Str("order-notification") && !m.read
    ensures Truthy(Get(body, "customMessage")) ==> m.content == Get(body, "customMessage")
    ensures !Truthy(Get(body, "customMessage")) ==>
              m.content == Str("New order #" + ValueToString(Get(body, "orderId")) + " received")
    ensures m.metadata == Obj(map["orderId" := Get(body, "orderId"), "shopId" := Get(body, "shopId"),
                                  "notificationType" := Get(body, "type")])
  {
    var custom := Get(body, "customMessage");
    Message(id, Str("system"), Get(owner, "id"),
            if Truthy(custom) then custom else Str("New order #" + ValueToString(Get(body, "orderId")) + " received"),
            Str("order-notification"),
            Obj(map["orderId" := Get(body, "orderId"), "shopId" := Get(body, "shopId"),
                    "notificationType" := Get(body, "type")]),
            false, now, now)
  }

  /** `POST /api/notifications/order`: an unknown shop or an unknown owner
      answers 404 and leaves the messages alone; otherwise exactly one system
      message is appended, and the owner is mailed only when they have
      notifications on and a confirmed address. */
  method NotifyOrder(db: Database.Db, body: Record, id: string, now: int) returns (r: OrderNotifyResult)
    modifies db`messages
    ensures Database.FindByKey(old(db.shops), "id", Get(body, "shopId")).None? ==>
              r == ShopNotFound && db.messages == old(db.messages)
    ensures r == OwnerNotFound ==> db.messages == old(db.messages)
    ensures r.Notified? ==>
              var shop := Database.FindByKey(db.shops, "id", Get(body, "shopId"));
              var owner := Database.FindByKey(db.users, "id", Get(shop.value, "ownerId"));
              shop.Some? && owner.Some? &&
              r.message == SystemMessage(owner.value, body, id, now) &&
              db.messages == old(db.messages) + [r.message] &&
              (r.mail.Some? <==> EmailEligible(owner)) &&
              (r.mail.Some? ==> r.mail.value == Mail(Get(owner.value, "email"),
                                                     Str("New Order #" + ValueToString(Get(body, "orderId")))))
    ensures r != ShopNotFound ==> Database.FindByKey(db.shops, "id", Get(body, "shopId")).Some?
    ensures r == OwnerNotFound <==>
              var shop := Database.FindByKey(db.shops, "id", Get(body, "shopId"));
              shop.Some? && Database.FindByKey(db.users, "id", Get(shop.value, "ownerId")).None?
  {
    var shop := Database.FindByKey(db.shops, "id", Get(body, "shopId"));
    if shop.None? {
      return ShopNotFound;
    }
    var owner := Database.FindByKey(db.users, "id", Get(shop.value, "ownerId"));
    if owner.None? {
      return OwnerNotFound;
    }
    var message := SystemMessage(owner.value, body, id, now);
    db.messages := db.messages + [message];
    var mail := None;
    if Truthy(Get(owner.value, "emailNotifications")) && Truthy(Get(owner.value, "emailConfirmed")) {
      mail := Some(Mail(Get(owner.value, "email"), Str("New Order #" + ValueToString(Get(body, "orderId")))));
    }
    r := Notified(message, mail);
  }

  /** After a user record is merged with updates that switch notifications
      off (as the settings page's unsubscribe sends them), the e-mail
      endpoint refuses that user, whether or not the id was known. */
  lemma UnsubscribedUserNotEligible(users: seq<Record>, userId: Value, updates: Record, title: Value)
    requires "id" !in updates
    requires "emailNotifications" in updates && !Truthy(updates["emailNotifications"])
    ensures var i := Database.IndexByKey(users, "id", userId);
            var after := if i < |users| then users[i := Merge(users[i], updates)] else users;
            SendEmailNotification(after, userId, title) == NotEligible
  {
    var i := Database.IndexByKey(users, "id", userId);
    if i < |users| {
      var after := users[i := Merge(users[i], updates)];
      assert Get(after[i], "id") == userId;
      assert forall k :: 0 <= k < i ==> after[k] == users[k];
      assert Database.IndexByKey(after, "id", userId) <= i;
      SameFirstIndex(users, after, i, userId);
    }
  }

  /** Changing the first record with an id, keeping its id, keeps it the
      first one. */
  lemma SameFirstIndex(users: seq<Record>, after: seq<Record>, i: nat, userId: Value)
    requires |after| == |users| && i < |users|
    requires Database.IndexByKey(users, "id", userId) == i
    requires Get(after[i], "id") == userId
    requires forall k :: 0 <= k < |users| && k != i ==> after[k] == users[k]
    ensures Database.IndexByKey(after, "id", userId) == i
  {
    forall k | 0 <= k < i
      ensures Get(after[k], "id") != userId
    {
      assert after[k] == users[k];
    }
  }
}

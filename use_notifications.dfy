/** `src/hooks/useNotifications.ts`: the notification hook. A notification
    goes to the browser when the user allows browser notifications and the
    browser granted permission, and to the e-mail endpoint when the user has
    opted in with a confirmed address. Every poll announces the newest of the
    unread messages that reached the user since the last check. The browser
    API, local storage and the polling timer are outside the model: the
    permission, the stored last-check time and the fetched messages are
    parameters. */
module UseNotifications {
  import opened Common
  import opened Seqs
  import MessagesPage

  type ChatMessage = MessagesPage.ChatMessage

  /** `NotificationData` */
  datatype NotificationData = NotificationData(title: string, body: string, data: map<string, string>)

  /** What the browser is asked to show. */
  datatype BrowserNotice = BrowserNotice(title: string, body: string, tag: string)

  /** The body posted to `POST /api/notifications/email`. */
  datatype EmailRequest = EmailRequest(userId: Value, title: string, message: string)

  /** `user?.browserNotifications` and a granted permission; `permission` is
      `None` when the browser has no Notification API. */
  predicate BrowserAllowed(user: Option<Record>, permission: Option<string>)
  {
    user.Some? && Truthy(Get(user.value, "browserNotifications")) && permission == Some("granted")
  }

  /** `user?.emailNotifications && user?.email && user?.emailConfirmed` */
  predicate EmailAllowed(user: Option<Record>)
  {
    user.Some? && Truthy(Get(user.value, "emailNotifications")) &&
    Truthy(Get(user.value, "email")) && Truthy(Get(user.value, "emailConfirmed"))
  }

  /** `sendBrowserNotification`: shown only when allowed, tagged
      `hidden-haven`. */
  function BrowserNotification(user: Option<Record>, permission: Option<string>, n: NotificationData)
    : (r: Option<BrowserNotice>)
    ensures r.Some? <==> user.Some? && Truthy(Get(user.value, "browserNotifications")) &&
                         permission == Some("granted")
    ensures r.Some? ==> r.value.title == n.title && r.value.body == n.body && r.value.tag == "hidden-haven"
  {
    if !BrowserAllowed(user, permission) then None
    else Some(BrowserNotice(n.title, n.body, "hidden-haven"))
  }

  /** `sendEmailNotification`: posted only when the user opted in with a
      confirmed address. */
  function EmailNotification(user: Option<Record>, n: NotificationData): (r: Option<EmailRequest>)
    ensures r.Some? <==> user.Some? && Truthy(Get(user.value, "emailNotifications")) &&
                         Truthy(Get(user.value, "email")) && Truthy(Get(user.value, "emailConfirmed"))
    ensures r.Some? ==> r.value == EmailRequest(Get(user.value, "id"), n.title, n.body)
  {
    if !EmailAllowed(user) then None
    else Some(EmailRequest(Get(user.value, "id"), n.title, n.body))
  }

  /** A user who switched e-mail notifications off, or whose address is
      missing, `null`, empty or unconfirmed, is never mailed, whatever the
      notification. */
  lemma UnsubscribedNeverMailed(user: Record, n: NotificationData)
    requires !Truthy(Get(user, "emailNotifications")) || !Truthy(Get(user, "email")) ||
             !Truthy(Get(user, "emailConfirmed"))
    ensures EmailNotification(Some(user), n).None?
  {
  }

  // ---------------------------------------------------------------------
  // Polling for new messages

  /** `new Date(msg.createdAt) > lastCheckedTime && msg.receiverId === user.id
      && !msg.read` */
  predicate IsNew(m: ChatMessage, userId: Value, lastChecked: int)
  {
    m.createdAt > lastChecked && Str(m.receiverId) == userId && !m.read
  }

  /** The last-check time: the stored one, or the epoch when none is stored. */
  function LastCheckedTime(stored: Option<int>): (t: int)
    ensures stored.None? ==> t == 0
    ensures stored.Some? ==> t == stored.value
  {
    if stored.Some? then stored.value else 0
  }

  /** The messages a poll counts as new, in the order they were listed. */
  function NewMessages(messages: seq<ChatMessage>, userId: Value, lastChecked: int): (r: seq<ChatMessage>)
    ensures forall m :: m in r <==> m in messages && IsNew(m, userId, lastChecked)
    ensures |r| <= |messages|
  {
    Filter(messages, (m: ChatMessage) => IsNew(m, userId, lastChecked))
  }

  const PreviewLength := 50
  const HiddenPreview := "You have received a new message"

  /** The body of a new-message notification: the content itself when it is
      at most 50 characters, otherwise its first 50 followed by `...`; a fixed
      text when the user hides message contents. */
  function Preview(content: string, showContent: bool): (r: string)
    ensures !showContent ==> r == HiddenPreview
    ensures showContent && |content| <= PreviewLength ==> r == content
    ensures showContent && |content| > PreviewLength ==>
              |r| == PreviewLength + 3 && r[..PreviewLength] == content[..PreviewLength] &&
              r[PreviewLength..] == "..."
    ensures |r| <= PreviewLength + 3
  {
    if !showContent then HiddenPreview
    else if |content| > PreviewLength then content[..PreviewLength] + "..."
    else content
  }

  /** The visible part of a preview is always the start of the message:
      cutting the marker off gives a prefix of the content. */
  lemma PreviewIsPrefix(content: string)
    ensures var r := Preview(content, true);
            var shown := if |content| > PreviewLength then r[..|r| - 3] else r;
            |shown| <= |content| && shown == content[..|shown|]
  {
    var r := Preview(content, true);
    if |content| > PreviewLength {
      assert r[..|r| - 3] == content[..PreviewLength];
    }
  }

  /** One poll: with no new message nothing is announced; otherwise the last
      new message is announced under the title "New Message", with a preview
      and its id and sender. */
  function CheckForNewMessages(user: Record, messages: seq<ChatMessage>, stored: Option<int>)
    : (r: Option<NotificationData>)
    ensures var arrived := NewMessages(messages, Get(user, "id"), LastCheckedTime(stored));
            (r.None? <==> arrived == []) &&
            (r.Some? ==>
               var latest := arrived[|arrived| - 1];
               latest in messages && IsNew(latest, Get(user, "id"), LastCheckedTime(stored)) &&
               r.value.title == "New Message" &&
               r.value.body == Preview(latest.content, Truthy(Get(user, "showMessageContent"))) &&
               r.value.data == map["messageId" := latest.id, "senderId" := latest.senderId])
  {
    var arrived := NewMessages(messages, Get(user, "id"), LastCheckedTime(stored));
    if |arrived| == 0 then None
    else
      var latest := arrived[|arrived| - 1];
      Some(NotificationData("New Message", Preview(latest.content, Truthy(Get(user, "showMessageContent"))),
                            map["messageId" := latest.id, "senderId" := latest.senderId]))
  }

  /** A message the user has already read never causes a notification, and
      neither does one that came before the last check. */
  lemma OldOrReadNotAnnounced(user: Record, messages: seq<ChatMessage>, stored: Option<int>)
    requires forall i :: 0 <= i < |messages| ==>
               messages[i].read || messages[i].createdAt <= LastCheckedTime(stored)
    ensures CheckForNewMessages(user, messages, stored).None?
  {
    FilterNonePass(messages, (m: ChatMessage) => IsNew(m, Get(user, "id"), LastCheckedTime(stored)));
  }

  /** The newest message announced is the last new one in list order: a
      newly arrived message appended after the others is the one announced. */
  lemma AppendedMessageAnnounced(user: Record, messages: seq<ChatMessage>, stored: Option<int>, m: ChatMessage)
    requires IsNew(m, Get(user, "id"), LastCheckedTime(stored))
    ensures var r := CheckForNewMessages(user, messages + [m], stored);
            r.Some? && r.value.data["messageId"] == m.id &&
            r.value.body == Preview(m.content, Truthy(Get(user, "showMessageContent")))
  {
    var p := (x: ChatMessage) => IsNew(x, Get(user, "id"), LastCheckedTime(stored));
    FilterAppend(messages, [m], p);
    assert [m][1..] == [];
  }
}

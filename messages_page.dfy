/** `src/pages/Messages.tsx`: the messaging page. It shows the conversation
    between the signed-in user and the selected contact in time order, lets
    the user send a text or share a file with that contact, and lists every
    contact except the user. The messages come from the server as JSON; here
    the ids are strings and `createdAt` is in milliseconds. */
module MessagesPage {
  import opened Common
  import opened Seqs

  /** `type: 'text' | 'image' | 'file'` */
  datatype Kind = Text | Image | File

  /** A message as the page receives it. */
  datatype ChatMessage = ChatMessage(
    id: string,
    senderId: string,
    receiverId: string,
    content: string,
    kind: Kind,
    createdAt: int,
    read: bool)

  /** An entry of the contact list. */
  datatype Contact = Contact(id: string, username: string)

  /** The body posted to `POST /api/messages`. The sender is `user?.id`, which
      is missing (`None`) when nobody is signed in. */
  datatype Outgoing = Outgoing(senderId: Option<string>, receiverId: string, content: string, kind: Kind)

  // ---------------------------------------------------------------------
  // The conversation

  /** A message between `me` and `other`, in either direction. With nobody
      signed in, `user?.id` is undefined and matches no message. */
  predicate Between(m: ChatMessage, me: Option<string>, other: string)
  {
    me.Some? &&
    ((m.senderId == me.value && m.receiverId == other) ||
     (m.senderId == other && m.receiverId == me.value))
  }

  predicate SortedByTime(s: seq<ChatMessage>)
  {
    forall i, j :: 0 <= i < j < |s| ==> s[i].createdAt <= s[j].createdAt
  }

  /** Places `x` before the first element that is not older than it, so an
      element inserted earlier stays ahead of later-inserted equal ones. */
  function InsertByTime(x: ChatMessage, s: seq<ChatMessage>): (r: seq<ChatMessage>)
    requires SortedByTime(s)
    ensures SortedByTime(r)
    ensures multiset(r) == multiset(s) + multiset{x}
    ensures |r| == |s| + 1
  {
    if s == [] then [x]
    else if x.createdAt <= s[0].createdAt then [x] + s
    else
      var rest := InsertByTime(x, s[1..]);
      InsertedBehind(s, x, rest);
      [s[0]] + rest
  }

  /** The first element of a sorted `s`, older than `x`, stays ahead of `x`
      inserted into the rest of `s`. */
  lemma InsertedBehind(s: seq<ChatMessage>, x: ChatMessage, rest: seq<ChatMessage>)
    requires s != [] && SortedByTime(s) && s[0].createdAt < x.createdAt
    requires SortedByTime(rest) && multiset(rest) == multiset(s[1..]) + multiset{x}
    ensures SortedByTime([s[0]] + rest)
    ensures multiset([s[0]] + rest) == multiset(s) + multiset{x}
  {
    assert s == [s[0]] + s[1..];
    forall m | m in rest
      ensures s[0].createdAt <= m.createdAt
    {
      assert m in multiset(rest);
      if m != x {
        assert m in multiset(s[1..]);
        var k :| 0 <= k < |s[1..]| && s[1..][k] == m;
        assert s[k + 1] == m;
      }
    }
    var r := [s[0]] + rest;
    forall i, j | 0 <= i < j < |r|
      ensures r[i].createdAt <= r[j].createdAt
    {
      assert r[j] == rest[j - 1];
      if i > 0 {
        assert r[i] == rest[i - 1];
      }
    }
  }

  /** `.sort((a, b) => a.createdAt - b.createdAt)`: a stable sort by time. */
  function SortByTime(s: seq<ChatMessage>): (r: seq<ChatMessage>)
    ensures SortedByTime(r)
    ensures multiset(r) == multiset(s)
  {
    if s == [] then []
    else
      assert s == [s[0]] + s[1..];
      InsertByTime(s[0], SortByTime(s[1..]))
  }

  /** `getConversationMessages()`: nothing while no contact is selected;
      otherwise the messages between the user and the contact, each as often
      as it was received, oldest first. */
  function ConversationMessages(messages: seq<ChatMessage>, me: Option<string>, selected: string)
    : (r: seq<ChatMessage>)
    ensures selected == "" ==> r == []
    ensures SortedByTime(r)
    ensures selected != "" ==>
              forall m :: multiset(r)[m] == if Between(m, me, selected) then multiset(messages)[m] else 0
    ensures forall m :: m in r <==> selected != "" && m in messages && Between(m, me, selected)
  {
    if selected == "" then []
    else
      var between := Filter(messages, (m: ChatMessage) => Between(m, me, selected));
      FilterMultiset(messages, (m: ChatMessage) => Between(m, me, selected));
      var r := SortByTime(between);
      assert forall m :: m in r <==> m in multiset(between);
      r
  }

  /** Inserting keeps the relative order of the elements with any given
      time, with the inserted one first among them. */
  lemma {:induction false} InsertByTimeStable(x: ChatMessage, s: seq<ChatMessage>, t: int)
    requires SortedByTime(s)
    ensures Filter(InsertByTime(x, s), (m: ChatMessage) => m.createdAt == t) ==
            (if x.createdAt == t then [x] else []) + Filter(s, (m: ChatMessage) => m.createdAt == t)
  {
    var p := (m: ChatMessage) => m.createdAt == t;
    FilterOne(x, p);
    if s == [] {
    } else if x.createdAt <= s[0].createdAt {
      FilterAppend([x], s, p);
    } else {
      var rest := InsertByTime(x, s[1..]);
      assert InsertByTime(x, s) == [s[0]] + rest;
      InsertByTimeStable(x, s[1..], t);
      assert s == [s[0]] + s[1..];
      SwapPastOne(x, s[0], rest, s[1..], p);
    }
  }

  /** If `x` and `y` do not both pass, filtering puts `x` first or `y`
      first alike. */
  lemma SwapPastOne(x: ChatMessage, y: ChatMessage, rest: seq<ChatMessage>, tail: seq<ChatMessage>,
                    p: ChatMessage -> bool)
    requires !(p(x) && p(y))
    requires Filter(rest, p) == (if p(x) then [x] else []) + Filter(tail, p)
    ensures Filter([y] + rest, p) == (if p(x) then [x] else []) + Filter([y] + tail, p)
  {
    FilterAppend([y], rest, p);
    FilterAppend([y], tail, p);
    FilterOne(y, p);
    if p(x) {
      assert Filter([y], p) == [];
    } else {
      assert Filter(rest, p) == Filter(tail, p);
    }
  }

  lemma FilterOne(x: ChatMessage, p: ChatMessage -> bool)
    ensures Filter([x], p) == if p(x) then [x] else []
  {
    assert [x][1..] == [];
  }

  /** The sort is stable: the messages sent at the same time keep the order
      in which the server listed them. */
  lemma {:induction false} SortByTimeStable(s: seq<ChatMessage>, t: int)
    ensures Filter(SortByTime(s), (m: ChatMessage) => m.createdAt == t) ==
            Filter(s, (m: ChatMessage) => m.createdAt == t)
  {
    var p := (m: ChatMessage) => m.createdAt == t;
    if s != [] {
      SortByTimeStable(s[1..], t);
      InsertByTimeStable(s[0], SortByTime(s[1..]), t);
      assert s == [s[0]] + s[1..];
      FilterAppend([s[0]], s[1..], p);
    }
  }

  // ---------------------------------------------------------------------
  // Sending

  /** `sendMessage`: with blank text or no selected contact only an error
      toast is shown; otherwise the text is posted as typed (untrimmed) to
      the selected contact as a text message. */
  function SendMessage(me: Option<string>, selected: string, newMessage: string): (r: Option<Outgoing>)
    ensures r.None? <==> Trim(newMessage) == "" || selected == ""
    ensures r.Some? ==> r.value.receiverId == selected && r.value.senderId == me &&
                        r.value.content == newMessage && r.value.kind == Text
  {
    if Trim(newMessage) == "" || selected == "" then None
    else Some(Outgoing(me, selected, newMessage, Text))
  }

  /** One press of Send: the request `sendMessage` posts, if any, and the
      composer's text afterwards, which is cleared only when a request was
      posted and the server accepted it. */
  function SendStep(me: Option<string>, selected: string, newMessage: string, accepted: bool)
    : (r: (Option<Outgoing>, string))
    ensures r.0 == SendMessage(me, selected, newMessage)
    ensures r.1 == "" <==> newMessage == "" || (r.0.Some? && accepted)
    ensures r.1 != "" ==> r.1 == newMessage
  {
    var request := SendMessage(me, selected, newMessage);
    (request, if request.Some? && accepted then "" else newMessage)
  }

  /** A composer that Send cleared had its text posted, as typed, to the
      selected contact. */
  lemma ClearedComposerWasSent(me: Option<string>, selected: string, newMessage: string, accepted: bool)
    requires newMessage != "" && SendStep(me, selected, newMessage, accepted).1 == ""
    ensures SendStep(me, selected, newMessage, accepted).0 == Some(Outgoing(me, selected, newMessage, Text))
    ensures accepted
  {
  }

  /** Blank text is never posted, so Send never clears it, whatever the
      server would answer. */
  lemma {:induction false} BlankTextKeepsComposer(me: Option<string>, selected: string, newMessage: string,
                                                  accepted: bool)
    requires forall i :: 0 <= i < |newMessage| ==> IsSpace(newMessage[i])
    ensures SendStep(me, selected, newMessage, accepted) == (None, newMessage)
  {
    TrimEmptyIff(newMessage);
  }

  /** A text made only of spaces is never sent, whatever is selected. */
  lemma BlankTextNotSent(me: Option<string>, selected: string, newMessage: string)
    requires forall i :: 0 <= i < |newMessage| ==> IsSpace(newMessage[i])
    ensures SendMessage(me, selected, newMessage).None?
  {
    TrimEmptyIff(newMessage);
  }

  /** The file a user picked: its name and MIME type. */
  datatype PickedFile = PickedFile(name: string, mimeType: string)

  const FilePrefix := "[File shared: "
  const FileSuffix := "]"

  /** `handleFileUpload`: no file or no selected contact sends nothing;
      otherwise a message announcing the file by name, typed as an image
      when the MIME type starts with `image/` and as a file otherwise. */
  function FileMessage(me: Option<string>, selected: string, file: Option<PickedFile>): (r: Option<Outgoing>)
    ensures r.None? <==> file.None? || selected == ""
    ensures r.Some? ==> r.value.receiverId == selected && r.value.senderId == me
    ensures r.Some? ==> (r.value.kind == Image <==> StartsWith(file.value.mimeType, "image/"))
    ensures r.Some? ==> r.value.kind != Text
    ensures r.Some? ==> StartsWith(r.value.content, FilePrefix) &&
                        r.value.content[|r.value.content| - 1] == ']'
  {
    if file.None? || selected == "" then None
    else
      var content := FilePrefix + file.value.name + FileSuffix;
      assert content[..|FilePrefix|] == FilePrefix;
      Some(Outgoing(me, selected, content, if StartsWith(file.value.mimeType, "image/") then Image else File))
  }

  /** The file name between the prefix and the closing bracket. */
  function SharedFileName(content: string): Option<string>
  {
    if |content| >= |FilePrefix| + |FileSuffix| && StartsWith(content, FilePrefix) &&
       content[|content| - 1] == ']'
    then Some(content[|FilePrefix|..|content| - 1])
    else None
  }

  /** The announcement names the shared file: reading the name back from
      the content gives the picked file's name. */
  lemma FileMessageNamesFile(me: Option<string>, selected: string, file: PickedFile)
    requires selected != ""
    ensures var r := FileMessage(me, selected, Some(file));
            r.Some? && SharedFileName(r.value.content) == Some(file.name)
  {
    var content := FilePrefix + file.name + FileSuffix;
    assert content[|FilePrefix|..|content| - 1] == file.name;
  }

  // ---------------------------------------------------------------------
  // Contacts

  /** The contact list the page shows while no users endpoint exists. */
  const MockContacts: seq<Contact> :=
    [Contact("1", "testuser"), Contact("2", "shopowner"), Contact("3", "customer1")]

  /** `users.filter(u => u.id !== user?.id)`: every user except the one
      signed in, in list order. */
  function ContactList(users: seq<Contact>, me: Option<string>): (r: seq<Contact>)
    ensures forall c :: c in r <==> c in users && (me.None? || c.id != me.value)
    ensures |r| <= |users|
  {
    Filter(users, (c: Contact) => me != Some(c.id))
  }

  /** With nobody signed in, every user is listed. */
  lemma ContactListSignedOut(users: seq<Contact>)
    ensures ContactList(users, None) == users
  {
    FilterAllPass(users, (c: Contact) => None != Some(c.id));
  }

  /** The signed-in test user sees the two other accounts, in order. */
  lemma MockContactsForTestUser()
    ensures ContactList(MockContacts, Some("1")) == [Contact("2", "shopowner"), Contact("3", "customer1")]
  {
    var p := (c: Contact) => Some("1") != Some(c.id);
    var c1, c2, c3 := Contact("1", "testuser"), Contact("2", "shopowner"), Contact("3", "customer1");
    assert !p(c1) && p(c2) && p(c3);
    assert Filter([c3], p) == [c3] by {
      assert [c3][1..] == [];
    }
    assert Filter([c2, c3], p) == [c2, c3] by {
      assert [c2, c3][1..] == [c3];
    }
    assert Filter([c1, c2, c3], p) == [c2, c3] by {
      assert [c1, c2, c3][1..] == [c2, c3];
    }
  }
}

# Hidden Haven: a verified model of the marketplace core

Hidden Haven is an invitation-only marketplace. Sellers open shops, which may be public or private behind an access code. Buyers fill a cart and place orders. Sellers move each order along its status path. Users message each other, and they are notified in the browser or by e-mail. The servers keep their data in JSON files, one array per collection. The client is a set of React pages.

This project models the parts of that system that decide things:

- **Order status engine** (`order_utils.dfy`). An update seeds a missing history, appends a timestamped entry, sets the status and, on delivery, computes the delivery time.
- **Seller's order page** (`order_management.dfy`). It covers the buttons offered per status (the application's only transition graph), the local list updates and the per-shop aggregation.
- **In-memory record stores** behind the JSON-file servers:
  - `database.dfy` holds the class `Db`, whose fields are the `users`, `shops`, `messages` and `orders` arrays.
  - `message_server.dfy` covers listing, posting, mark-read and contacts.
  - `notification_server.dfy` covers the e-mail gate and the order notification.
  - `auth_server.dfy` covers registration and login.
- **Shop-link tokenizer** (`message_utils.dfy`). It splits message text into plain parts and `localhost[:port]/shop/<slug>` links, using a hand-written matcher for that one pattern.
- **Client pages**:
  - the conversation view, send guard, file sharing and contact list (`messages_page.dfy`);
  - new-message polling and notification gating (`use_notifications.dfy`);
  - the cart and private-shop access (`public_shop_page.dfy`);
  - the shop editor (`shop_editor.dfy`);
  - the two-step e-mail change, as the component's state machine (`email_change_form.dfy`) and as the settings page's own machine (`user_settings.dfy`).

Shared definitions live in three modules:

- `Common` covers JSON values and records, property access, JavaScript truthiness, object spread and rest, trimming, and decimal printing.
- `Seqs` holds `Filter` and `FindIndex` and their lemmas.
- `Records` holds the stored order and message, and the ids they are looked up by.

## Conventions

- **Values and records:** a JSON value is `Common.Value`. An object read from a file is a `Record`, a `map<string, Value>` in which an absent key reads as `Undefined`. `{...a, ...b}` is `Merge(a, b)`.
- **Time and money:** timestamps, which the files hold as ISO 8601 strings, are integer milliseconds. Prices and totals are integer cents.
- **Outside inputs as parameters:** the clock, `Date.now()` ids, the bcrypt salt, bcrypt `hash` and `compare`, the browser's notification permission, the last-check time in local storage, and every server response.
- **Server handlers** are methods on the `Db` object, each one atomic.
- **Client page handlers** that change state are methods of a class, with the response as an input. The pure updaters (cart, cities, conversation) are functions.
- **Code over description:** where the system's written description and its code differ, the model follows the code:
  - `updateOrderStatus` never refuses a status outside `ORDER_STATUSES`. Any string, custom or not, is stored verbatim, so the model has no "invalid status" error.
  - The delivery time is measured between the first `accepted` entry and the first `delivered` entry.
  - The order notification's metadata key is `notificationType`.

## Model

| member | source | states |
|---|---|---|
| OrderUtils.StatusDescription | server/utils/orderUtils.js:13-21 | A description exists exactly for the seven known statuses. |
| OrderUtils.FirstIndexOf | server/utils/orderUtils.js:32-33 | `find` semantics: the index of the first history entry with the status, every earlier entry differs, and it is in range iff some entry has the status. |
| OrderUtils.FirstIndexOfAppend | server/utils/orderUtils.js:32-33 | Appending entries never moves the first entry of a status already present. |
| OrderUtils.FirstIndexOfAppendAbsent | server/utils/orderUtils.js:32-33 | For a status not yet present, the first entry found after appending is in the appended part. |
| OrderUtils.SplitElapsedNonNegative | server/utils/orderUtils.js:36-39 | For a difference d ≥ 0: hours = d div 3600000, 0 ≤ minutes ≤ 59, and hours·60 + minutes = d div 60000. |
| OrderUtils.SplitElapsedNegative | server/utils/orderUtils.js:36-39 | For a negative difference (delivered before accepted), hours ≤ -1 and the truncating remainder gives minutes in [-60, 0]. |
| OrderUtils.DeliveryMillis | server/utils/orderUtils.js:29-43 | A delivery time exists iff there is a history holding both an `accepted` and a `delivered` entry, and it is measured between the first of each. |
| OrderUtils.TransitionedShape | server/utils/orderUtils.js:53-69 | One update: a missing history is seeded with the old status (or `pending`) so that it ends with 2 entries; otherwise the history grows by exactly one entry and keeps its earlier entries. The last entry is the new status at `now`. The status equals the last entry's status, and `updatedAt` is `now`. Only `delivered` touches `deliveryTime`, and then it is a text iff an `accepted` entry exists. All other modelled fields of the order are unchanged. |
| OrderUtils.DeliveredMeasuresFromFirstAccepted | server/utils/orderUtils.js:29-69 | On a first delivery, the time measured runs from the first `accepted` entry to the new `delivered` entry stamped `now`, and `deliveryTime` stores that time as `"<h>h <m>m"`. |
| OrderUtils.DeliveredPushMeasures | server/utils/orderUtils.js:62-68 | Pushing the first `delivered` entry keeps the first `accepted` index and puts the `delivered` entry last. |
| OrderUtils.DeliveryTimeStable | server/utils/orderUtils.js:62-69 | Once an order has been accepted and delivered, any later update, including another `delivered`, leaves the computed delivery time unchanged. |
| OrderUtils.FormatTwoHoursAQuarter | server/utils/orderUtils.js:37-39 | 8 100 000 ms is rendered as `2h 15m`. |
| OrderUtils.AcceptThenDeliverExample | server/utils/orderUtils.js:45-73 | A pending order accepted at t and delivered at t + 2h15m ends with status `delivered` and delivery time `2h 15m`. |
| OrderUtils.DeliverWithoutAcceptExample | server/utils/orderUtils.js:35-42 | Delivering an order that was never accepted sets `deliveryTime` to null. |
| OrderUtils.HistoryAfterRun | server/utils/orderUtils.js:57-63 | After N updates the history has N more entries (N + 1 when it was missing), the earlier entries stay in place, and the status is that of the last entry. |
| OrderUtils.UpdateOrderStatus | server/utils/orderUtils.js:45-73 | An unknown id fails with "Order not found" and saves nothing. Otherwise the first order with the id is replaced by its transition under `customStatus` or else `newStatus`, that order is returned, and every other order is unchanged. |
| OrderManagement.OfferedActions | src/pages/OrderManagement.tsx:185-209 | A status is offered exactly when it is a known status one stage after the current one, from pending, accepted, preparing or delivering: exactly {accepted, refused} from pending and exactly the next stage otherwise. From delivered, refused, cancelled or a custom status nothing is offered, and `cancelled` and `pending` are never offered. |
| OrderManagement.OfferedAdvances | src/pages/OrderManagement.tsx:185-209 | Every offered action moves exactly one stage forward along the path. |
| OrderManagement.RunFollowsHappyPath | src/pages/OrderManagement.tsx:185-209 | A run of offered actions from `pending` that never refuses is a prefix of pending, accepted, preparing, delivering, delivered. |
| OrderManagement.HappyPathIsTheOnlyDelivery | src/pages/OrderManagement.tsx:185-209 | Such a run that ends in `delivered` is exactly the happy path. |
| OrderManagement.HappyPathIsRun | src/pages/OrderManagement.tsx:185-209 | The happy path follows the offered actions and reaches `delivered` in four steps. |
| OrderManagement.ShouldNotifyIffOfferedForward | src/pages/OrderManagement.tsx:87 | A notification is raised exactly for statuses reachable by a non-refusing action; never for refused, cancelled or pending. |
| OrderManagement.ReplaceById | src/pages/OrderManagement.tsx:77-79 | Every entry with the id becomes the server's order; the length and all other entries are unchanged. |
| OrderManagement.StatusUpdateResponse | src/pages/OrderManagement.tsx:75-93 | A non-ok response changes nothing. An ok one replaces the order and notifies iff the status is significant, with the order id, status and kind `order-update`. |
| OrderManagement.RemoveById | src/pages/OrderManagement.tsx:110-111 | Exactly the entries with the id are removed. |
| OrderManagement.RemoveByIdCounts | src/pages/OrderManagement.tsx:110-111 | Every other order keeps its number of occurrences, and the removed id keeps none. |
| OrderManagement.RemoveByIdKeepsOrder | src/pages/OrderManagement.tsx:111 | Removal works block by block, so the kept orders stay in their order. |
| OrderManagement.DeleteResponse | src/pages/OrderManagement.tsx:110-111 | A failed delete changes nothing; a successful one keeps exactly the orders with another id. |
| OrderManagement.FlattenMembership | src/pages/OrderManagement.tsx:47-52 | An order is in the aggregated list iff some shop returned it. |
| OrderManagement.FlattenAppend | src/pages/OrderManagement.tsx:47-52 | The aggregate of two groups of shops is the first group's orders followed by the second's. |
| OrderManagement.AggregateOrders | src/pages/OrderManagement.tsx:47-53 | The loop builds the concatenation of every shop's orders in shop order. |
| Database.Db.constructor | server/utils/database.js:4-24 | A data directory with no files yet reads every collection as empty. |
| Database.IndexByKey | server/utils/database.js:62-74 | The first record whose key holds the value, with every earlier record differing. |
| Database.FindByKey | server/utils/database.js:62-70 | `getUserById` and `getShopById`: none iff no record matches; otherwise the first matching record. |
| Database.UpdateUser | server/utils/database.js:72-81 | An unknown id returns null and saves nothing. Otherwise the first user with the id becomes the old record overridden key by key by `updates`, that record is returned, and all other users are unchanged. |
| MessageServer.UserMessages | server/messageServer.js:16-18 | Exactly the messages the user sent or received. |
| MessageServer.UserMessagesCounts | server/messageServer.js:16-18 | Each involving message keeps its number of occurrences, and no other message appears. |
| MessageServer.UserMessagesInOrder | server/messageServer.js:16-18 | The listing works block by block, so stored order is kept. |
| MessageServer.NewMessage | server/messageServer.js:29-44 | The posted message carries the body's sender, receiver and content. It is unread, stamped `now`, has `type` defaulting to `text` and `metadata` defaulting to `{}`, and keeps given values otherwise. |
| MessageServer.PostMessage | server/messageServer.js:29-44 | Exactly one message is appended, and earlier messages are unchanged. |
| MessageServer.PostedMessageListed | server/messageServer.js:16-44 | After a post, each participant's listing is the old listing plus the new message at the end. |
| MessageServer.MarkRead | server/messageServer.js:59-69 | An unknown id gives 404 and saves nothing. Otherwise only that message becomes read with a fresh `updatedAt`, and it is returned. |
| MessageServer.UnreadFor | server/messageServer.js:59-69 | Exactly the unread messages addressed to the user. |
| MessageServer.MarkReadUnreadCount | server/messageServer.js:65-68 | Marking read lowers the receiver's unread count by one if it was unread, and leaves the count unchanged if it was already read. |
| MessageServer.UsersWithIdIn | server/messageServer.js:89 | Exactly the users whose id is in the set. |
| MessageServer.Contacts | server/messageServer.js:83-89 | The contacts are the users, in user order, who are the counterpart of a message involving the user. |
| MessageServer.ContactsDistinct | server/messageServer.js:83-89 | With distinct stored users, each contact appears once. |
| NotificationServer.SendEmailNotification | server/notificationServer.js:24-36 | No mail iff the user is unknown or lacks `emailConfirmed` or `emailNotifications`. Otherwise one mail goes to that user's address with the title, unchanged, as subject. |
| NotificationServer.SystemMessage | server/notificationServer.js:106-120 | Sent by `system` to the owner, type `order-notification` and unread. The content is `customMessage` when truthy, else `New order #<id> received`. The metadata is orderId, shopId and notificationType. |
| NotificationServer.NotifyOrder | server/notificationServer.js:90-137 | An unknown shop or an unknown owner gives 404 and leaves the messages unchanged. Otherwise exactly one system message is appended. The owner is mailed `New Order #<id>` iff they have notifications on and a confirmed address. |
| NotificationServer.UnsubscribedUserNotEligible | server/notificationServer.js:28-31 | After a user's record is merged with updates that switch notifications off, the e-mail endpoint refuses that user. |
| NotificationServer.SameFirstIndex | server/utils/database.js:74-77 | Changing the first record with an id, without changing its id, keeps it the first. |
| AuthServer.RegisterOutcome | server/index.js:41-74 | Each answer is given exactly when every earlier check passed and its own failed, in this order: the required fields (400), a password under 8 characters (400), the invite code (400), an existing username (409), then a password bcrypt cannot hash (500). Registration succeeds iff all fields are present, the password is a string of at least 8 characters, the invite code is valid and the username is new. |
| AuthServer.Register | server/index.js:41-74 | Every failure leaves the users unchanged. Success appends exactly one user. |
| AuthServer.Login | server/index.js:83-116 | Missing fields give 400. Login succeeds iff the user exists, both passwords are strings and bcrypt accepts them, and it then returns the stored record without its password. An unknown user and a wrong password both give the same 401. A non-string password reaching bcrypt gives 500. |
| AuthServer.UnknownUserLooksLikeWrongPassword | server/index.js:90-102 | Login as an unknown user and login with a wrong password give identical answers. |
| AuthServer.FindAfterAppend | server/index.js:53-71 | A new username appended to the users is found as that new record. |
| AuthServer.RegisterThenLogin | server/index.js:60-111 | With a `compare` that accepts its own hashes, a user just registered can log in with their password and gets their record without the password. |
| AuthServer.RegisterKeepsUsernamesUnique | server/index.js:53-71 | Registration keeps usernames pairwise distinct. |
| MessageUtils.Run | src/utils/messageUtils.ts:31 | The greedy run of a character class: all matched characters are in the class, and the next character is not. |
| MessageUtils.RunCovers | src/utils/messageUtils.ts:31 | A run is at least as long as any stretch of the class from the same position, and exactly as long when the stretch is followed by a character outside it. |
| MessageUtils.MatchAt | src/utils/messageUtils.ts:31 | A match at a position starts there and has a non-empty slug inside the text. |
| MessageUtils.MatchAtSound | src/utils/messageUtils.ts:31 | A match is `localhost`, an optional `:` with digits, then `/shop/` and a maximal non-empty slug of `[a-zA-Z0-9-]`. |
| MessageUtils.MatchAtComplete | src/utils/messageUtils.ts:31 | Every text of that shape at a position is found there. |
| MessageUtils.FindMatch | src/utils/messageUtils.ts:37 | `regex.exec` from `lastIndex`: the leftmost match at or after it, or none if none exists. |
| MessageUtils.MatchInSlice | src/utils/messageUtils.ts:31 | A match inside a piece of the text is a match in the whole text. |
| MessageUtils.JoinedAppend | src/utils/messageUtils.ts:37-62 | The concatenated texts of two lists of parts are the two texts one after the other. |
| MessageUtils.TokensJoin | src/utils/messageUtils.ts:37-62 | The parts produced from a position spell out the rest of the text. |
| MessageUtils.MatchIsLinkShaped | src/utils/messageUtils.ts:47-51 | A link part's slug is its text after `/shop/`, and the text has the link's shape. |
| MessageUtils.StretchIsClean | src/utils/messageUtils.ts:39-44 | A stretch with no match start holds no link. |
| MessageUtils.TokensWellFormed | src/utils/messageUtils.ts:37-62 | Plain parts are non-empty, hold no link and are never adjacent, and every link's slug is maximal. |
| MessageUtils.WellFormedAround | src/utils/messageUtils.ts:39-54 | A plain prefix, a link and a well-formed rest form a well-formed list. |
| MessageUtils.ShopLinkPartsProperties | src/utils/messageUtils.ts:30-65 | The parts concatenate back to the content and are never empty. A content without a link is one plain part. A non-empty content gives well-formed parts. |
| MessageUtils.DetectShopLinks | src/utils/messageUtils.ts:30-65 | The `while`/`exec` loop produces exactly the specified parts. |
| MessageUtils.ReadStatusSymbol | src/utils/messageUtils.ts:67-69 | Two check marks when read, one when unread. |
| MessagesPage.InsertByTime | src/pages/Messages.tsx:159 | Inserting into a time-sorted list keeps it sorted and adds exactly that message. |
| MessagesPage.SortByTime | src/pages/Messages.tsx:159 | The result is sorted by `createdAt` ascending and is a permutation of the input. |
| MessagesPage.InsertByTimeStable | src/pages/Messages.tsx:159 | Insertion keeps messages with the same time in their relative order, with the new one last. |
| MessagesPage.SortByTimeStable | src/pages/Messages.tsx:159 | The sort is stable: the messages of each timestamp keep their list order. |
| MessagesPage.ConversationMessages | src/pages/Messages.tsx:154-160 | Empty without a selected user. Otherwise exactly the messages between the current and the selected user in either direction, sorted ascending by time, each kept as often as it was listed. |
| MessagesPage.SendMessage | src/pages/Messages.tsx:65-87 | Nothing is sent iff the trimmed text is empty or no recipient is selected. Otherwise the untrimmed text goes to the selected user as type `text`. |
| MessagesPage.SendStep | src/pages/Messages.tsx:65-95 | One press of Send posts what `sendMessage` posts, and the composer ends empty iff it was empty or a request was posted and accepted; otherwise it keeps the typed text. |
| MessagesPage.ClearedComposerWasSent | src/pages/Messages.tsx:65-95 | A composer that Send cleared had its text posted, as typed, to the selected contact, and the server accepted it. |
| MessagesPage.BlankTextKeepsComposer | src/pages/Messages.tsx:65-95 | Blank text posts nothing and stays in the composer, whatever the server would answer. |
| MessagesPage.BlankTextNotSent | src/pages/Messages.tsx:66 | A text of white space alone is never sent. |
| MessagesPage.FileMessage | src/pages/Messages.tsx:116-135 | Nothing without a file or a recipient. Otherwise the content is `[File shared: <name>]`, the type is `image` iff the MIME type starts with `image/`, and `file` otherwise. |
| MessagesPage.FileMessageNamesFile | src/pages/Messages.tsx:122 | The file name can be read back from the shared message's content. |
| MessagesPage.ContactList | src/pages/Messages.tsx:192 | Exactly the users other than the current one. |
| MessagesPage.ContactListSignedOut | src/pages/Messages.tsx:192 | Signed out, every user is listed. |
| MessagesPage.MockContactsForTestUser | src/pages/Messages.tsx:55-59 | For user `1` the list is shopowner and customer1. |
| UseNotifications.BrowserNotification | src/hooks/useNotifications.ts:14-26 | Shown iff the user has browser notifications on and permission is `granted`, tagged `hidden-haven`. |
| UseNotifications.EmailNotification | src/hooks/useNotifications.ts:28-45 | Posted iff `emailNotifications`, `email` and `emailConfirmed` are all truthy, carrying the user's id, title and body. |
| UseNotifications.UnsubscribedNeverMailed | src/hooks/useNotifications.ts:29 | A user with notifications off, an address that is missing, `null` or empty, or an unconfirmed address is never mailed. |
| UseNotifications.LastCheckedTime | src/hooks/useNotifications.ts:62-63 | With nothing stored, the last check is the epoch. |
| UseNotifications.NewMessages | src/hooks/useNotifications.ts:65-69 | Exactly the messages created after the last check, addressed to the user and unread. |
| UseNotifications.Preview | src/hooks/useNotifications.ts:75-77 | With content shown: the content itself when it has at most 50 characters, otherwise its first 50 then `...`, so never more than 53. With content hidden: a fixed text. |
| UseNotifications.PreviewIsPrefix | src/hooks/useNotifications.ts:75-77 | The visible part of a preview is a prefix of the content. |
| UseNotifications.CheckForNewMessages | src/hooks/useNotifications.ts:56-86 | Nothing is announced iff no message is new. Otherwise only the last new message is announced, as `New Message` with its preview, id and sender. |
| UseNotifications.OldOrReadNotAnnounced | src/hooks/useNotifications.ts:65-72 | Messages that are all read or older than the last check announce nothing. |
| UseNotifications.AppendedMessageAnnounced | src/hooks/useNotifications.ts:71-78 | A new message arriving at the end of the list is the one announced. |
| PublicShopPage.AddToCart | src/pages/PublicShopPage.tsx:120-137 | An item already in the cart has every entry with its id raised by the quantity, with the length and other entries unchanged. A new item is appended once with that quantity. The item is in the cart afterwards. |
| PublicShopPage.Raise | src/pages/PublicShopPage.tsx:122-127 | Only entries with the id change, and only in quantity. |
| PublicShopPage.UpdateCartQuantity | src/pages/PublicShopPage.tsx:139-149 | A quantity ≤ 0 removes the entries with the id and keeps the rest in order. A positive one sets those entries' quantity and changes nothing else. |
| PublicShopPage.SetQuantity | src/pages/PublicShopPage.tsx:142-147 | Only entries with the id change, and only in quantity. |
| PublicShopPage.TotalPrice | src/pages/PublicShopPage.tsx:151-153 | The empty cart totals 0. |
| PublicShopPage.TotalPriceNonNegative | src/pages/PublicShopPage.tsx:151-153 | Non-negative prices and quantities give a non-negative total. |
| PublicShopPage.TotalPriceAppend | src/pages/PublicShopPage.tsx:151-153 | The total of two carts joined is the sum of their totals. |
| PublicShopPage.TotalPriceUpdate | src/pages/PublicShopPage.tsx:151-153 | Changing one entry changes the total by the difference of its subtotals. |
| PublicShopPage.AddToCartKeepsIdsUnique | src/pages/PublicShopPage.tsx:120-137 | Adding keeps item ids unique. |
| PublicShopPage.UpdateCartQuantityKeepsIdsUnique | src/pages/PublicShopPage.tsx:139-149 | Updating keeps item ids unique. |
| PublicShopPage.FilterKeepsIdsUnique | src/pages/PublicShopPage.tsx:141 | Filtering keeps item ids unique. |
| PublicShopPage.AddToCartTotal | src/pages/PublicShopPage.tsx:120-153 | With unique ids and a consistent price, adding raises the total by price × quantity. |
| PublicShopPage.RaiseOneEntry | src/pages/PublicShopPage.tsx:122-127 | With unique ids, adding an item in the cart raises exactly its one entry. |
| PublicShopPage.RaiseTotal | src/pages/PublicShopPage.tsx:151-153 | Raising one entry changes the total by that entry's price × quantity. |
| PublicShopPage.SubtotalRaise | src/pages/PublicShopPage.tsx:152 | A raised entry's subtotal grows by price × quantity. |
| PublicShopPage.MinusOnLastUnitRemoves | src/pages/PublicShopPage.tsx:139-153 | Decreasing an entry of quantity 1 removes exactly that entry and lowers the total by its price. |
| PublicShopPage.RemoveOneEntry | src/pages/PublicShopPage.tsx:141 | With unique ids, removing by id removes exactly that one position. |
| PublicShopPage.TotalWithout | src/pages/PublicShopPage.tsx:151-153 | Dropping one entry lowers the total by its subtotal. |
| PublicShopPage.LoadShop | src/pages/PublicShopPage.tsx:63-92 | No slug gives "Shop slug is missing." and a missing shop gives "Shop not found.". A private shop with an access code asks for the code; any other shop is shown. |
| PublicShopPage.HandleAccessCode | src/pages/PublicShopPage.tsx:94-118 | The shop is shown iff the entered code equals the shop's code; otherwise the code is asked again. |
| PublicShopPage.PrivateShopNeedsItsCode | src/pages/PublicShopPage.tsx:75-97 | A private shop with a code is never shown for a wrong code. |
| ShopEditor.OrDefault | src/pages/ShopEditor.tsx:69-71 | `value \|\| fallback`: an empty or missing value gives the fallback. |
| ShopEditor.LoadShop | src/pages/ShopEditor.tsx:57-80 | The first shop with the id fills the form. A present access code is loaded as is and a missing one as `""`. A non-empty style is loaded as is and a missing or empty one as `default`. Present cities are loaded and missing ones become `[]`. Without such a shop the form is unchanged. |
| ShopEditor.AddCity | src/pages/ShopEditor.tsx:243-256 | The trimmed city is appended and the input cleared iff it is non-empty and not yet listed; otherwise nothing changes. |
| ShopEditor.TrimTrimmed | src/pages/ShopEditor.tsx:243 | Trimming is idempotent. |
| ShopEditor.AddCityKeepsCitiesClean | src/pages/ShopEditor.tsx:243-245 | Adding keeps the cities free of duplicates and of blank or untrimmed entries. |
| ShopEditor.AddCityTwiceListsOnce | src/pages/ShopEditor.tsx:243-245 | Adding the same city twice lists it once. |
| ShopEditor.RemoveCityAt | src/pages/ShopEditor.tsx:264 | Exactly the element at the index is removed and the rest keep their order. An index out of range changes nothing. |
| ShopEditor.RemoveCityAtCounts | src/pages/ShopEditor.tsx:264 | Removal takes one occurrence of that city and keeps a duplicate-free list duplicate-free without it. |
| ShopEditor.Save | src/pages/ShopEditor.tsx:82-134 | Nothing is sent iff the name or slug is empty. Editing PUTs without `slug` and `ownerId`. Creating POSTs with the slug, and with `ownerId` iff a user is signed in. Both carry the six shared fields. |
| ShopEditor.EditBodyKeys | src/pages/ShopEditor.tsx:94-101 | The edit body has exactly the six editable fields. |
| EmailChangeForm.Form.constructor | src/components/EmailChangeForm.tsx:13-16 | The form starts at step `input` with empty fields, not loading. |
| EmailChangeForm.Form.StartSendConfirmation | src/components/EmailChangeForm.tsx:18-30 | No user or no address: nothing happens. Otherwise `loading` is set and the address is posted to the user's `request-email-change`. |
| EmailChangeForm.Form.FinishSendConfirmation | src/components/EmailChangeForm.tsx:31-53 | An accepted request moves to `confirm`; otherwise the step is kept. `loading` ends either way. |
| EmailChangeForm.Form.StartConfirmEmailChange | src/components/EmailChangeForm.tsx:56-68 | No user or no code: nothing happens. Otherwise `loading` is set and the code is posted. |
| EmailChangeForm.Form.FinishConfirmEmailChange | src/components/EmailChangeForm.tsx:69-94 | An accepted code stores the returned user, or no user when the response has none, and returns to `input` with both fields cleared. A failure keeps the step, the fields and the user. `loading` ends either way. |
| EmailChangeForm.Form.ResetForm | src/components/EmailChangeForm.tsx:97-101 | Always step `input` with both fields empty. |
| EmailChangeForm.Form.SendConfirmation | src/components/EmailChangeForm.tsx:18-54 | A request is sent iff there is a user and an address, and `loading` is off after it. Only acceptance moves to `confirm`. |
| EmailChangeForm.Form.ConfirmEmailChange | src/components/EmailChangeForm.tsx:56-95 | A request is sent iff there is a user and a code. Acceptance clears the form back to `input` with the returned user, or with no user when the response has none. A failure changes nothing but `loading`, which is off afterwards. |
| EmailChangeForm.ChangeEmailScenario | src/components/EmailChangeForm.tsx:18-101 | Address, send, code, confirm: with both accepted, the form ends empty at `input`, not loading, holding the returned user. |
| EmailChangeForm.RejectedCodeScenario | src/components/EmailChangeForm.tsx:56-95 | A rejected code leaves the form at `confirm` with what was typed, and Confirm enabled. |
| EmailChangeForm.ReturnedUser | src/components/EmailChangeForm.tsx:70 | `data.user` signs in a user iff it is an object, and that object is the user; a response without a user leaves no one signed in. |
| EmailChangeForm.ResponseWithoutUserScenario | src/components/EmailChangeForm.tsx:18-94 | After an accepted code whose response carries no user, the form has no user, and the next Send Confirmation sends nothing. |
| UserSettings.FormFromProfile | src/pages/UserSettings.tsx:62-69 | Exactly the six editable fields are copied from the profile. |
| UserSettings.FormBody | src/pages/UserSettings.tsx:89 | The body holds exactly the six form fields that are not `undefined`, each with the form's value, since JSON leaves `undefined` out. |
| UserSettings.SaveThenReload | src/pages/UserSettings.tsx:56-96 | Saving the form, merging the body into the stored user as the server does, and loading that profile gives back every field that was sent; a field left out of the body reloads as the stored value. |
| UserSettings.SaveThenReloadDefined | src/pages/UserSettings.tsx:56-96 | A form without `undefined` fields reloads unchanged after a save, whatever the stored user held. |
| UserSettings.SaveKeepsOtherKeys | src/pages/UserSettings.tsx:83-96 | Saving never changes a stored key outside the six form fields. |
| UserSettings.UnsubscribeBodyStopsEmail | src/pages/UserSettings.tsx:230-234 | A record merged with the unsubscribe body is mailed by neither the server's gate nor the client's. |
| UserSettings.SettingsPage.constructor | src/pages/UserSettings.tsx:36-48 | The page starts loading, with the initial form and no change pending. |
| UserSettings.SettingsPage.LoadProfile | src/pages/UserSettings.tsx:56-81 | An accepted profile is stored and fills the form; loading ends either way. |
| UserSettings.SettingsPage.SetNewEmail | src/pages/UserSettings.tsx:388 | Only the typed address changes. |
| UserSettings.SettingsPage.SetConfirmationCode | src/pages/UserSettings.tsx:410 | Only the typed code changes. |
| UserSettings.SettingsPage.RequestEmailChange | src/pages/UserSettings.tsx:168-193 | Success makes the change pending for that address with an empty code; a failure changes nothing. |
| UserSettings.SettingsPage.ConfirmEmailChange | src/pages/UserSettings.tsx:195-223 | Success stores the returned user (none when the response has none) and resets the change; a failure changes nothing. |
| UserSettings.SettingsPage.CancelEmailChange | src/pages/UserSettings.tsx:415 | Cancel resets the change and touches nothing else. |
| UserSettings.SettingsPage.UnsubscribeEmail | src/pages/UserSettings.tsx:225-253 | Sends an empty address with notifications and confirmation off. On success it stores the returned user and clears the form's address and e-mail switch, keeping the other fields. |
| UserSettings.SettingsPage.Save | src/pages/UserSettings.tsx:83-113 | The whole form is sent, and an accepted answer becomes the profile and the signed-in user. Saving ends either way. |
| UserSettings.ChangeEmailScenario | src/pages/UserSettings.tsx:168-223 | Typing, an accepted request and an accepted code end with no change pending and the returned user signed in. Confirm is disabled while the change is pending with no code and enabled once a code is typed. |
| UserSettings.UnsubscribeScenario | src/pages/UserSettings.tsx:225-253 | After removing the address and reloading from a server that applied it, the e-mail switch is disabled and the form shows no address with e-mail notifications off. |
| Common.Merge | server/utils/database.js:76 | Spread: the keys of both records, with the updates winning and other keys read as before. |
| Common.Without | server/index.js:106-111 | Rest: the record without that key, every other key unchanged. |
| Common.TrimEmptyIff | src/pages/Messages.tsx:66 | A text trims to empty iff it is all white space. |
| Common.NatToStringRoundTrip | server/utils/orderUtils.js:39 | The decimal printing of a natural number reads back as that number. |
| Seqs.FindIndex | server/utils/orderUtils.js:47 | `findIndex` semantics, for orders and for messages alike: the first element whose key is the one sought, every earlier element has another key, and the length of the sequence stands for -1. |
| Seqs.Filter | src/pages/OrderManagement.tsx:111 | `Array.prototype.filter`: exactly the elements that pass, never longer than the input. |
| Seqs.FilterMultiset | src/pages/Messages.tsx:156-158 | Filtering keeps each passing element as often as it occurs and drops the rest. |
| Seqs.FilterAppend | server/messageServer.js:16-18 | Filtering distributes over concatenation, so order is kept. |

## Left out

- JSON file persistence (`fs` reads and writes, JSON parsing) is not modelled: each collection is a `seq` field of `Database.Db`.
- HTTP routing, CORS, `listen`, the response bodies' texts, and the fetch wrapper are not modelled. Handlers return a result datatype whose comments give the status codes.
- Concurrent handlers each read the whole file and write it back, which can lose updates. Every handler is modelled as atomic.
- bcrypt hashing and comparison are a foreign library. They are the parameters `hash` and `compare`, and the salt is a parameter.
- Mail delivery through SMTP and the HTML mail bodies are not modelled, including the order lookup that only feeds the owner mail's HTML (server/notificationServer.js:127-132). Only the recipient and subject are kept.
- The IMAP listener (server/email-listener.js) and the process launcher (server/start-servers.js) are not part of this model.
- The clock and `Date.now()` ids are parameters. `relativeTime` is always null and is dropped. An unparsable date, whose comparisons involve NaN, is not represented.
- One handler call reads the clock once: the single `now` stands for the separate `new Date()` readings of one update (server/utils/orderUtils.js:25 and :64; server/messageServer.js:40-41; server/notificationServer.js:118-119), which may differ by a millisecond. OrderUtils.TransitionedShape's "the last entry's timestamp and `updatedAt` are both `now`" and the equal `createdAt`/`updatedAt` of a new message rely on this.
- Records.Order keeps only the order fields the core reads or writes. The other stored fields, such as `deliveryAddress` (src/pages/OrderManagement.tsx:23) and the customer's contact details, are not modelled. "Unchanged" in the order lemmas means unchanged among the modelled fields.
- Locale-dependent timestamp formatting (`formatMessageTimestamp`, `toLocaleString`) is not modelled.
- Prices are integer cents, so floating-point sums and `toFixed` display are not modelled.
- The RegExp engine is replaced by a matcher for the one link pattern.
- `trim` uses an ASCII white-space set, not the full Unicode set.
- Strings are sequences of characters, not UTF-16 code units, so `substring(0, 50)` counts characters.
- Browser APIs are not modelled: the Notification permission request, local storage writes, and the 30-second polling timer. Each poll is one call whose stored time and fetched messages are parameters.
- Toasts, navigation, icons, badges and the other presentation-only pages and components are not modelled.
- The fetch-failure branch of the order aggregation, which shows an error toast and keeps the previous list, is not modelled.
- The image upload in the shop editor and the notification-permission prompt are not modelled.
- The settings page's `PUT /api/users/:id`, `request-email-change` and `confirm-email-change` routes are served by a file that is not part of this model. Their effect on the stored user is stated through `Database.UpdateUser`'s merge, in `NotificationServer.UnsubscribedUserNotEligible` and `UserSettings.UnsubscribeBodyStopsEmail`.
- AuthServer.JsLength: an object's `length` is read only from a numeric `length` field.
- MessageServer.ContactIds and MessageServer.UsersWithIdIn: ids are compared by value. JavaScript's `Set` compares an object or array id by reference, which differs only for ids that are not strings or numbers.
- NotificationServer.ValueToString: nested arrays and objects are printed by a simplified rule, not by JavaScript's `toString`.
- EmailChangeForm.ReturnedUser: a truthy `data.user` that is not a plain object (a string, a number, `true`, an array) is stored as no user, whereas the browser would keep it as a signed-in user without an `id`.
- EmailChangeForm.Form.SendConfirmation: the inputs stay editable while a request runs. The model runs the start and the end of a request back to back, and the split `Start`/`Finish` methods expose the state in between.
- UseNotifications.CheckForNewMessages: the write of the new last-check time to local storage is not modelled.

/** The server-side entities kept in `orders.json` and `messages.json`.
    Timestamps (ISO 8601 strings in the files) are integer milliseconds since
    the epoch; prices and totals are integer cents. */
module Records {
  import opened Common

  /** One entry of an order's `statusHistory` (its `relativeTime` is always
      null and is not represented). */
  datatype HistoryEntry = HistoryEntry(status: string, timestamp: int)

  datatype LineItem = LineItem(id: string, name: string, price: int, cartQuantity: int)

  /** `order.deliveryTime`: absent, `null`, or a text such as "2h 15m". */
  datatype DeliveryTime = Unset | NullTime | Elapsed(text: string)

  /** An order. An empty `status` stands for a missing or empty status field;
      `statusHistory` is `None` while the order has none. */
  datatype Order = Order(
    id: string,
    shopId: string,
    customerId: Option<string>,
    customerEmail: string,
    items: seq<LineItem>,
    total: int,
    paymentMethod: string,
    deliveryOption: string,
    status: string,
    statusHistory: Option<seq<HistoryEntry>>,
    deliveryTime: DeliveryTime,
    createdAt: int,
    updatedAt: int)

  /** A stored message. The sender, receiver, content, type and metadata are
      whatever the request body carried, so they are JSON values. */
  datatype Message = Message(
    id: string,
    senderId: Value,
    receiverId: Value,
    content: Value,
    msgType: Value,
    metadata: Value,
    read: bool,
    createdAt: int,
    updatedAt: int)

  /** The `id` an order is looked up by. */
  function OrderId(o: Order): string
  {
    o.id
  }

  /** The `id` a message is looked up by. */
  function MessageId(m: Message): string
  {
    m.id
  }
}

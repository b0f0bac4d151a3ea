/** `src/pages/PublicShopPage.tsx`: the storefront. Loading a shop by its
    slug either shows it, asks for an access code (a private shop that has
    one), or shows an error; the cart is a list of items with a quantity,
    updated by adding an item and by the plus and minus buttons, and its
    total is the sum of price times quantity. Prices are integer cents. */
module PublicShopPage {
  import opened Common
  import opened Seqs

  datatype ShopItem = ShopItem(
    id: string,
    name: string,
    price: int,
    quantity: int,
    weight: string,
    description: string)

  /** `CartItem extends ShopItem` with the quantity in the cart. */
  datatype CartItem = CartItem(item: ShopItem, cartQuantity: int)

  /** The fields of a shop the page decides on. */
  datatype Shop = Shop(id: string, name: string, slug: string, isPublic: bool,
                       items: seq<ShopItem>, accessCode: Option<string>)

  // ---------------------------------------------------------------------
  // The cart

  /** No two entries of the cart share an item id. */
  predicate UniqueIds(cart: seq<CartItem>)
  {
    forall i, j :: 0 <= i < j < |cart| ==> cart[i].item.id != cart[j].item.id
  }

  predicate InCart(cart: seq<CartItem>, id: string)
  {
    exists i :: 0 <= i < |cart| && cart[i].item.id == id
  }

  /** `addToCart(item, quantity)`: when the item is already in the cart, each
      entry with its id gets `quantity` more and nothing else changes;
      otherwise a new entry with `quantity` is appended. */
  function AddToCart(cart: seq<CartItem>, item: ShopItem, quantity: int): (r: seq<CartItem>)
    ensures InCart(cart, item.id) ==>
              |r| == |cart| &&
              forall i :: 0 <= i < |cart| ==>
                r[i] == if cart[i].item.id == item.id
                        then cart[i].(cartQuantity := cart[i].cartQuantity + quantity) else cart[i]
    ensures !InCart(cart, item.id) ==> r == cart + [CartItem(item, quantity)]
    ensures InCart(r, item.id)
  {
    if exists i :: 0 <= i < |cart| && cart[i].item.id == item.id then
      Raise(cart, item.id, quantity)
    else
      var r := cart + [CartItem(item, quantity)];
      assert r[|cart|].item.id == item.id;
      r
  }

  /** The `map` of `addToCart` for an item already in the cart. */
  function Raise(cart: seq<CartItem>, id: string, quantity: int): (r: seq<CartItem>)
    ensures |r| == |cart|
    ensures forall i :: 0 <= i < |cart| ==>
              r[i] == if cart[i].item.id == id then cart[i].(cartQuantity := cart[i].cartQuantity + quantity)
                      else cart[i]
  {
    if cart == [] then []
    else
      var c := cart[0];
      [if c.item.id == id then c.(cartQuantity := c.cartQuantity + quantity) else c] + Raise(cart[1..], id, quantity)
  }

  /** The add button, which adds one. */
  function AddOne(cart: seq<CartItem>, item: ShopItem): seq<CartItem>
  {
    AddToCart(cart, item, 1)
  }

  /** `updateCartQuantity(itemId, newQuantity)`: zero or less removes every
      entry with that id and keeps the others in order; a positive quantity
      replaces the quantity of each entry with that id. */
  function UpdateCartQuantity(cart: seq<CartItem>, itemId: string, newQuantity: int): (r: seq<CartItem>)
    ensures newQuantity <= 0 ==>
              r == Filter(cart, (c: CartItem) => c.item.id != itemId) && !InCart(r, itemId)
    ensures newQuantity > 0 ==>
              |r| == |cart| &&
              forall i :: 0 <= i < |cart| ==>
                r[i] == if cart[i].item.id == itemId then cart[i].(cartQuantity := newQuantity) else cart[i]
  {
    if newQuantity <= 0 then
      var r := Filter(cart, (c: CartItem) => c.item.id != itemId);
      assert forall i :: 0 <= i < |r| ==> r[i] in r;
      r
    else SetQuantity(cart, itemId, newQuantity)
  }

  /** The `map` of `updateCartQuantity` for a positive quantity. */
  function SetQuantity(cart: seq<CartItem>, id: string, quantity: int): (r: seq<CartItem>)
    ensures |r| == |cart|
    ensures forall i :: 0 <= i < |cart| ==>
              r[i] == if cart[i].item.id == id then cart[i].(cartQuantity := quantity) else cart[i]
  {
    if cart == [] then []
    else
      var c := cart[0];
      [if c.item.id == id then c.(cartQuantity := quantity) else c] + SetQuantity(cart[1..], id, quantity)
  }

  /** What one entry adds to the total. */
  function Subtotal(c: CartItem): int
  {
    c.item.price * c.cartQuantity
  }

  /** `cart.reduce((total, item) => total + item.price * item.cartQuantity, 0)`,
      folding from the left. */
  function TotalPrice(cart: seq<CartItem>): (r: int)
    ensures cart == [] ==> r == 0
  {
    if cart == [] then 0 else TotalPrice(cart[..|cart| - 1]) + Subtotal(cart[|cart| - 1])
  }

  /** With no negative price or quantity the total is not negative. */
  lemma {:induction false} TotalPriceNonNegative(cart: seq<CartItem>)
    requires forall i :: 0 <= i < |cart| ==> cart[i].item.price >= 0 && cart[i].cartQuantity >= 0
    ensures TotalPrice(cart) >= 0
  {
    if cart != [] {
      TotalPriceNonNegative(cart[..|cart| - 1]);
      var c := cart[|cart| - 1];
      assert c.item.price * c.cartQuantity >= 0;
    }
  }

  /** The total of two carts put together is the sum of their totals. */
  lemma {:induction false} TotalPriceAppend(a: seq<CartItem>, b: seq<CartItem>)
    ensures TotalPrice(a + b) == TotalPrice(a) + TotalPrice(b)
  {
    if b == [] {
      assert a + b == a;
    } else {
      assert (a + b)[..|a + b| - 1] == a + b[..|b| - 1];
      assert (a + b)[|a + b| - 1] == b[|b| - 1];
      TotalPriceAppend(a, b[..|b| - 1]);
    }
  }

  /** Changing one entry changes the total by the change of its subtotal. */
  lemma TotalPriceUpdate(cart: seq<CartItem>, i: nat, c: CartItem)
    requires i < |cart|
    ensures TotalPrice(cart[i := c]) == TotalPrice(cart) - Subtotal(cart[i]) + Subtotal(c)
  {
    TotalPriceAround(cart, i);
    TotalPriceSnoc(cart[..i], cart[i]);
    UpdateAround(cart, i, c);
    TotalPriceAppend(cart[..i] + [c], cart[i + 1..]);
    TotalPriceSnoc(cart[..i], c);
  }

  /** Adding keeps item ids unique. */
  lemma AddToCartKeepsIdsUnique(cart: seq<CartItem>, item: ShopItem, quantity: int)
    requires UniqueIds(cart)
    ensures UniqueIds(AddToCart(cart, item, quantity))
  {
  }

  /** Changing quantities keeps item ids unique. */
  lemma UpdateCartQuantityKeepsIdsUnique(cart: seq<CartItem>, itemId: string, newQuantity: int)
    requires UniqueIds(cart)
    ensures UniqueIds(UpdateCartQuantity(cart, itemId, newQuantity))
  {
    if newQuantity <= 0 {
      var p := (c: CartItem) => c.item.id != itemId;
      FilterKeepsIdsUnique(cart, p);
    }
  }

  lemma {:induction false} FilterKeepsIdsUnique(cart: seq<CartItem>, p: CartItem -> bool)
    requires UniqueIds(cart)
    ensures UniqueIds(Filter(cart, p))
  {
    if cart != [] {
      FilterKeepsIdsUnique(cart[1..], p);
      var rest := Filter(cart[1..], p);
      var r := Filter(cart, p);
      if p(cart[0]) {
        assert r == [cart[0]] + rest;
        forall k | 0 <= k < |rest| ensures rest[k].item.id != cart[0].item.id {
          assert rest[k] in cart[1..];
        }
        forall i, j | 0 <= i < j < |r| ensures r[i].item.id != r[j].item.id {
          if i > 0 {
            assert r[i] == rest[i - 1] && r[j] == rest[j - 1];
          } else {
            assert r[j] == rest[j - 1];
          }
        }
      } else {
        assert r == rest;
      }
    }
  }

  /** In a cart with unique ids, adding `quantity` of an item priced like its
      entry raises the total by price times quantity. */
  lemma AddToCartTotal(cart: seq<CartItem>, item: ShopItem, quantity: int)
    requires UniqueIds(cart)
    requires forall i :: 0 <= i < |cart| && cart[i].item.id == item.id ==> cart[i].item.price == item.price
    ensures TotalPrice(AddToCart(cart, item, quantity)) == TotalPrice(cart) + item.price * quantity
  {
    if InCart(cart, item.id) {
      var i :| 0 <= i < |cart| && cart[i].item.id == item.id;
      AddToCartIsRaise(cart, item, quantity, i);
      RaiseTotal(cart, i, quantity);
    } else {
      TotalPriceSnoc(cart, CartItem(item, quantity));
    }
  }

  /** Adding an item whose id is at entry `i` raises that entry alone. */
  lemma AddToCartIsRaise(cart: seq<CartItem>, item: ShopItem, quantity: int, i: nat)
    requires UniqueIds(cart) && i < |cart| && cart[i].item.id == item.id
    ensures AddToCart(cart, item, quantity) == cart[i := cart[i].(cartQuantity := cart[i].cartQuantity + quantity)]
  {
    RaiseOneEntry(cart, i, quantity);
    assert AddToCart(cart, item, quantity) == AddToCart(cart, cart[i].item, quantity);
  }

  /** With unique ids, raising an item in the cart changes only its entry. */
  lemma RaiseOneEntry(cart: seq<CartItem>, i: nat, quantity: int)
    requires UniqueIds(cart) && i < |cart|
    ensures AddToCart(cart, cart[i].item, quantity) ==
            cart[i := cart[i].(cartQuantity := cart[i].cartQuantity + quantity)]
  {
    assert InCart(cart, cart[i].item.id);
  }

  /** Raising one entry's quantity raises the total by its price times the
      raise. */
  lemma RaiseTotal(cart: seq<CartItem>, i: nat, quantity: int)
    requires i < |cart|
    ensures TotalPrice(cart[i := cart[i].(cartQuantity := cart[i].cartQuantity + quantity)]) ==
            TotalPrice(cart) + cart[i].item.price * quantity
  {
    TotalPriceUpdate(cart, i, cart[i].(cartQuantity := cart[i].cartQuantity + quantity));
    SubtotalRaise(cart[i], quantity);
  }

  lemma SubtotalRaise(c: CartItem, quantity: int)
    ensures Subtotal(c.(cartQuantity := c.cartQuantity + quantity)) == Subtotal(c) + c.item.price * quantity
  {
    assert c.item.price * (c.cartQuantity + quantity) == c.item.price * c.cartQuantity + c.item.price * quantity;
  }

  /** The minus button on an entry with quantity one removes it, and the
      total drops by that entry's price. */
  lemma MinusOnLastUnitRemoves(cart: seq<CartItem>, i: nat)
    requires UniqueIds(cart) && i < |cart| && cart[i].cartQuantity == 1
    ensures var r := UpdateCartQuantity(cart, cart[i].item.id, cart[i].cartQuantity - 1);
            r == cart[..i] + cart[i + 1..] && TotalPrice(r) == TotalPrice(cart) - cart[i].item.price
  {
    RemoveOneEntry(cart, i);
    TotalWithout(cart, i);
  }

  /** With unique ids, filtering out the id of an entry removes exactly that
      entry. */
  lemma RemoveOneEntry(cart: seq<CartItem>, i: nat)
    requires UniqueIds(cart) && i < |cart|
    ensures Filter(cart, (c: CartItem) => c.item.id != cart[i].item.id) == cart[..i] + cart[i + 1..]
  {
    var id := cart[i].item.id;
    var p := (c: CartItem) => c.item.id != id;
    var front, back := cart[..i], cart[i + 1..];
    assert cart == front + [cart[i]] + back;
    assert Filter(front, p) == front by {
      forall k | 0 <= k < |front| ensures p(front[k]) {
        assert front[k] == cart[k];
      }
      FilterAllPass(front, p);
    }
    assert Filter(back, p) == back by {
      forall k | 0 <= k < |back| ensures p(back[k]) {
        assert back[k] == cart[i + 1 + k];
      }
      FilterAllPass(back, p);
    }
    assert Filter(front + [cart[i]], p) == front by {
      assert Filter([cart[i]], p) == [] by {
        assert [cart[i]][1..] == [];
      }
      FilterAppend(front, [cart[i]], p);
    }
    FilterAppend(front + [cart[i]], back, p);
  }

  /** Dropping one entry lowers the total by its subtotal. */
  lemma TotalWithout(cart: seq<CartItem>, i: nat)
    requires i < |cart|
    ensures TotalPrice(cart[..i] + cart[i + 1..]) == TotalPrice(cart) - Subtotal(cart[i])
  {
    TotalPriceAround(cart, i);
    TotalPriceSnoc(cart[..i], cart[i]);
    TotalPriceAppend(cart[..i], cart[i + 1..]);
  }

  /** The total of a cart with one more entry at the end. */
  lemma TotalPriceSnoc(a: seq<CartItem>, c: CartItem)
    ensures TotalPrice(a + [c]) == TotalPrice(a) + Subtotal(c)
  {
    assert (a + [c])[..|a + [c]| - 1] == a;
  }

  /** The total of a cart is the total up to and including entry `i` plus
      the total after it. */
  lemma TotalPriceAround(cart: seq<CartItem>, i: nat)
    requires i < |cart|
    ensures TotalPrice(cart) == TotalPrice(cart[..i] + [cart[i]]) + TotalPrice(cart[i + 1..])
  {
    SplitAround(cart, i);
    TotalPriceAppend(cart[..i] + [cart[i]], cart[i + 1..]);
  }

  // ---------------------------------------------------------------------
  // Loading and private access

  /** A private shop with an access code is not shown until the code is
      entered. */
  predicate NeedsAccessCode(shop: Shop)
  {
    !shop.isPublic && shop.accessCode.Some? && shop.accessCode.value != ""
  }

  /** What the page shows after loading. */
  datatype PageState =
    | ShowShop(shop: Shop)
    | AskAccessCode
    | Failed(error: string)

  /** The loading effect: a missing slug and an unknown shop are errors; a
      shop that needs a code asks for it; any other shop is shown. A failed
      fetch reads as an unknown shop. */
  function LoadShop(slug: string, fetched: Option<Shop>): (r: PageState)
    ensures r.ShowShop? <==> slug != "" && fetched.Some? && !NeedsAccessCode(fetched.value)
    ensures r.ShowShop? ==> r.shop == fetched.value
    ensures r == AskAccessCode <==> slug != "" && fetched.Some? && NeedsAccessCode(fetched.value)
    ensures slug == "" ==> r == Failed("Shop slug is missing.")
    ensures slug != "" && fetched.None? ==> r == Failed("Shop not found.")
  {
    if slug == "" then Failed("Shop slug is missing.")
    else if fetched.None? then Failed("Shop not found.")
    else if NeedsAccessCode(fetched.value) then AskAccessCode
    else ShowShop(fetched.value)
  }

  /** `handleAccessCode`: the shop is shown exactly when it is found again
      and its code equals the entered text; otherwise the code is asked for
      again. */
  function HandleAccessCode(fetched: Option<Shop>, entered: string): (r: PageState)
    ensures r.ShowShop? <==> fetched.Some? && fetched.value.accessCode == Some(entered)
    ensures r.ShowShop? ==> r.shop == fetched.value
    ensures !r.ShowShop? ==> r == AskAccessCode
  {
    if fetched.Some? && fetched.value.accessCode == Some(entered) then ShowShop(fetched.value)
    else AskAccessCode
  }

  /** A private shop's items are reachable only through its own code: from
      the code prompt, any other text leaves the page asking. */
  lemma PrivateShopNeedsItsCode(slug: string, shop: Shop, entered: string)
    requires slug != "" && NeedsAccessCode(shop)
    requires entered != shop.accessCode.value
    ensures LoadShop(slug, Some(shop)) == AskAccessCode
    ensures HandleAccessCode(Some(shop), entered) == AskAccessCode
  {
  }
}

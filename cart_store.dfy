/**
 * The cart services over the user, cart, cart-item and product-detail tables: adding a
 * variant (merged into an existing line, capped by stock), removing a line the user owns,
 * changing a line's quantity or variant, and reading the cart with its totals.
 */
module CartStore {
  import opened Wrappers
  import Seqs
  import opened CartItems

  /** The `ApiResponse` the cart-item service returns instead of throwing. */
  datatype Reply = Reply(status: int, message: string, error: Option<string>, data: Option<CartLine>)

  /** A cart as `getCartByUserId` returns it. */
  datatype CartView = CartView(cartId: int, userId: int, lines: seq<LineView>, totalPrice: int)

  datatype ViewResult = Found(cart: CartView) | NotFound(message: string)

  /** The carts after making sure `userId` has one: a missing cart is created with the next id. */
  function WithCart(carts: map<int, int>, userId: int, nextCartId: int): (r: map<int, int>)
    ensures userId in r && r.Keys == carts.Keys + {userId}
    ensures userId in carts ==> r == carts
    ensures userId !in carts ==> r[userId] == nextCartId && forall u :: u in carts ==> r[u] == carts[u]
  {
    if userId in carts then carts else carts[userId := nextCartId]
  }

  /**
   * The reply of `addCartItem` once the cart and the variant are found: a 400 when the held
   * plus requested quantity exceeds the stock, a 200 with the grown line, or a 201 with the
   * new line.
   */
  function AddReply(lines: seq<CartLine>, cartId: int, detailId: int, quantity: int, stock: int, nextId: int): Reply {
    var existing := FindLine(lines, cartId, detailId);
    var newQuantity := if existing.Some? then existing.value.quantity + quantity else quantity;
    if newQuantity > stock then Reply(400, "Quantity exceeds available stock", Some("Invalid quantity"), None)
    else if existing.Some? then
      Reply(200, "CartItem quantity updated successfully", None, Some(existing.value.(quantity := newQuantity)))
    else Reply(201, "CartItem created successfully", None, Some(CartLine(nextId, cartId, detailId, quantity)))
  }

  /**
   * What the add reply reports: 400 exactly when the stock does not cover the held plus the
   * requested quantity, in which case the lines stay; otherwise the returned line is the
   * one the cart now holds for the variant, with the summed quantity.
   */
  lemma AddReplyReports(lines: seq<CartLine>, cartId: int, detailId: int, quantity: int, stock: int, nextId: int)
    requires IdsUnique(lines)
    ensures var r := AddReply(lines, cartId, detailId, quantity, stock, nextId);
            var after := AddedLines(lines, cartId, detailId, quantity, stock, nextId);
            && (r.status == 400 <==> HeldQuantity(lines, cartId, detailId) + quantity > stock)
            && (r.status == 400 ==> after == lines && r.data.None?)
            && (r.status != 400 ==>
                  && r.data == FindLine(after, cartId, detailId)
                  && r.data.value.quantity == HeldQuantity(lines, cartId, detailId) + quantity)
            && (r.status == 200 <==> r.status != 400 && FindLine(lines, cartId, detailId).Some?)
            && (r.status == 201 <==> r.status != 400 && FindLine(lines, cartId, detailId).None?)
  {
    var existing := FindLine(lines, cartId, detailId);
    var r := AddReply(lines, cartId, detailId, quantity, stock, nextId);
    var after := AddedLines(lines, cartId, detailId, quantity, stock, nextId);
    if existing.Some? {
      var e := existing.value;
      var newQuantity := e.quantity + quantity;
      assert HeldQuantity(lines, cartId, detailId) == e.quantity;
      if newQuantity > stock {
        assert r == Reply(400, "Quantity exceeds available stock", Some("Invalid quantity"), None);
        assert after == lines;
      } else {
        assert r == Reply(200, "CartItem quantity updated successfully", None, Some(e.(quantity := newQuantity)));
        assert after == SetQuantity(lines, e.id, newQuantity);
        SetQuantityFinds(lines, cartId, detailId, newQuantity);
      }
    } else {
      assert HeldQuantity(lines, cartId, detailId) == 0;
      if quantity > stock {
        assert r == Reply(400, "Quantity exceeds available stock", Some("Invalid quantity"), None);
        assert after == lines;
      } else {
        var line := CartLine(nextId, cartId, detailId, quantity);
        assert r == Reply(201, "CartItem created successfully", None, Some(line));
        assert after == lines + [line];
        FindAppended(lines, line);
      }
    }
  }

  class Carts {
    var users: set<int>
    /** `cart.userId` is unique: each user has at most one cart. */
    var carts: map<int, int>
    var lines: seq<CartLine>
    var details: map<int, Detail>
    var productNames: map<int, string>
    var nextCartId: int
    var nextLineId: int

    ghost predicate Valid()
      reads this
    {
      && LinesValid(lines, carts, details, nextLineId)
      && (forall u :: u in carts ==> carts[u] < nextCartId)
      && (forall u, v :: u in carts && v in carts && carts[u] == carts[v] ==> u == v)
      && (forall d :: d in details.Values ==> d.productId in productNames)
    }

    constructor (users: set<int>, details: map<int, Detail>, productNames: map<int, string>)
      requires forall d :: d in details.Values ==> d.productId in productNames
      ensures Valid() && this.users == users && this.details == details && this.productNames == productNames
      ensures carts == map[] && lines == []
    {
      this.users, this.details, this.productNames := users, details, productNames;
      carts, lines := map[], [];
      nextCartId, nextLineId := 1, 1;
    }

    /** `cart.create({ data: { userId } })` when the user has none yet. */
    method EnsureCart(userId: int) returns (cartId: int)
      requires Valid()
      modifies this
      ensures Valid()
      ensures carts == WithCart(old(carts), userId, old(nextCartId)) && cartId == carts[userId]
      ensures lines == old(lines) && users == old(users) && details == old(details) && productNames == old(productNames)
      ensures nextLineId == old(nextLineId)
    {
      if userId !in carts {
        carts := carts[userId := nextCartId];
        nextCartId := nextCartId + 1;
      }
      cartId := carts[userId];
      MoreCartsKeepValid(lines, old(carts), carts, details, nextLineId);
    }

    /**
     * `addCartItem`: an unknown user is a 404 with nothing created. Otherwise the user's cart
     * exists afterwards (it is created first and stays even when the rest fails); an unknown
     * variant is a 500; a held plus requested quantity above the stock is a 400; else the
     * existing line grows (200) or a new line is added (201).
     */
    method AddCartItem(userId: int, detailId: int, quantity: int) returns (r: Reply)
      requires Valid()
      modifies this
      ensures Valid()
      ensures users == old(users) && details == old(details) && productNames == old(productNames)
      ensures userId !in users ==>
                r == Reply(404, "User not found", Some("User does not exist"), None) && unchanged(this)
      ensures userId in users ==> carts == WithCart(old(carts), userId, old(nextCartId))
      ensures userId in users && detailId !in details ==>
                r == Reply(500, "Failed to create CartItem", Some("ProductDetail not found"), None) &&
                lines == old(lines)
      ensures userId in users && detailId in details ==>
                && lines == AddedLines(old(lines), carts[userId], detailId, quantity, details[detailId].stock, old(nextLineId))
                && r == AddReply(old(lines), carts[userId], detailId, quantity, details[detailId].stock, old(nextLineId))
    {
      if userId !in users {
        return Reply(404, "User not found", Some("User does not exist"), None);
      }
      var cartId := EnsureCart(userId);
      r := AddToCart(userId, cartId, detailId, quantity);
    }

    /** The part of `addCartItem` after the cart is found or created. */
    method AddToCart(userId: int, cartId: int, detailId: int, quantity: int) returns (r: Reply)
      requires Valid() && userId in carts && carts[userId] == cartId
      modifies this
      ensures Valid()
      ensures users == old(users) && details == old(details) && productNames == old(productNames)
      ensures carts == old(carts)
      ensures detailId !in details ==>
                r == Reply(500, "Failed to create CartItem", Some("ProductDetail not found"), None) &&
                lines == old(lines)
      ensures detailId in details ==>
                && lines == AddedLines(old(lines), cartId, detailId, quantity, details[detailId].stock, old(nextLineId))
                && r == AddReply(old(lines), cartId, detailId, quantity, details[detailId].stock, old(nextLineId))
    {
      if detailId !in details {
        return Reply(500, "Failed to create CartItem", Some("ProductDetail not found"), None);
      }
      var stock := details[detailId].stock;
      r := AddReply(lines, cartId, detailId, quantity, stock, nextLineId);
      AddKeepsValid(lines, cartId, detailId, quantity, stock, carts, details, nextLineId, userId);
      lines, nextLineId := AddedLines(lines, cartId, detailId, quantity, stock, nextLineId),
                           if r.status == 201 then nextLineId + 1 else nextLineId;
    }

    /** `removeCartItem`: 404 without a cart or for a line of another cart; else that line goes. */
    method RemoveCartItem(userId: int, lineId: int) returns (r: Reply)
      requires Valid()
      modifies this
      ensures Valid()
      ensures carts == old(carts) && users == old(users) && details == old(details) && productNames == old(productNames)
      ensures userId !in old(carts) ==>
                r == Reply(404, "Cart not found for this user", Some("Not Found"), None) && unchanged(this)
      ensures userId in old(carts) &&
              (LineById(old(lines), lineId).None? || LineById(old(lines), lineId).value.cartId != old(carts)[userId]) ==>
                r == Reply(404, "CartItem not found or does not belong to this user's cart", Some("Not Found"), None) &&
                unchanged(this)
      ensures userId in old(carts) && LineById(old(lines), lineId).Some? &&
              LineById(old(lines), lineId).value.cartId == old(carts)[userId] ==>
                r == Reply(200, "CartItem deleted successfully", None, None) && lines == RemoveLine(old(lines), lineId)
    {
      if userId !in carts {
        return Reply(404, "Cart not found for this user", Some("Not Found"), None);
      }
      var line := LineById(lines, lineId);
      if line.None? || line.value.cartId != carts[userId] {
        return Reply(404, "CartItem not found or does not belong to this user's cart", Some("Not Found"), None);
      }
      RemoveKeepsValid(lines, lineId, carts, details, nextLineId);
      lines := RemoveLine(lines, lineId);
      r := Reply(200, "CartItem deleted successfully", None, None);
    }

    /**
     * `updateCartItem`: without a new variant (absent or 0) the quantity is set when the
     * line's own variant has the stock; with one, the line is replaced by a line of the same
     * cart for the new variant when it exists and has the stock. Every failure is a 500.
     */
    method UpdateCartItem(lineId: int, newDetailId: Option<int>, quantity: int) returns (r: Reply)
      requires Valid()
      modifies this
      ensures Valid()
      ensures carts == old(carts) && users == old(users) && details == old(details) && productNames == old(productNames)
      ensures r.status == 200 || r.status == 500
      ensures r.status == 500 ==> r.message == "Failed to update CartItem" && unchanged(this)
      ensures LineById(old(lines), lineId).None? ==> r == Reply(500, "Failed to update CartItem", Some("CartItem not found"), None)
      ensures LineById(old(lines), lineId).Some? && (newDetailId.None? || newDetailId.value == 0) ==>
                var line := LineById(old(lines), lineId).value;
                && (quantity > details[line.detailId].stock ==>
                      r == Reply(500, "Failed to update CartItem", Some("Quantity exceeds available stock"), None))
                && (quantity <= details[line.detailId].stock ==>
                      && lines == SetQuantity(old(lines), lineId, quantity)
                      && r == Reply(200, "CartItem quantity updated successfully", None, Some(line.(quantity := quantity))))
      ensures LineById(old(lines), lineId).Some? && newDetailId.Some? && newDetailId.value != 0 ==>
                var line := LineById(old(lines), lineId).value;
                var newId := newDetailId.value;
                && (newId !in details ==>
                      r == Reply(500, "Failed to update CartItem", Some("New ProductDetail not found"), None))
                && (newId in details && quantity > details[newId].stock ==>
                      r == Reply(500, "Failed to update CartItem", Some("Quantity exceeds available stock"), None))
                && (newId in details && quantity <= details[newId].stock ==>
                      && lines == RemoveLine(old(lines), lineId) + [CartLine(old(nextLineId), line.cartId, newId, quantity)]
                      && r == Reply(200, "CartItem updated successfully", None,
                                    Some(CartLine(old(nextLineId), line.cartId, newId, quantity))))
    {
      var line := LineById(lines, lineId);
      if line.None? {
        return Reply(500, "Failed to update CartItem", Some("CartItem not found"), None);
      }
      if newDetailId.None? || newDetailId.value == 0 {
        r := SetLineQuantity(line.value, quantity);
      } else {
        r := SwapLineVariant(line.value, newDetailId.value, quantity);
      }
    }

    /** `updateCartItem` without a new variant. */
    method SetLineQuantity(line: CartLine, quantity: int) returns (r: Reply)
      requires Valid() && line in lines
      modifies this
      ensures Valid()
      ensures carts == old(carts) && users == old(users) && details == old(details) && productNames == old(productNames)
      ensures quantity > details[line.detailId].stock ==>
                r == Reply(500, "Failed to update CartItem", Some("Quantity exceeds available stock"), None) && unchanged(this)
      ensures quantity <= details[line.detailId].stock ==>
                && lines == SetQuantity(old(lines), line.id, quantity)
                && nextLineId == old(nextLineId) && nextCartId == old(nextCartId)
                && r == Reply(200, "CartItem quantity updated successfully", None, Some(line.(quantity := quantity)))
    {
      if quantity > details[line.detailId].stock {
        return Reply(500, "Failed to update CartItem", Some("Quantity exceeds available stock"), None);
      }
      SetQuantityKeepsValid(lines, line.id, quantity, carts, details, nextLineId);
      lines := SetQuantity(lines, line.id, quantity);
      r := Reply(200, "CartItem quantity updated successfully", None, Some(line.(quantity := quantity)));
    }

    /** `updateCartItem` with a new variant: delete the line, then create one in the same cart. */
    method SwapLineVariant(line: CartLine, newId: int, quantity: int) returns (r: Reply)
      requires Valid() && line in lines
      modifies this
      ensures Valid()
      ensures carts == old(carts) && users == old(users) && details == old(details) && productNames == old(productNames)
      ensures newId !in details ==>
                r == Reply(500, "Failed to update CartItem", Some("New ProductDetail not found"), None) && unchanged(this)
      ensures newId in details && quantity > details[newId].stock ==>
                r == Reply(500, "Failed to update CartItem", Some("Quantity exceeds available stock"), None) && unchanged(this)
      ensures newId in details && quantity <= details[newId].stock ==>
                && lines == RemoveLine(old(lines), line.id) + [CartLine(old(nextLineId), line.cartId, newId, quantity)]
                && r == Reply(200, "CartItem updated successfully", None,
                              Some(CartLine(old(nextLineId), line.cartId, newId, quantity)))
    {
      if newId !in details {
        return Reply(500, "Failed to update CartItem", Some("New ProductDetail not found"), None);
      }
      if quantity > details[newId].stock {
        return Reply(500, "Failed to update CartItem", Some("Quantity exceeds available stock"), None);
      }
      var replacement := CartLine(nextLineId, line.cartId, newId, quantity);
      SwapKeepsValid(lines, line, replacement, carts, details, nextLineId);
      lines, nextLineId := RemoveLine(lines, line.id) + [replacement], nextLineId + 1;
      r := Reply(200, "CartItem updated successfully", None, Some(replacement));
    }

    /** The PATCH entry point: a quantity of 0 removes the line, anything else updates it. */
    method PatchCartItem(userId: int, lineId: int, newDetailId: Option<int>, quantity: int) returns (r: Reply)
      requires Valid()
      modifies this
      ensures Valid()
      ensures carts == old(carts) && users == old(users) && details == old(details) && productNames == old(productNames)
      ensures quantity == 0 && userId !in old(carts) ==>
                r == Reply(404, "Cart not found for this user", Some("Not Found"), None) && unchanged(this)
      ensures quantity == 0 && userId in old(carts) &&
              (LineById(old(lines), lineId).None? || LineById(old(lines), lineId).value.cartId != old(carts)[userId]) ==>
                r == Reply(404, "CartItem not found or does not belong to this user's cart", Some("Not Found"), None) &&
                unchanged(this)
      ensures quantity == 0 && userId in old(carts) && LineById(old(lines), lineId).Some? &&
              LineById(old(lines), lineId).value.cartId == old(carts)[userId] ==>
                r == Reply(200, "CartItem deleted successfully", None, None) && lines == RemoveLine(old(lines), lineId)
      ensures quantity != 0 ==> r.status == 200 || r.status == 500
      ensures quantity != 0 && r.status == 500 ==> r.message == "Failed to update CartItem" && unchanged(this)
      ensures quantity != 0 && LineById(old(lines), lineId).None? ==>
                r == Reply(500, "Failed to update CartItem", Some("CartItem not found"), None)
      ensures quantity != 0 && LineById(old(lines), lineId).Some? && (newDetailId.None? || newDetailId.value == 0) ==>
                var line := LineById(old(lines), lineId).value;
                && (quantity > details[line.detailId].stock ==>
                      r == Reply(500, "Failed to update CartItem", Some("Quantity exceeds available stock"), None))
                && (quantity <= details[line.detailId].stock ==>
                      && lines == SetQuantity(old(lines), lineId, quantity)
                      && r == Reply(200, "CartItem quantity updated successfully", None, Some(line.(quantity := quantity))))
      ensures quantity != 0 && LineById(old(lines), lineId).Some? && newDetailId.Some? && newDetailId.value != 0 ==>
                var line := LineById(old(lines), lineId).value;
                var newId := newDetailId.value;
                && (newId !in details ==>
                      r == Reply(500, "Failed to update CartItem", Some("New ProductDetail not found"), None))
                && (newId in details && quantity > details[newId].stock ==>
                      r == Reply(500, "Failed to update CartItem", Some("Quantity exceeds available stock"), None))
                && (newId in details && quantity <= details[newId].stock ==>
                      && lines == RemoveLine(old(lines), lineId) + [CartLine(old(nextLineId), line.cartId, newId, quantity)]
                      && r == Reply(200, "CartItem updated successfully", None,
                                    Some(CartLine(old(nextLineId), line.cartId, newId, quantity))))
    {
      if quantity == 0 {
        r := RemoveCartItem(userId, lineId);
      } else {
        r := UpdateCartItem(lineId, newDetailId, quantity);
      }
    }

    /** The lines of one cart, in table order. */
    function LinesOf(cartId: int): (r: seq<CartLine>)
      reads this
      ensures forall l :: l in r <==> l in lines && l.cartId == cartId
    {
      forall l ensures l in Seqs.Filter(lines, InCart(cartId)) <==> l in lines && l.cartId == cartId {
        Seqs.FilterMembers(lines, InCart(cartId), l);
      }
      Seqs.Filter(lines, InCart(cartId))
    }

    /**
     * `getCartByUserId`: a user without a cart is a NotFound; otherwise every line of the
     * cart, in order, with its total, and the cart total.
     */
    function GetCartByUserId(userId: int): (r: ViewResult)
      reads this
      requires Valid()
      ensures userId !in carts <==> r == NotFound("Cart not found for this user")
      ensures r.Found? ==>
                && r.cart.cartId == carts[userId] && r.cart.userId == userId
                && |r.cart.lines| == |LinesOf(carts[userId])|
                && (forall i :: 0 <= i < |r.cart.lines| ==> r.cart.lines[i].line == LinesOf(carts[userId])[i])
                && (forall v :: v in r.cart.lines ==> v.totalPrice == LineTotal(v.line.quantity, v.detail.price))
                && r.cart.totalPrice == Seqs.SumOf(r.cart.lines, ViewTotal)
      ensures r.Found? ==>
                && Resolvable(LinesOf(carts[userId]), details, productNames)
                && r.cart.lines == LineViews(LinesOf(carts[userId]), details, productNames)
                && r.cart.totalPrice == CartTotal(LinesOf(carts[userId]), details)
    {
      if userId !in carts then NotFound("Cart not found for this user")
      else
        var ls := LinesOf(carts[userId]);
        assert Resolvable(ls, details, productNames) by {
          forall l | l in ls ensures l.detailId in details && details[l.detailId].productId in productNames {
            assert details[l.detailId] in details.Values;
          }
        }
        CartTotalIsSumOfLines(ls, details, productNames);
        Found(CartView(carts[userId], userId, LineViews(ls, details, productNames), CartTotal(ls, details)))
    }
  }

  /** Every line has a unique id below the next one, a known variant and an existing cart. */
  ghost predicate LinesValid(lines: seq<CartLine>, carts: map<int, int>, details: map<int, Detail>, nextLineId: int) {
    && IdsUnique(lines)
    && (forall l :: l in lines ==> l.id < nextLineId && l.detailId in details)
    && (forall l :: l in lines ==> exists u :: u in carts && carts[u] == l.cartId)
  }

  lemma MoreCartsKeepValid(lines: seq<CartLine>, carts: map<int, int>, more: map<int, int>,
                           details: map<int, Detail>, nextLineId: int)
    requires LinesValid(lines, carts, details, nextLineId)
    requires forall u :: u in carts ==> u in more && more[u] == carts[u]
    ensures LinesValid(lines, more, details, nextLineId)
  {
    forall l | l in lines ensures exists u :: u in more && more[u] == l.cartId {
      var u :| u in carts && carts[u] == l.cartId;
      assert more[u] == l.cartId;
    }
  }

  lemma SetQuantityKeepsValid(lines: seq<CartLine>, id: int, quantity: int,
                              carts: map<int, int>, details: map<int, Detail>, nextLineId: int)
    requires LinesValid(lines, carts, details, nextLineId)
    ensures LinesValid(SetQuantity(lines, id, quantity), carts, details, nextLineId)
  {
    SetQuantityKeepsKeys(lines, id, quantity);
    var r := SetQuantity(lines, id, quantity);
    forall l | l in r
      ensures l.id < nextLineId && l.detailId in details && exists u :: u in carts && carts[u] == l.cartId
    {
      var i :| 0 <= i < |r| && r[i] == l;
      assert lines[i] in lines;
    }
  }

  lemma AppendKeepsValid(lines: seq<CartLine>, line: CartLine,
                         carts: map<int, int>, details: map<int, Detail>, nextLineId: int, owner: int)
    requires LinesValid(lines, carts, details, nextLineId)
    requires line.id == nextLineId && line.detailId in details && owner in carts && carts[owner] == line.cartId
    ensures LinesValid(lines + [line], carts, details, nextLineId + 1)
  {
    var r := lines + [line];
    forall i, j | 0 <= i < j < |r| ensures r[i].id != r[j].id {
      assert r[i] in lines;
    }
    assert forall l :: l in r ==> l in lines || l == line;
  }

  lemma RemoveKeepsValid(lines: seq<CartLine>, id: int,
                         carts: map<int, int>, details: map<int, Detail>, nextLineId: int)
    requires LinesValid(lines, carts, details, nextLineId)
    ensures LinesValid(RemoveLine(lines, id), carts, details, nextLineId)
  {
    Seqs.FilterUniqueBy(lines, LineIsNot(id), LineId);
  }

  lemma SwapKeepsValid(lines: seq<CartLine>, line: CartLine, replacement: CartLine,
                       carts: map<int, int>, details: map<int, Detail>, nextLineId: int)
    requires LinesValid(lines, carts, details, nextLineId) && line in lines
    requires replacement.id == nextLineId && replacement.cartId == line.cartId && replacement.detailId in details
    ensures LinesValid(RemoveLine(lines, line.id) + [replacement], carts, details, nextLineId + 1)
  {
    var owner :| owner in carts && carts[owner] == line.cartId;
    RemoveKeepsValid(lines, line.id, carts, details, nextLineId);
    AppendKeepsValid(RemoveLine(lines, line.id), replacement, carts, details, nextLineId, owner);
  }

  lemma AddKeepsValid(lines: seq<CartLine>, cartId: int, detailId: int, quantity: int, stock: int,
                      carts: map<int, int>, details: map<int, Detail>, nextLineId: int, owner: int)
    requires LinesValid(lines, carts, details, nextLineId) && detailId in details
    requires owner in carts && carts[owner] == cartId
    ensures var r := AddReply(lines, cartId, detailId, quantity, stock, nextLineId);
            LinesValid(AddedLines(lines, cartId, detailId, quantity, stock, nextLineId), carts, details,
                       if r.status == 201 then nextLineId + 1 else nextLineId)
  {
    var existing := FindLine(lines, cartId, detailId);
    var newQuantity := if existing.Some? then existing.value.quantity + quantity else quantity;
    var r := AddReply(lines, cartId, detailId, quantity, stock, nextLineId);
    var after := AddedLines(lines, cartId, detailId, quantity, stock, nextLineId);
    if newQuantity > stock {
      assert r.status == 400 && after == lines;
    } else if existing.Some? {
      assert r.status == 200 && after == SetQuantity(lines, existing.value.id, newQuantity);
      SetQuantityKeepsValid(lines, existing.value.id, newQuantity, carts, details, nextLineId);
    } else {
      var line := CartLine(nextLineId, cartId, detailId, quantity);
      assert r.status == 201 && after == lines + [line];
      AppendKeepsValid(lines, line, carts, details, nextLineId, owner);
    }
  }

  function LineId(l: CartLine): int {
    l.id
  }
}

/**
 * The older cart-item service over the same tables. Adding never merges: every accepted
 * request appends a new line, and only the requested quantity is compared with the stock.
 * Updating always swaps the variant. Removal is the same code as the newer service
 * (`CartStore.Carts.RemoveCartItem`).
 */
module LegacyCart {
  import opened Wrappers
  import opened CartItems
  import opened CartStore

  /**
   * The older `addCartItem`: the cart is created first when missing (which fails for an
   * unknown user, whose cart row cannot reference it); then an unknown variant is a 500, a
   * quantity above the stock a 400, and otherwise a new line is appended (201).
   */
  method AddCartItem(store: Carts, userId: int, detailId: int, quantity: int) returns (r: Reply)
    requires store.Valid()
    modifies store
    ensures store.Valid()
    ensures store.users == old(store.users) && store.details == old(store.details)
    ensures userId !in old(store.carts) && userId !in store.users ==>
              r == Reply(500, "Failed to create CartItem", None, None) && unchanged(store)
    ensures userId in old(store.carts) || userId in store.users ==>
              && store.carts == WithCart(old(store.carts), userId, old(store.nextCartId))
              && (detailId !in store.details ==>
                    r == Reply(500, "Failed to create CartItem", Some("ProductDetail not found"), None) &&
                    store.lines == old(store.lines))
              && (detailId in store.details && quantity > store.details[detailId].stock ==>
                    r == Reply(400, "Quantity exceeds available stock", Some("Invalid quantity"), None) &&
                    store.lines == old(store.lines))
              && (detailId in store.details && quantity <= store.details[detailId].stock ==>
                    var line := CartLine(old(store.nextLineId), store.carts[userId], detailId, quantity);
                    store.lines == old(store.lines) + [line] &&
                    r == Reply(201, "CartItem created successfully", None, Some(line)))
  {
    if userId !in store.carts && userId !in store.users {
      return Reply(500, "Failed to create CartItem", None, None);
    }
    var cartId := store.EnsureCart(userId);
    if detailId !in store.details {
      return Reply(500, "Failed to create CartItem", Some("ProductDetail not found"), None);
    }
    if quantity > store.details[detailId].stock {
      return Reply(400, "Quantity exceeds available stock", Some("Invalid quantity"), None);
    }
    var line := CartLine(store.nextLineId, cartId, detailId, quantity);
    AppendKeepsValid(store.lines, line, store.carts, store.details, store.nextLineId, userId);
    store.lines := store.lines + [line];
    store.nextLineId := store.nextLineId + 1;
    r := Reply(201, "CartItem created successfully", None, Some(line));
  }

  /** The older `updateCartItem`: always a swap to the requested variant; every failure is a 500. */
  method UpdateCartItem(store: Carts, lineId: int, newDetailId: int, quantity: int) returns (r: Reply)
    requires store.Valid()
    modifies store
    ensures store.Valid()
    ensures store.carts == old(store.carts) && store.details == old(store.details)
    ensures r.status == 200 || r.status == 500
    ensures r.status == 500 ==> r.message == "Failed to update CartItem" && unchanged(store)
    ensures LineById(old(store.lines), lineId).None? ==>
              r == Reply(500, "Failed to update CartItem", Some("CartItem not found"), None)
    ensures LineById(old(store.lines), lineId).Some? && newDetailId !in store.details ==>
              r == Reply(500, "Failed to update CartItem", Some("New ProductDetail not found"), None)
    ensures LineById(old(store.lines), lineId).Some? && newDetailId in store.details &&
            quantity > store.details[newDetailId].stock ==>
              r == Reply(500, "Failed to update CartItem", Some("Quantity exceeds available stock"), None)
    ensures LineById(old(store.lines), lineId).Some? && newDetailId in store.details &&
            quantity <= store.details[newDetailId].stock ==>
              var line := LineById(old(store.lines), lineId).value;
              var replacement := CartLine(old(store.nextLineId), line.cartId, newDetailId, quantity);
              store.lines == RemoveLine(old(store.lines), lineId) + [replacement] &&
              r == Reply(200, "CartItem updated successfully", None, Some(replacement))
  {
    var line := LineById(store.lines, lineId);
    if line.None? {
      return Reply(500, "Failed to update CartItem", Some("CartItem not found"), None);
    }
    r := store.SwapLineVariant(line.value, newDetailId, quantity);
  }

  /** Unlike the newer service, the older add can leave two lines of one cart for one variant. */
  lemma AppendCanDuplicate(lines: seq<CartLine>, cartId: int, detailId: int, quantity: int, nextId: int)
    requires FindLine(lines, cartId, detailId).Some?
    ensures !PairsUnique(lines + [CartLine(nextId, cartId, detailId, quantity)])
  {
    var e := FindLine(lines, cartId, detailId).value;
    var r := lines + [CartLine(nextId, cartId, detailId, quantity)];
    var i :| 0 <= i < |lines| && lines[i] == e;
    assert r[i] == e && r[|lines|].cartId == cartId && r[|lines|].detailId == detailId;
  }
}

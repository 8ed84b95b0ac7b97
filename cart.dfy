/**
 * Cart lines and the transitions the cart-item services make on them. A line belongs to
 * one cart and names one product variant (a product detail) with a quantity.
 */
module CartItems {
  import opened Wrappers
  import Seqs

  datatype CartLine = CartLine(id: int, cartId: int, detailId: int, quantity: int)

  /** The columns of a product variant the cart reads. */
  datatype Detail = Detail(productId: int, price: int, stock: int)

  predicate IdsUnique(lines: seq<CartLine>) {
    forall i, j :: 0 <= i < j < |lines| ==> lines[i].id != lines[j].id
  }

  predicate IsLineFor(l: CartLine, cartId: int, detailId: int) {
    l.cartId == cartId && l.detailId == detailId
  }

  /** No two lines of one cart name the same variant. */
  predicate PairsUnique(lines: seq<CartLine>) {
    forall i, j :: 0 <= i < j < |lines| ==> !(lines[i].cartId == lines[j].cartId && lines[i].detailId == lines[j].detailId)
  }

  /** `cartItem.findFirst({ where: { cartId, productDetailId } })`, taking the first in table order. */
  function FindLine(lines: seq<CartLine>, cartId: int, detailId: int): (r: Option<CartLine>)
    ensures r.Some? ==> r.value in lines && IsLineFor(r.value, cartId, detailId)
  {
    if lines == [] then None
    else if IsLineFor(lines[0], cartId, detailId) then Some(lines[0])
    else FindLine(lines[1..], cartId, detailId)
  }

  /** No line is found exactly when the cart holds no line for the variant. */
  lemma {:induction false} FindLineNone(lines: seq<CartLine>, cartId: int, detailId: int)
    ensures FindLine(lines, cartId, detailId).None? <==> forall l :: l in lines ==> !IsLineFor(l, cartId, detailId)
  {
    if lines != [] {
      assert forall l :: l in lines <==> l == lines[0] || l in lines[1..];
      FindLineNone(lines[1..], cartId, detailId);
    }
  }

  /** `cartItem.findUnique({ where: { id } })`. */
  function LineById(lines: seq<CartLine>, id: int): (r: Option<CartLine>)
    ensures r.Some? ==> r.value in lines && r.value.id == id
    ensures r.None? <==> forall l :: l in lines ==> l.id != id
  {
    if lines == [] then None
    else if lines[0].id == id then Some(lines[0])
    else
      assert forall l :: l in lines <==> l == lines[0] || l in lines[1..];
      LineById(lines[1..], id)
  }

  /** `cartItem.update({ where: { id }, data: { quantity } })`. */
  function SetQuantity(lines: seq<CartLine>, id: int, quantity: int): (r: seq<CartLine>)
    ensures |r| == |lines|
    ensures forall i :: 0 <= i < |lines| ==> r[i] == if lines[i].id == id then lines[i].(quantity := quantity) else lines[i]
  {
    seq(|lines|, i requires 0 <= i < |lines| => if lines[i].id == id then lines[i].(quantity := quantity) else lines[i])
  }

  function LineIsNot(id: int): CartLine -> bool {
    (l: CartLine) => l.id != id
  }

  /** `cartItem.delete({ where: { id } })`. */
  function RemoveLine(lines: seq<CartLine>, id: int): (r: seq<CartLine>)
    ensures forall l :: l in r <==> l in lines && l.id != id
  {
    forall l ensures l in Seqs.Filter(lines, LineIsNot(id)) <==> l in lines && l.id != id {
      Seqs.FilterMembers(lines, LineIsNot(id), l);
    }
    Seqs.Filter(lines, LineIsNot(id))
  }

  /** The quantity a cart already holds of a variant: the first matching line's, or none. */
  function HeldQuantity(lines: seq<CartLine>, cartId: int, detailId: int): int {
    match FindLine(lines, cartId, detailId)
    case None => 0
    case Some(l) => l.quantity
  }

  /**
   * The lines after `addCartItem` has found the user's cart and the variant: the existing
   * line's quantity grows, or a new line is appended, unless the total exceeds the stock.
   */
  function AddedLines(lines: seq<CartLine>, cartId: int, detailId: int, quantity: int, stock: int, nextId: int)
    : seq<CartLine>
  {
    var existing := FindLine(lines, cartId, detailId);
    var newQuantity := if existing.Some? then existing.value.quantity + quantity else quantity;
    if newQuantity > stock then lines
    else if existing.Some? then SetQuantity(lines, existing.value.id, newQuantity)
    else lines + [CartLine(nextId, cartId, detailId, quantity)]
  }

  /** Replacing a quantity keeps every line's id, cart and variant. */
  lemma SetQuantityKeepsKeys(lines: seq<CartLine>, id: int, quantity: int)
    ensures IdsUnique(lines) ==> IdsUnique(SetQuantity(lines, id, quantity))
    ensures PairsUnique(lines) ==> PairsUnique(SetQuantity(lines, id, quantity))
  {
    var r := SetQuantity(lines, id, quantity);
    assert forall i :: 0 <= i < |r| ==>
      r[i].id == lines[i].id && r[i].cartId == lines[i].cartId && r[i].detailId == lines[i].detailId;
  }

  /** With unique ids, updating the first matching line makes the updated line the first match. */
  lemma {:induction false} SetQuantityFinds(lines: seq<CartLine>, cartId: int, detailId: int, quantity: int)
    requires IdsUnique(lines) && FindLine(lines, cartId, detailId).Some?
    ensures var e := FindLine(lines, cartId, detailId).value;
            FindLine(SetQuantity(lines, e.id, quantity), cartId, detailId) == Some(e.(quantity := quantity))
  {
    var e := FindLine(lines, cartId, detailId).value;
    var r := SetQuantity(lines, e.id, quantity);
    if !IsLineFor(lines[0], cartId, detailId) {
      var tail := lines[1..];
      assert IdsUnique(tail) by {
        forall i, j | 0 <= i < j < |tail| ensures tail[i].id != tail[j].id {
          assert tail[i] == lines[i + 1] && tail[j] == lines[j + 1];
        }
      }
      assert FindLine(tail, cartId, detailId) == Some(e);
      var k :| 0 <= k < |tail| && tail[k] == e;
      assert lines[0].id != e.id by {
        assert lines[k + 1] == e;
      }
      assert r[1..] == SetQuantity(tail, e.id, quantity);
      SetQuantityFinds(tail, cartId, detailId, quantity);
    }
  }

  /** `addCartItem` never creates a second line for a variant already in the cart. */
  lemma AddKeepsPairsUnique(lines: seq<CartLine>, cartId: int, detailId: int, quantity: int, stock: int, nextId: int)
    requires PairsUnique(lines) && IdsUnique(lines)
    requires forall l :: l in lines ==> l.id < nextId
    ensures PairsUnique(AddedLines(lines, cartId, detailId, quantity, stock, nextId))
    ensures IdsUnique(AddedLines(lines, cartId, detailId, quantity, stock, nextId))
  {
    var existing := FindLine(lines, cartId, detailId);
    if existing.Some? {
      SetQuantityKeepsKeys(lines, existing.value.id, existing.value.quantity + quantity);
    } else if quantity <= stock {
      FindLineNone(lines, cartId, detailId);
      AppendFresh(lines, CartLine(nextId, cartId, detailId, quantity));
    }
  }

  lemma AppendFresh(lines: seq<CartLine>, line: CartLine)
    requires PairsUnique(lines) && IdsUnique(lines)
    requires forall l :: l in lines ==> l.id < line.id && !IsLineFor(l, line.cartId, line.detailId)
    ensures PairsUnique(lines + [line]) && IdsUnique(lines + [line])
  {
    var r := lines + [line];
    forall i, j | 0 <= i < j < |r|
      ensures r[i].id != r[j].id && !(r[i].cartId == r[j].cartId && r[i].detailId == r[j].detailId)
    {
      assert r[i] == lines[i];
      if j < |lines| {
        assert r[j] == lines[j];
      } else {
        assert r[j] == line && lines[i] in lines;
      }
    }
  }

  /**
   * The request is accepted exactly when the held quantity plus the requested one fits the
   * stock; then the cart holds that sum, and otherwise the lines are as they were.
   */
  lemma AddMergesQuantity(lines: seq<CartLine>, cartId: int, detailId: int, quantity: int, stock: int, nextId: int)
    requires IdsUnique(lines)
    ensures var after := AddedLines(lines, cartId, detailId, quantity, stock, nextId);
            && (HeldQuantity(lines, cartId, detailId) + quantity > stock ==> after == lines)
            && (HeldQuantity(lines, cartId, detailId) + quantity <= stock ==>
                  && FindLine(after, cartId, detailId).Some?
                  && HeldQuantity(after, cartId, detailId) == HeldQuantity(lines, cartId, detailId) + quantity)
  {
    var existing := FindLine(lines, cartId, detailId);
    var after := AddedLines(lines, cartId, detailId, quantity, stock, nextId);
    if existing.Some? {
      var e := existing.value;
      assert HeldQuantity(lines, cartId, detailId) == e.quantity;
      if e.quantity + quantity <= stock {
        assert after == SetQuantity(lines, e.id, e.quantity + quantity);
        SetQuantityFinds(lines, cartId, detailId, e.quantity + quantity);
      }
    } else {
      assert HeldQuantity(lines, cartId, detailId) == 0;
      if quantity <= stock {
        var line := CartLine(nextId, cartId, detailId, quantity);
        assert after == lines + [line];
        FindAppended(lines, line);
      }
    }
  }

  lemma {:induction false} FindAppended(lines: seq<CartLine>, line: CartLine)
    requires FindLine(lines, line.cartId, line.detailId).None?
    ensures FindLine(lines + [line], line.cartId, line.detailId) == Some(line)
  {
    if lines != [] {
      assert (lines + [line])[1..] == lines[1..] + [line];
      FindAppended(lines[1..], line);
    }
  }

  /** Lines for other variants or other carts are untouched by an add. */
  lemma AddLeavesOthers(lines: seq<CartLine>, cartId: int, detailId: int, quantity: int, stock: int, nextId: int,
                        l: CartLine)
    requires IdsUnique(lines)
    requires !IsLineFor(l, cartId, detailId)
    ensures l in AddedLines(lines, cartId, detailId, quantity, stock, nextId) <==> l in lines
  {
    var existing := FindLine(lines, cartId, detailId);
    if existing.Some? {
      var e := existing.value;
      var r := SetQuantity(lines, e.id, e.quantity + quantity);
      if l in lines {
        var i :| 0 <= i < |lines| && lines[i] == l;
        assert r[i] == l;
      }
      if l in r {
        var i :| 0 <= i < |r| && r[i] == l;
        assert lines[i].id != e.id;
      }
    }
  }

  /** `removeCartItem` deletes exactly the one line and keeps the others in order. */
  lemma RemoveExactlyOne(lines: seq<CartLine>, id: int)
    requires IdsUnique(lines) && LineById(lines, id).Some?
    ensures |RemoveLine(lines, id)| == |lines| - 1
    ensures forall l :: l in RemoveLine(lines, id) <==> l in lines && l != LineById(lines, id).value
  {
    var e := LineById(lines, id).value;
    RemoveCount(lines, id);
    forall l | l in lines && l.id == id ensures l == e {
      var i :| 0 <= i < |lines| && lines[i] == l;
      var k :| 0 <= k < |lines| && lines[k] == e;
      assert i == k;
    }
  }

  lemma {:induction false} RemoveCount(lines: seq<CartLine>, id: int)
    requires IdsUnique(lines) && LineById(lines, id).Some?
    ensures |RemoveLine(lines, id)| == |lines| - 1
  {
    var tail := lines[1..];
    assert IdsUnique(tail) by {
      forall i, j | 0 <= i < j < |tail| ensures tail[i].id != tail[j].id {
        assert tail[i] == lines[i + 1] && tail[j] == lines[j + 1];
      }
    }
    assert RemoveLine(lines, id) == (if lines[0].id != id then [lines[0]] else []) + RemoveLine(tail, id);
    if lines[0].id == id {
      assert forall l :: l in tail ==> l.id != id by {
        forall l | l in tail ensures l.id != id {
          var j :| 0 <= j < |tail| && tail[j] == l;
          assert lines[j + 1] == l;
        }
      }
      assert |RemoveLine(tail, id)| == |tail| by {
        Seqs.FilterAll(tail, LineIsNot(id));
      }
    } else {
      RemoveCount(tail, id);
    }
  }

  // ---------------------------------------------------------------------------
  // The cart view: line totals and the cart total
  // ---------------------------------------------------------------------------

  /** A returned cart line: the line, its variant, the product name and `quantity * price`. */
  datatype LineView = LineView(line: CartLine, detail: Detail, name: string, totalPrice: int)

  function LineTotal(quantity: int, price: int): int {
    quantity * price
  }

  function InCart(cartId: int): CartLine -> bool {
    (l: CartLine) => l.cartId == cartId
  }

  /** Every line's variant is known, and so is that variant's product. */
  predicate Resolvable(ls: seq<CartLine>, details: map<int, Detail>, names: map<int, string>) {
    forall l :: l in ls ==> l.detailId in details && details[l.detailId].productId in names
  }

  /** The cart total as the service reduces it, straight from the lines and their prices. */
  function CartTotal(ls: seq<CartLine>, details: map<int, Detail>): int
    requires forall l :: l in ls ==> l.detailId in details
  {
    if ls == [] then 0
    else
      var last := ls[|ls| - 1];
      assert last in ls;
      assert forall l :: l in ls[..|ls| - 1] ==> l in ls;
      CartTotal(ls[..|ls| - 1], details) + LineTotal(last.quantity, details[last.detailId].price)
  }

  /** The returned lines: one per cart line, in the same order, each priced and named. */
  function LineViews(ls: seq<CartLine>, details: map<int, Detail>, names: map<int, string>): (r: seq<LineView>)
    requires Resolvable(ls, details, names)
    ensures |r| == |ls|
    ensures forall i :: 0 <= i < |ls| ==>
              && r[i].line == ls[i]
              && r[i].detail == details[ls[i].detailId]
              && r[i].name == names[details[ls[i].detailId].productId]
              && r[i].totalPrice == LineTotal(ls[i].quantity, details[ls[i].detailId].price)
  {
    seq(|ls|, i requires 0 <= i < |ls| =>
      assert ls[i] in ls;
      var d := details[ls[i].detailId];
      LineView(ls[i], d, names[d.productId], LineTotal(ls[i].quantity, d.price)))
  }

  function ViewTotal(v: LineView): int {
    v.totalPrice
  }

  /** The cart total equals the sum of the returned line totals. */
  lemma {:induction false} CartTotalIsSumOfLines(ls: seq<CartLine>, details: map<int, Detail>, names: map<int, string>)
    requires Resolvable(ls, details, names)
    ensures CartTotal(ls, details) == Seqs.SumOf(LineViews(ls, details, names), ViewTotal)
  {
    if ls != [] {
      var init := ls[..|ls| - 1];
      var v := LineViews(ls, details, names);
      assert Resolvable(init, details, names) by {
        assert forall l :: l in init ==> l in ls;
      }
      assert v[..|v| - 1] == LineViews(init, details, names);
      CartTotalIsSumOfLines(init, details, names);
    }
  }
}

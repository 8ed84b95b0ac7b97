/**
 * The shipping-address book: every user keeps a list of addresses, at most one of which is
 * the default. Creating the first address makes it the default, asking for a default clears
 * the user's other defaults, and deleting the default promotes another of the user's
 * addresses. The ownership checks of the HTTP layer are folded in as the entry points.
 */
module ShippingAddresses {
  import opened Wrappers
  import Seqs

  datatype Address = Address(
    id: int,
    userId: int,
    fullName: string,
    phoneNumber: string,
    homeNumber: string,
    wardCode: int,
    moreDetail: string,
    isDefault: bool)

  /** The body of a create request; an absent `isDefault` is `false`. */
  datatype NewAddress = NewAddress(
    fullName: string,
    phoneNumber: string,
    homeNumber: string,
    wardCode: int,
    moreDetail: Option<string>,
    isDefault: bool)

  /** The body of an update request: `None` is a field that was not supplied. */
  datatype AddressPatch = AddressPatch(
    fullName: Option<string>,
    phoneNumber: Option<string>,
    homeNumber: Option<string>,
    wardCode: Option<int>,
    moreDetail: Option<string>,
    isDefault: Option<bool>)

  datatype Reply = Reply(status: int, message: string, error: Option<string>, data: Option<Address>)

  datatype ListReply = ListReply(status: int, message: string, data: seq<Address>)

  function AddressId(a: Address): int { a.id }

  predicate IdsUnique(rows: seq<Address>) {
    Seqs.UniqueBy(rows, AddressId)
  }

  /** Each user has at most one default address. */
  predicate AtMostOneDefault(rows: seq<Address>) {
    forall x, y :: x in rows && y in rows && x.isDefault && y.isDefault && x.userId == y.userId ==> x.id == y.id
  }

  function OwnedBy(userId: int): Address -> bool {
    (a: Address) => a.userId == userId
  }

  function HasId(id: int): Address -> bool {
    (a: Address) => a.id == id
  }

  function IdIsNot(id: int): Address -> bool {
    (a: Address) => a.id != id
  }

  function OwnedWithId(userId: int, id: int): Address -> bool {
    (a: Address) => a.userId == userId && a.id == id
  }

  /** Another address of the same user. */
  function OtherOf(userId: int, id: int): Address -> bool {
    (a: Address) => a.userId == userId && a.id != id
  }

  /** The user's addresses in table order. */
  function UserRows(rows: seq<Address>, userId: int): seq<Address> {
    Seqs.Filter(rows, OwnedBy(userId))
  }

  /**
   * `updateMany({ where: { userId, isDefault: true, id: { not: except } }, data: { isDefault: false } })`:
   * only the default flag changes, and it is cleared exactly on that user's rows other than `except`.
   */
  function ClearDefaults(rows: seq<Address>, userId: int, except: Option<int>): (r: seq<Address>)
    ensures |r| == |rows|
    ensures forall i :: 0 <= i < |rows| ==> r[i] == rows[i].(isDefault := r[i].isDefault)
    ensures forall i :: 0 <= i < |rows| ==>
              (r[i].isDefault <==> rows[i].isDefault && (rows[i].userId != userId || except == Some(rows[i].id)))
  {
    seq(|rows|, i requires 0 <= i < |rows| =>
      if rows[i].userId == userId && rows[i].isDefault && except != Some(rows[i].id) then rows[i].(isDefault := false)
      else rows[i])
  }

  /** Clearing twice is clearing once: the second `updateMany` of an update finds nothing to clear. */
  lemma ClearDefaultsIdempotent(rows: seq<Address>, userId: int, except: Option<int>)
    ensures ClearDefaults(ClearDefaults(rows, userId, except), userId, except) == ClearDefaults(rows, userId, except)
  {
    var once := ClearDefaults(rows, userId, except);
    var twice := ClearDefaults(once, userId, except);
    forall i | 0 <= i < |rows| ensures twice[i] == once[i] {
      assert twice[i] == once[i].(isDefault := twice[i].isDefault);
    }
  }

  /** The row `create` stores. */
  function NewRow(id: int, userId: int, d: NewAddress, isDefault: bool): Address {
    Address(id, userId, d.fullName, d.phoneNumber, d.homeNumber, d.wardCode, d.moreDetail.GetOr(""), isDefault)
  }

  /**
   * The table after `create`: when the new address is the default the user's other defaults
   * are cleared first; the new row is the default when asked for or when it is the user's first.
   */
  function Created(rows: seq<Address>, userId: int, d: NewAddress, nextId: int): (r: seq<Address>)
    ensures |r| == |rows| + 1
    ensures r[|rows|] == NewRow(nextId, userId, d, d.isDefault || UserRows(rows, userId) == [])
    ensures forall i :: 0 <= i < |rows| && rows[i].userId != userId ==> r[i] == rows[i]
    ensures !d.isDefault ==> r[..|rows|] == rows
    ensures d.isDefault ==> forall i :: 0 <= i < |rows| ==> r[i] == rows[i].(isDefault := rows[i].isDefault && rows[i].userId != userId)
  {
    var cleared := if d.isDefault then ClearDefaults(rows, userId, None) else rows;
    OwnedRowsAgree(rows, cleared, userId);
    cleared + [NewRow(nextId, userId, d, d.isDefault || UserRows(cleared, userId) == [])]
  }

  /** Clearing flags changes which rows belong to a user in no way. */
  lemma OwnedRowsAgree(rows: seq<Address>, cleared: seq<Address>, userId: int)
    requires |cleared| == |rows|
    requires forall i :: 0 <= i < |rows| ==> cleared[i].userId == rows[i].userId
    ensures (UserRows(cleared, userId) == []) == (UserRows(rows, userId) == [])
  {
    if UserRows(rows, userId) != [] {
      var x := UserRows(rows, userId)[0];
      Seqs.FilterMembers(rows, OwnedBy(userId), x);
      var i :| 0 <= i < |rows| && rows[i] == x;
      Seqs.FilterMembers(cleared, OwnedBy(userId), cleared[i]);
    }
    if UserRows(cleared, userId) != [] {
      var x := UserRows(cleared, userId)[0];
      Seqs.FilterMembers(cleared, OwnedBy(userId), x);
      var i :| 0 <= i < |cleared| && cleared[i] == x;
      Seqs.FilterMembers(rows, OwnedBy(userId), rows[i]);
    }
  }

  /** With unique ids, a row is determined by its id. */
  lemma SameIdSameRow(rows: seq<Address>, x: Address, y: Address)
    requires IdsUnique(rows) && x in rows && y in rows && x.id == y.id
    ensures x == y
  {
    var i :| 0 <= i < |rows| && rows[i] == x;
    var j :| 0 <= j < |rows| && rows[j] == y;
    assert AddressId(rows[i]) == AddressId(rows[j]);
  }

  /** A user's first address is stored as the default whatever flag was sent. */
  lemma FirstAddressIsDefault(rows: seq<Address>, userId: int, d: NewAddress, nextId: int)
    requires forall a :: a in rows ==> a.userId != userId
    ensures Created(rows, userId, d, nextId)[|rows|].isDefault
  {
    if UserRows(rows, userId) != [] {
      Seqs.FilterMembers(rows, OwnedBy(userId), UserRows(rows, userId)[0]);
    }
  }

  /** The table invariant: unique ids below the next one, and at most one default per user. */
  predicate Invariant(rows: seq<Address>, nextId: int) {
    IdsUnique(rows) && AtMostOneDefault(rows) && forall a :: a in rows ==> a.id < nextId
  }

  /** Lowering default flags, and nothing else, keeps the invariant. */
  lemma LoweredKeepsInvariant(rows: seq<Address>, r: seq<Address>, nextId: int)
    requires Invariant(rows, nextId) && |r| == |rows|
    requires forall i :: 0 <= i < |rows| ==>
               r[i].id == rows[i].id && r[i].userId == rows[i].userId && (r[i].isDefault ==> rows[i].isDefault)
    ensures Invariant(r, nextId)
  {
    forall i, j | 0 <= i < j < |r| ensures AddressId(r[i]) != AddressId(r[j]) {
      assert AddressId(rows[i]) != AddressId(rows[j]);
    }
    forall x, y | x in r && y in r && x.isDefault && y.isDefault && x.userId == y.userId ensures x.id == y.id {
      var i :| 0 <= i < |r| && r[i] == x;
      var j :| 0 <= j < |r| && r[j] == y;
      assert rows[i] in rows && rows[j] in rows;
    }
    forall x | x in r ensures x.id < nextId {
      var i :| 0 <= i < |r| && r[i] == x;
      assert rows[i] in rows;
    }
  }

  /** Appending a row with the next id keeps the invariant when no other default of its user remains. */
  lemma AppendKeepsInvariant(rows: seq<Address>, n: Address, nextId: int)
    requires Invariant(rows, nextId) && n.id == nextId
    requires n.isDefault ==> forall a :: a in rows && a.userId == n.userId ==> !a.isDefault
    ensures Invariant(rows + [n], nextId + 1)
  {
    var r := rows + [n];
    forall i, j | 0 <= i < j < |r| ensures AddressId(r[i]) != AddressId(r[j]) {
      assert r[i] in rows;
      if j < |rows| {
        assert AddressId(rows[i]) != AddressId(rows[j]);
      }
    }
    assert forall x :: x in r <==> x in rows || x == n;
  }

  /** `create` keeps the invariant. */
  lemma CreateKeepsInvariant(rows: seq<Address>, userId: int, d: NewAddress, nextId: int)
    requires Invariant(rows, nextId)
    ensures Invariant(Created(rows, userId, d, nextId), nextId + 1)
  {
    var cleared := if d.isDefault then ClearDefaults(rows, userId, None) else rows;
    LoweredKeepsInvariant(rows, cleared, nextId);
    OwnedRowsAgree(rows, cleared, userId);
    var n := NewRow(nextId, userId, d, d.isDefault || UserRows(cleared, userId) == []);
    forall a | a in cleared && a.userId == userId && n.isDefault ensures !a.isDefault {
      var i :| 0 <= i < |cleared| && cleared[i] == a;
      if !d.isDefault {
        Seqs.FilterMembers(cleared, OwnedBy(userId), a);
      }
    }
    AppendKeepsInvariant(cleared, n, nextId);
  }

  /** `updateData` applied to one row: a supplied field takes the new value, the rest keep theirs. */
  function Patch(a: Address, p: AddressPatch): (r: Address)
    ensures r.id == a.id && r.userId == a.userId
    ensures r.fullName == (if p.fullName.Some? then p.fullName.value else a.fullName)
    ensures r.phoneNumber == (if p.phoneNumber.Some? then p.phoneNumber.value else a.phoneNumber)
    ensures r.homeNumber == (if p.homeNumber.Some? then p.homeNumber.value else a.homeNumber)
    ensures r.wardCode == (if p.wardCode.Some? then p.wardCode.value else a.wardCode)
    ensures r.moreDetail == (if p.moreDetail.Some? then p.moreDetail.value else a.moreDetail)
    ensures r.isDefault == (if p.isDefault.Some? then p.isDefault.value else a.isDefault)
    ensures p == AddressPatch(None, None, None, None, None, None) ==> r == a
  {
    Address(a.id, a.userId, p.fullName.GetOr(a.fullName), p.phoneNumber.GetOr(a.phoneNumber),
            p.homeNumber.GetOr(a.homeNumber), p.wardCode.GetOr(a.wardCode), p.moreDetail.GetOr(a.moreDetail),
            p.isDefault.GetOr(a.isDefault))
  }

  /** `shippingAddress.update({ where: { id }, data })`: the row with that id is patched, no other. */
  function PatchRow(rows: seq<Address>, id: int, p: AddressPatch): (r: seq<Address>)
    ensures |r| == |rows|
    ensures forall i :: 0 <= i < |rows| ==> r[i] == (if rows[i].id == id then Patch(rows[i], p) else rows[i])
  {
    seq(|rows|, i requires 0 <= i < |rows| => if rows[i].id == id then Patch(rows[i], p) else rows[i])
  }

  /** The table after an update by the owner: defaults cleared when asked for, then the row patched. */
  function Updated(rows: seq<Address>, id: int, userId: int, p: AddressPatch): seq<Address> {
    var cleared := if p.isDefault == Some(true) then ClearDefaults(rows, userId, Some(id)) else rows;
    PatchRow(cleared, id, p)
  }

  /** Two defaults of one user after patching the user's own row are one row. */
  lemma PatchedDefaults(rows: seq<Address>, id: int, userId: int, p: AddressPatch, x: Address, y: Address)
    requires AtMostOneDefault(rows)
    requires forall a :: a in rows && a.id == id ==> a.userId == userId
    requires p.isDefault == Some(true) ==> forall a :: a in rows && a.userId == userId && a.id != id ==> !a.isDefault
    requires x in PatchRow(rows, id, p) && y in PatchRow(rows, id, p)
    requires x.isDefault && y.isDefault && x.userId == y.userId
    ensures x.id == y.id
  {
    var r := PatchRow(rows, id, p);
    var i :| 0 <= i < |r| && r[i] == x;
    var j :| 0 <= j < |r| && r[j] == y;
    var ri, rj := rows[i], rows[j];
    assert ri in rows && rj in rows;
    assert x.id == ri.id && x.userId == ri.userId && y.id == rj.id && y.userId == rj.userId;
    assert ri.id != id ==> x == ri;
    assert rj.id != id ==> y == rj;
  }

  /** Patching the user's own row keeps the invariant when, if it becomes the default, no other default remains. */
  lemma PatchKeepsInvariant(rows: seq<Address>, id: int, userId: int, p: AddressPatch, nextId: int)
    requires Invariant(rows, nextId)
    requires forall a :: a in rows && a.id == id ==> a.userId == userId
    requires p.isDefault == Some(true) ==> forall a :: a in rows && a.userId == userId && a.id != id ==> !a.isDefault
    ensures Invariant(PatchRow(rows, id, p), nextId)
    ensures forall i :: 0 <= i < |rows| ==> PatchRow(rows, id, p)[i].id == rows[i].id
  {
    var r := PatchRow(rows, id, p);
    forall i, j | 0 <= i < j < |r| ensures AddressId(r[i]) != AddressId(r[j]) {
      assert AddressId(rows[i]) != AddressId(rows[j]);
    }
    forall x, y | x in r && y in r && x.isDefault && y.isDefault && x.userId == y.userId ensures x.id == y.id {
      PatchedDefaults(rows, id, userId, p, x, y);
    }
    forall x | x in r ensures x.id < nextId {
      var i :| 0 <= i < |r| && r[i] == x;
      assert rows[i] in rows;
    }
  }

  /** An update by the owner keeps the invariant and every row's id. */
  lemma UpdateKeepsInvariant(rows: seq<Address>, id: int, userId: int, p: AddressPatch, nextId: int)
    requires Invariant(rows, nextId)
    requires forall a :: a in rows && a.id == id ==> a.userId == userId
    ensures Invariant(Updated(rows, id, userId, p), nextId)
    ensures |Updated(rows, id, userId, p)| == |rows|
    ensures forall i :: 0 <= i < |rows| ==> Updated(rows, id, userId, p)[i].id == rows[i].id
  {
    var cleared := if p.isDefault == Some(true) then ClearDefaults(rows, userId, Some(id)) else rows;
    LoweredKeepsInvariant(rows, cleared, nextId);
    forall a | a in cleared && a.id == id ensures a.userId == userId {
      var i :| 0 <= i < |cleared| && cleared[i] == a;
      assert rows[i] in rows;
    }
    forall a | p.isDefault == Some(true) && a in cleared && a.userId == userId && a.id != id ensures !a.isDefault {
      var i :| 0 <= i < |cleared| && cleared[i] == a;
    }
    PatchKeepsInvariant(cleared, id, userId, p, nextId);
  }

  /** After an update the row is still found by its id. */
  lemma UpdatedFindsRow(rows: seq<Address>, id: int, userId: int, p: AddressPatch, nextId: int)
    requires Invariant(rows, nextId)
    requires exists a :: a in rows && a.id == id
    requires forall a :: a in rows && a.id == id ==> a.userId == userId
    ensures Seqs.FindFirst(Updated(rows, id, userId, p), HasId(id)).Some?
  {
    UpdateKeepsInvariant(rows, id, userId, p, nextId);
    var w :| w in rows && w.id == id;
    var i :| 0 <= i < |rows| && rows[i] == w;
    var r := Updated(rows, id, userId, p);
    assert r[i] in r && HasId(id)(r[i]);
  }

  /**
   * The table after `remove` of the user's row `a`: when `a` was the default, the user's
   * first other row is made the default; then `a` is deleted.
   */
  function Removed(rows: seq<Address>, a: Address): (r: seq<Address>)
    ensures forall x :: x in r ==> x.id != a.id
  {
    var other := Seqs.FindFirst(rows, OtherOf(a.userId, a.id));
    var promoted := if a.isDefault && other.Some? then Promote(rows, other.value.id) else rows;
    assert forall i :: 0 <= i < |Seqs.Filter(promoted, IdIsNot(a.id))| ==>
      IdIsNot(a.id)(Seqs.Filter(promoted, IdIsNot(a.id))[i]);
    Seqs.Filter(promoted, IdIsNot(a.id))
  }

  /** `update({ where: { id }, data: { isDefault: true } })`. */
  function Promote(rows: seq<Address>, id: int): (r: seq<Address>)
    ensures |r| == |rows|
    ensures forall i :: 0 <= i < |rows| ==> r[i] == rows[i].(isDefault := rows[i].isDefault || rows[i].id == id)
  {
    seq(|rows|, i requires 0 <= i < |rows| => if rows[i].id == id then rows[i].(isDefault := true) else rows[i])
  }

  /** Only the removed row disappears: every other row is still there (at most its flag raised). */
  lemma RemoveKeepsOthers(rows: seq<Address>, a: Address, b: Address)
    requires b in rows && b.id != a.id
    ensures b in Removed(rows, a) || b.(isDefault := true) in Removed(rows, a)
  {
    var other := Seqs.FindFirst(rows, OtherOf(a.userId, a.id));
    var promoted := if a.isDefault && other.Some? then Promote(rows, other.value.id) else rows;
    var i :| 0 <= i < |rows| && rows[i] == b;
    assert promoted[i] == b || promoted[i] == b.(isDefault := true);
    Seqs.FilterMembers(promoted, IdIsNot(a.id), promoted[i]);
  }

  /** Every row left after `remove` was in the table before, with at most its flag raised. */
  lemma RemovedRowsCameFromTable(rows: seq<Address>, a: Address, x: Address)
    requires x in Removed(rows, a)
    ensures x.id != a.id && (x in rows || x.(isDefault := false) in rows)
  {
    var other := Seqs.FindFirst(rows, OtherOf(a.userId, a.id));
    var promoted := if a.isDefault && other.Some? then Promote(rows, other.value.id) else rows;
    Seqs.FilterMembers(promoted, IdIsNot(a.id), x);
    var i :| 0 <= i < |promoted| && promoted[i] == x;
    assert rows[i] in rows;
  }

  /** Deleting the default while the user has other addresses leaves one of them the default. */
  lemma RemovePromotes(rows: seq<Address>, a: Address)
    requires IdsUnique(rows) && a in rows && a.isDefault
    requires exists b :: b in rows && b.userId == a.userId && b.id != a.id
    ensures exists x :: x in Removed(rows, a) && x.userId == a.userId && x.isDefault
  {
    var other := Seqs.FindFirst(rows, OtherOf(a.userId, a.id));
    var b :| b in rows && b.userId == a.userId && b.id != a.id;
    assert OtherOf(a.userId, a.id)(b);
    var o := other.value;
    var promoted := Promote(rows, o.id);
    var i :| 0 <= i < |rows| && rows[i] == o;
    assert promoted[i] == o.(isDefault := true);
    Seqs.FilterMembers(promoted, IdIsNot(a.id), promoted[i]);
  }

  /** `remove` keeps the invariant. */
  lemma RemoveKeepsInvariant(rows: seq<Address>, a: Address, nextId: int)
    requires Invariant(rows, nextId) && a in rows
    ensures Invariant(Removed(rows, a), nextId)
  {
    var other := Seqs.FindFirst(rows, OtherOf(a.userId, a.id));
    var promoted := if a.isDefault && other.Some? then Promote(rows, other.value.id) else rows;
    assert Seqs.UniqueBy(promoted, AddressId) by {
      forall i, j | 0 <= i < j < |promoted| ensures AddressId(promoted[i]) != AddressId(promoted[j]) {
        assert AddressId(rows[i]) != AddressId(rows[j]);
      }
    }
    Seqs.FilterUniqueBy(promoted, IdIsNot(a.id), AddressId);
    var r := Removed(rows, a);
    forall x | x in r ensures x.id < nextId {
      RemovedRowsCameFromTable(rows, a, x);
    }
    forall x, y | x in r && y in r && x.isDefault && y.isDefault && x.userId == y.userId ensures x.id == y.id {
      RemovedDefaults(rows, a, x, y);
    }
  }

  /** After promoting a row of the user whose default `a` is, the only defaults besides `a` are one row. */
  lemma PromotedDefaults(rows: seq<Address>, a: Address, o: Address, x: Address, y: Address)
    requires IdsUnique(rows) && AtMostOneDefault(rows) && a in rows && a.isDefault
    requires o in rows && o.userId == a.userId
    requires x in Promote(rows, o.id) && y in Promote(rows, o.id) && x.id != a.id && y.id != a.id
    requires x.isDefault && y.isDefault && x.userId == y.userId
    ensures x.id == y.id
  {
    var promoted := Promote(rows, o.id);
    var i :| 0 <= i < |promoted| && promoted[i] == x;
    var j :| 0 <= j < |promoted| && promoted[j] == y;
    assert rows[i] in rows && rows[j] in rows;
    assert x.id == rows[i].id && x.userId == rows[i].userId;
    assert y.id == rows[j].id && y.userId == rows[j].userId;
    if rows[i].id == o.id {
      SameIdSameRow(rows, rows[i], o);
    }
    if rows[j].id == o.id {
      SameIdSameRow(rows, rows[j], o);
    }
    var ri, rj := rows[i], rows[j];
    assert ri.isDefault && ri.userId == a.userId ==> ri.id == a.id;
    assert rj.isDefault && rj.userId == a.userId ==> rj.id == a.id;
  }

  /** Two defaults of one user left after `remove` are one row. */
  lemma RemovedDefaults(rows: seq<Address>, a: Address, x: Address, y: Address)
    requires IdsUnique(rows) && AtMostOneDefault(rows)
    requires a in rows && x in Removed(rows, a) && y in Removed(rows, a)
    requires x.isDefault && y.isDefault && x.userId == y.userId
    ensures x.id == y.id
  {
    var other := Seqs.FindFirst(rows, OtherOf(a.userId, a.id));
    var promoted := if a.isDefault && other.Some? then Promote(rows, other.value.id) else rows;
    Seqs.FilterMembers(promoted, IdIsNot(a.id), x);
    Seqs.FilterMembers(promoted, IdIsNot(a.id), y);
    if a.isDefault && other.Some? {
      assert other.value in rows;
      PromotedDefaults(rows, a, other.value, x, y);
    }
  }

  /** Default addresses sort first. */
  function DefaultFirst(a: Address): int {
    if a.isDefault then 0 else 1
  }

  /** The address book: the `shippingAddress` table. */
  class AddressBook {
    var rows: seq<Address>
    var nextId: int

    ghost predicate Valid()
      reads this
    {
      Invariant(rows, nextId)
    }

    constructor ()
      ensures Valid() && rows == []
    {
      rows, nextId := [], 1;
    }

    /** `findByUserId`: exactly the user's addresses, the default first. */
    function FindByUserId(userId: int): (r: ListReply)
      reads this
      ensures r.status == 200 && r.message == "Lấy danh sách địa chỉ thành công"
      ensures multiset(r.data) == multiset(UserRows(rows, userId))
      ensures forall a :: a in r.data <==> a in rows && a.userId == userId
      ensures Seqs.SortedBy(r.data, DefaultFirst)
    {
      var mine := UserRows(rows, userId);
      Seqs.SortBySorted(mine, DefaultFirst);
      var sorted := Seqs.SortBy(mine, DefaultFirst);
      assert forall a :: a in sorted <==> a in multiset(mine);
      assert forall a :: a in mine <==> a in rows && a.userId == userId by {
        forall a ensures a in mine <==> a in rows && a.userId == userId {
          Seqs.FilterMembers(rows, OwnedBy(userId), a);
        }
      }
      ListReply(200, "Lấy danh sách địa chỉ thành công", sorted)
    }

    /** A user's default address, when there is one, heads the list. */
    lemma DefaultListedFirst(userId: int, a: Address)
      requires Valid() && a in rows && a.userId == userId && a.isDefault
      ensures FindByUserId(userId).data != [] && FindByUserId(userId).data[0] == a
    {
      var data := FindByUserId(userId).data;
      var k :| 0 <= k < |data| && data[k] == a;
      assert DefaultFirst(data[0]) <= DefaultFirst(data[k]);
      assert data[0] in data;
      SameIdSameRow(rows, data[0], a);
    }

    /** `findOne`: the row with that id, or a 404 without data. */
    function FindOne(id: int): (r: Reply)
      reads this
      ensures r.data.Some? ==> r.data.value in rows && r.data.value.id == id && r == Reply(200, "Lấy địa chỉ thành công", None, r.data)
      ensures r.data.None? <==> r == Reply(404, "Không tìm thấy địa chỉ", None, None)
      ensures r.data.None? <==> forall a :: a in rows ==> a.id != id
    {
      var a := Seqs.FindFirst(rows, HasId(id));
      if a.Some? then Reply(200, "Lấy địa chỉ thành công", None, a)
      else Reply(404, "Không tìm thấy địa chỉ", None, None)
    }

    /** `create`. */
    method Create(userId: int, d: NewAddress) returns (r: Reply)
      requires Valid()
      modifies this
      ensures Valid()
      ensures rows == Created(old(rows), userId, d, old(nextId)) && nextId == old(nextId) + 1
      ensures r == Reply(201, "Tạo địa chỉ thành công", None, Some(rows[|rows| - 1]))
    {
      CreateKeepsInvariant(rows, userId, d, nextId);
      ghost var before := rows;
      if d.isDefault {
        rows := ClearDefaults(rows, userId, None);
      }
      OwnedRowsAgree(before, rows, userId);
      var addressCount := |UserRows(rows, userId)|;
      var isDefault := if addressCount == 0 then true else d.isDefault;
      var address := NewRow(nextId, userId, d, isDefault);
      rows := rows + [address];
      nextId := nextId + 1;
      r := Reply(201, "Tạo địa chỉ thành công", None, Some(address));
    }

    /**
     * `update`, called only for a row the user owns: with `isDefault: true` the user's other
     * defaults are cleared (twice, as written), then the supplied fields are written.
     */
    method Update(id: int, userId: int, p: AddressPatch) returns (r: Reply)
      requires Valid()
      requires exists a :: a in rows && a.id == id
      requires forall a :: a in rows && a.id == id ==> a.userId == userId
      modifies this
      ensures Valid()
      ensures rows == Updated(old(rows), id, userId, p) && nextId == old(nextId)
      ensures r.status == 200 && r.message == "Cập nhật địa chỉ thành công"
      ensures r.data.Some? && r.data.value in rows && r.data.value.id == id
    {
      UpdateKeepsInvariant(rows, id, userId, p, nextId);
      UpdatedFindsRow(rows, id, userId, p, nextId);
      ClearDefaultsIdempotent(rows, userId, Some(id));
      if p.isDefault == Some(true) {
        rows := ClearDefaults(rows, userId, Some(id));
      }
      // `updateData` copies exactly the fields the request defines, which is the patch itself.
      if p.isDefault == Some(true) {
        rows := ClearDefaults(rows, userId, Some(id));
      }
      rows := PatchRow(rows, id, p);
      r := Reply(200, "Cập nhật địa chỉ thành công", None, Seqs.FindFirst(rows, HasId(id)));
    }

    /**
     * `remove`: a row that is missing or not the user's is a 404 and nothing changes; otherwise
     * another row of the user is promoted when the removed one was the default, and the row is deleted.
     */
    method Remove(id: int, userId: int) returns (r: Reply)
      requires Valid()
      modifies this
      ensures Valid() && nextId == old(nextId)
      ensures (forall a :: a in old(rows) ==> a.id != id || a.userId != userId) ==>
                r == Reply(404, "Không tìm thấy địa chỉ", Some("Not Found"), None) && rows == old(rows)
      ensures forall a :: a in old(rows) && a.id == id && a.userId == userId ==>
                r == Reply(200, "Xóa địa chỉ thành công", None, Some(a)) && rows == Removed(old(rows), a)
    {
      var address := Seqs.FindFirst(rows, OwnedWithId(userId, id));
      if address.None? {
        return Reply(404, "Không tìm thấy địa chỉ", Some("Not Found"), None);
      }
      var a := address.value;
      forall b | b in rows && b.id == id && b.userId == userId ensures b == a {
        SameIdSameRow(rows, a, b);
      }
      RemoveKeepsInvariant(rows, a, nextId);
      if a.isDefault {
        var anotherAddress := Seqs.FindFirst(rows, OtherOf(userId, id));
        if anotherAddress.Some? {
          rows := Promote(rows, anotherAddress.value.id);
        }
      }
      rows := Seqs.Filter(rows, IdIsNot(id));
      r := Reply(200, "Xóa địa chỉ thành công", None, Some(a));
    }

    /** The PATCH entry point: an unknown id is a 404, another user's address a 403. */
    method PatchAddress(userId: int, id: int, p: AddressPatch) returns (r: Reply)
      requires Valid()
      modifies this
      ensures Valid() && nextId == old(nextId)
      ensures (forall a :: a in old(rows) ==> a.id != id) ==>
                r == Reply(404, "Shipping address with ID " + Seqs.IntToString(id) + " not found", Some("Not Found"), None) &&
                rows == old(rows)
      ensures (exists a :: a in old(rows) && a.id == id && a.userId != userId) ==>
                r == Reply(403, "You do not have permission to update this shipping address", Some("Forbidden"), None) &&
                rows == old(rows)
      ensures (exists a :: a in old(rows) && a.id == id && a.userId == userId) ==>
                rows == Updated(old(rows), id, userId, p) && r.status == 200
    {
      var response := FindOne(id);
      if response.data.None? {
        return Reply(404, "Shipping address with ID " + Seqs.IntToString(id) + " not found", Some("Not Found"), None);
      }
      var a := response.data.value;
      forall b | b in rows && b.id == id ensures b == a {
        SameIdSameRow(rows, a, b);
      }
      if a.userId != userId {
        return Reply(403, "You do not have permission to update this shipping address", Some("Forbidden"), None);
      }
      r := Update(id, userId, p);
    }

    /** The DELETE entry point: an unknown id is a 404, another user's address a 403. */
    method DeleteAddress(userId: int, id: int) returns (r: Reply)
      requires Valid()
      modifies this
      ensures Valid() && nextId == old(nextId)
      ensures (forall a :: a in old(rows) ==> a.id != id) ==>
                r == Reply(404, "Shipping address with ID " + Seqs.IntToString(id) + " not found", Some("Not Found"), None) &&
                rows == old(rows)
      ensures (exists a :: a in old(rows) && a.id == id && a.userId != userId) ==>
                r == Reply(403, "You do not have permission to delete this shipping address", Some("Forbidden"), None) &&
                rows == old(rows)
      ensures forall a :: a in old(rows) && a.id == id && a.userId == userId ==>
                rows == Removed(old(rows), a) && r == Reply(200, "Xóa địa chỉ thành công", None, Some(a))
    {
      var response := FindOne(id);
      if response.data.None? {
        return Reply(404, "Shipping address with ID " + Seqs.IntToString(id) + " not found", Some("Not Found"), None);
      }
      var a := response.data.value;
      forall b | b in rows && b.id == id ensures b == a {
        SameIdSameRow(rows, a, b);
      }
      if a.userId != userId {
        return Reply(403, "You do not have permission to delete this shipping address", Some("Forbidden"), None);
      }
      r := Remove(id, userId);
    }

    /** The GET entry point: `findOne`, with a missing row turned into a 404. */
    function GetAddress(id: int): (r: Reply)
      reads this
      ensures r.status == 200 <==> exists a :: a in rows && a.id == id
      ensures r.status == 200 ==> r.data.Some? && r.data.value in rows && r.data.value.id == id
      ensures r.status != 200 ==>
                r == Reply(404, "Shipping address with ID " + Seqs.IntToString(id) + " not found", Some("Not Found"), None)
    {
      var response := FindOne(id);
      if response.data.None? then
        Reply(404, "Shipping address with ID " + Seqs.IntToString(id) + " not found", Some("Not Found"), None)
      else response
    }
  }
}

/**
 * The voucher ledger: the voucher table (unique codes), the per-user usage table, the
 * eligibility checks that preview a discount, and the create/update/delete rules.
 * Dates are integer timestamps and `now` is always a parameter.
 */
module VoucherLedger {
  import opened Wrappers
  import Seqs

  /** Which amount a voucher discounts: the products or the shipping fee. */
  datatype VoucherType = Discount | Shipping

  datatype DiscountType = Percentage | FixedAmount

  datatype Voucher = Voucher(
    id: int,
    code: string,
    name: string,
    kind: VoucherType,
    discountType: DiscountType,
    discountValue: int,
    maxDiscountAmount: Option<int>,
    minOrderAmount: Option<int>,
    maxUsageCount: Option<int>,
    currentUsageCount: int,
    startDate: int,
    endDate: int,
    isActive: bool)

  /** JavaScript truthiness of a nullable number: null and 0 are both "not set". */
  predicate IsSet(x: Option<int>) {
    x.Some? && x.value != 0
  }

  // ---------------------------------------------------------------------------
  // Discount preview
  // ---------------------------------------------------------------------------

  /** The amount a voucher applies to: the products (order amount minus shipping) or the shipping fee. */
  function BaseAmount(v: Voucher, orderAmount: int, shippingFee: Option<int>): (base: int)
    ensures v.kind == Discount ==> base + shippingFee.GetOr(0) == orderAmount
    ensures v.kind == Shipping ==> base == shippingFee.GetOr(0)
  {
    match v.kind
    case Discount => orderAmount - shippingFee.GetOr(0)
    case Shipping => shippingFee.GetOr(0)
  }

  /** The discount a voucher gives on a base amount. */
  function DiscountAmount(v: Voucher, base: int): (d: real)
    ensures v.discountType == FixedAmount ==>
              d <= base as real && d <= v.discountValue as real &&
              (d == base as real || d == v.discountValue as real)
    ensures v.discountType == Percentage && !IsSet(v.maxDiscountAmount) ==>
              d == (base * v.discountValue) as real / 100.0
    ensures v.discountType == Percentage && IsSet(v.maxDiscountAmount) ==>
              var share, cap := (base * v.discountValue) as real / 100.0, v.maxDiscountAmount.value as real;
              d <= share && d <= cap && (d == share || d == cap)
  {
    match v.discountType
    case Percentage =>
      var p := (base * v.discountValue) as real / 100.0;
      if IsSet(v.maxDiscountAmount) && p > v.maxDiscountAmount.value as real
      then v.maxDiscountAmount.value as real
      else p
    case FixedAmount =>
      if v.discountValue < base then v.discountValue as real else base as real
  }

  /** A percentage voucher of at most 100% with a non-negative cap never gives less than 0 or more than the base. */
  lemma PercentageWithinBase(v: Voucher, base: int)
    requires v.discountType == Percentage && 0 <= base && 0 <= v.discountValue <= 100
    requires v.maxDiscountAmount.Some? ==> v.maxDiscountAmount.value >= 0
    ensures 0.0 <= DiscountAmount(v, base) <= base as real
  {
    var prod := base * v.discountValue;
    assert 0 <= prod <= base * 100 by {
      MulMonotone(base, v.discountValue, 100);
    }
    assert prod as real / 100.0 <= base as real;
  }

  lemma MulMonotone(a: int, b: int, c: int)
    requires 0 <= a && 0 <= b <= c
    ensures 0 <= a * b <= a * c
  {
  }

  /** A percentage step is exact arithmetic: base times value over a hundred. */
  lemma PercentageIsProportional(v: Voucher, base: int)
    requires v.discountType == Percentage && 0 <= base && 0 <= v.discountValue
    requires !IsSet(v.maxDiscountAmount)
    ensures DiscountAmount(v, base) * 100.0 == (base * v.discountValue) as real
  {
  }

  // ---------------------------------------------------------------------------
  // Eligibility checks
  // ---------------------------------------------------------------------------

  /** Why a voucher is refused, in the order the checks are made. */
  datatype Reason =
    | NotFound
    | NotActive
    | NotYetValid
    | Expired
    | UsageLimitReached
    | AlreadyUsed
    | BelowMinimum(minOrderAmount: int)

  datatype Validation = Invalid(reason: Reason) | Valid(discountAmount: real)

  /** The message the validation result carries for each reason. */
  function ReasonMessage(r: Reason): string {
    match r
    case NotFound => "Voucher not found"
    case NotActive => "Voucher is not active"
    case NotYetValid => "Voucher is not yet valid"
    case Expired => "Voucher has expired"
    case UsageLimitReached => "Voucher usage limit reached"
    case AlreadyUsed => "You have already used this voucher"
    case BelowMinimum(m) => "Minimum order amount is " + Seqs.IntToString(m)
  }

  /** The validity window, both ends inclusive. */
  predicate InWindow(v: Voucher, now: int) {
    v.startDate <= now <= v.endDate
  }

  /** A set cap (even a cap of 0) is reached once the count meets it; an unset cap never is. */
  predicate CapReached(v: Voucher) {
    v.maxUsageCount.Some? && v.currentUsageCount >= v.maxUsageCount.value
  }

  /** The minimum is enforced only when it is set and non-zero; the order amount includes shipping. */
  predicate MeetsMinimum(v: Voucher, orderAmount: int) {
    !IsSet(v.minOrderAmount) || orderAmount >= v.minOrderAmount.value
  }

  /** All rules at once, independent of the order in which they are checked. */
  predicate Eligible(v: Voucher, alreadyUsed: bool, orderAmount: int, now: int) {
    v.isActive && InWindow(v, now) && !CapReached(v) && !alreadyUsed && MeetsMinimum(v, orderAmount)
  }

  /** The checks after the voucher has been found, short-circuiting on the first failure. */
  function Check(v: Voucher, alreadyUsed: bool, orderAmount: int, shippingFee: Option<int>, now: int): Validation {
    if !v.isActive then Invalid(NotActive)
    else if now < v.startDate then Invalid(NotYetValid)
    else if now > v.endDate then Invalid(Expired)
    else if v.maxUsageCount.Some? && v.currentUsageCount >= v.maxUsageCount.value then Invalid(UsageLimitReached)
    else if alreadyUsed then Invalid(AlreadyUsed)
    else if IsSet(v.minOrderAmount) && orderAmount < v.minOrderAmount.value then
      Invalid(BelowMinimum(v.minOrderAmount.value))
    else Valid(DiscountAmount(v, BaseAmount(v, orderAmount, shippingFee)))
  }

  /**
   * A voucher passes exactly when every rule holds, and a refusal names the first rule,
   * in the order active, start, end, cap, per-user use, minimum, that fails.
   */
  lemma CheckReportsFirstFailure(v: Voucher, used: bool, orderAmount: int, shippingFee: Option<int>, now: int)
    ensures Check(v, used, orderAmount, shippingFee, now).Valid? <==> Eligible(v, used, orderAmount, now)
    ensures Check(v, used, orderAmount, shippingFee, now).Valid? ==>
              Check(v, used, orderAmount, shippingFee, now).discountAmount ==
              DiscountAmount(v, BaseAmount(v, orderAmount, shippingFee))
    ensures Check(v, used, orderAmount, shippingFee, now) == Invalid(NotActive) <==> !v.isActive
    ensures Check(v, used, orderAmount, shippingFee, now) == Invalid(NotYetValid) <==>
              v.isActive && now < v.startDate
    ensures Check(v, used, orderAmount, shippingFee, now) == Invalid(Expired) <==>
              v.isActive && v.startDate <= now && now > v.endDate
    ensures Check(v, used, orderAmount, shippingFee, now) == Invalid(UsageLimitReached) <==>
              v.isActive && InWindow(v, now) && CapReached(v)
    ensures Check(v, used, orderAmount, shippingFee, now) == Invalid(AlreadyUsed) <==>
              v.isActive && InWindow(v, now) && !CapReached(v) && used
    ensures Check(v, used, orderAmount, shippingFee, now).Invalid? &&
            Check(v, used, orderAmount, shippingFee, now).reason.BelowMinimum? <==>
              v.isActive && InWindow(v, now) && !CapReached(v) && !used && !MeetsMinimum(v, orderAmount)
    ensures Check(v, used, orderAmount, shippingFee, now).Invalid? ==>
              Check(v, used, orderAmount, shippingFee, now).reason != NotFound
  {
  }

  // ---------------------------------------------------------------------------
  // The ledger: voucher table and usage table
  // ---------------------------------------------------------------------------

  /** A row of the usage table: user `userId` redeemed voucher `voucherId`. */
  datatype Usage = Usage(id: int, userId: int, voucherId: int, orderId: Option<int>)

  datatype ApplyResult = Applied(usage: Usage) | ApplyFailed(message: string)

  datatype VoucherError = Conflict(message: string) | BadRequest(message: string) | NotFoundError(message: string)

  datatype Outcome<T> = Ok(value: T) | Err(error: VoucherError)

  /** The body of a create request. */
  datatype VoucherDraft = VoucherDraft(
    code: string,
    name: string,
    kind: VoucherType,
    discountType: DiscountType,
    discountValue: int,
    maxDiscountAmount: Option<int>,
    minOrderAmount: Option<int>,
    maxUsageCount: Option<int>,
    startDate: int,
    endDate: int,
    isActive: Option<bool>)

  /** The body of an update request: only the fields that are present change. */
  datatype VoucherPatch = VoucherPatch(
    code: Option<string>,
    name: Option<string>,
    kind: Option<VoucherType>,
    discountType: Option<DiscountType>,
    discountValue: Option<int>,
    maxDiscountAmount: Option<int>,
    minOrderAmount: Option<int>,
    maxUsageCount: Option<int>,
    startDate: Option<int>,
    endDate: Option<int>,
    isActive: Option<bool>)

  /** The rules a new voucher must meet, in the order they are checked; None when it is accepted. */
  function CreateRejection(d: VoucherDraft, codeTaken: bool, now: int): (e: Option<VoucherError>)
    ensures e.None? <==>
              !codeTaken && d.startDate < d.endDate && now < d.endDate &&
              (d.discountType == Percentage ==> 0 < d.discountValue <= 100) &&
              (d.discountType == FixedAmount ==> 0 < d.discountValue)
    ensures codeTaken ==> e == Some(Conflict("Voucher code already exists"))
    ensures e.Some? && !codeTaken ==> e.value.BadRequest?
  {
    if codeTaken then Some(Conflict("Voucher code already exists"))
    else if d.startDate >= d.endDate then Some(BadRequest("Start date must be before end date"))
    else if d.endDate <= now then Some(BadRequest("End date must be in the future"))
    else if d.discountType == Percentage && (d.discountValue <= 0 || d.discountValue > 100) then
      Some(BadRequest("Percentage discount must be between 1 and 100"))
    else if d.discountType == FixedAmount && d.discountValue <= 0 then
      Some(BadRequest("Fixed amount discount must be greater than 0"))
    else None
  }

  /** The voucher row that an update writes: each present field replaces the stored one. */
  function Patched(v: Voucher, p: VoucherPatch): (w: Voucher)
    ensures w.id == v.id && w.currentUsageCount == v.currentUsageCount
    ensures w.code == p.code.GetOr(v.code) && w.startDate == p.startDate.GetOr(v.startDate)
    ensures w.endDate == p.endDate.GetOr(v.endDate)
    ensures w.name == p.name.GetOr(v.name) && w.kind == p.kind.GetOr(v.kind) && w.isActive == p.isActive.GetOr(v.isActive)
    ensures w.discountType == p.discountType.GetOr(v.discountType) && w.discountValue == p.discountValue.GetOr(v.discountValue)
    ensures w.maxDiscountAmount == (if p.maxDiscountAmount.Some? then p.maxDiscountAmount else v.maxDiscountAmount)
    ensures w.minOrderAmount == (if p.minOrderAmount.Some? then p.minOrderAmount else v.minOrderAmount)
    ensures w.maxUsageCount == (if p.maxUsageCount.Some? then p.maxUsageCount else v.maxUsageCount)
    ensures p == VoucherPatch(None, None, None, None, None, None, None, None, None, None, None) ==> w == v
  {
    v.(code := p.code.GetOr(v.code),
       name := p.name.GetOr(v.name),
       kind := p.kind.GetOr(v.kind),
       discountType := p.discountType.GetOr(v.discountType),
       discountValue := p.discountValue.GetOr(v.discountValue),
       maxDiscountAmount := if p.maxDiscountAmount.Some? then p.maxDiscountAmount else v.maxDiscountAmount,
       minOrderAmount := if p.minOrderAmount.Some? then p.minOrderAmount else v.minOrderAmount,
       maxUsageCount := if p.maxUsageCount.Some? then p.maxUsageCount else v.maxUsageCount,
       startDate := p.startDate.GetOr(v.startDate),
       endDate := p.endDate.GetOr(v.endDate),
       isActive := p.isActive.GetOr(v.isActive))
  }

  /**
   * The rules an update of the voucher stored under `c` must meet, in the order they are
   * checked; None when it is written. An empty code skips the conflict check (it is falsy),
   * and the unique index on codes then rejects a write that would clash.
   */
  function UpdateRejection(vouchers: map<string, Voucher>, c: string, p: VoucherPatch): (e: Option<VoucherError>)
    requires c in vouchers
    ensures var w := Patched(vouchers[c], p);
            e.None? <==>
              && !(p.code.Some? && p.code.value != "" && p.code.value != vouchers[c].code && p.code.value in vouchers)
              && ((p.startDate.Some? || p.endDate.Some?) ==> w.startDate < w.endDate)
              && (w.code == c || w.code !in vouchers)
    ensures p.code.Some? && p.code.value != "" && p.code.value != vouchers[c].code && p.code.value in vouchers ==>
              e == Some(Conflict("Voucher code already exists"))
    ensures e.Some? && e.value != Conflict("Voucher code already exists") ==> e.value.BadRequest?
  {
    var existing := vouchers[c];
    if p.code.Some? && p.code.value != "" && p.code.value != existing.code && p.code.value in vouchers then
      Some(Conflict("Voucher code already exists"))
    else if (p.startDate.Some? || p.endDate.Some?) &&
            p.startDate.GetOr(existing.startDate) >= p.endDate.GetOr(existing.endDate) then
      Some(BadRequest("Start date must be before end date"))
    else if Patched(existing, p).code != c && Patched(existing, p).code in vouchers then
      Some(BadRequest("Failed to update voucher"))
    else None
  }

  /** A date given with an update that would put the start at or after the end is refused with its own message. */
  lemma UpdateRefusesDateOrder(vouchers: map<string, Voucher>, c: string, p: VoucherPatch)
    requires c in vouchers && vouchers[c].code == c
    requires !(p.code.Some? && p.code.value != "" && p.code.value != c && p.code.value in vouchers)
    requires p.startDate.Some? || p.endDate.Some?
    requires p.startDate.GetOr(vouchers[c].startDate) >= p.endDate.GetOr(vouchers[c].endDate)
    ensures UpdateRejection(vouchers, c, p) == Some(BadRequest("Start date must be before end date"))
  {
  }

  class Ledger {
    /** The voucher table, keyed by its unique code. */
    var vouchers: map<string, Voucher>
    /** The usage table, keyed by its unique (userId, voucherId) pair. */
    var usages: map<(int, int), Usage>
    var nextVoucherId: int
    var nextUsageId: int

    ghost predicate Valid()
      reads this
    {
      && (forall c :: c in vouchers ==> vouchers[c].code == c && vouchers[c].id < nextVoucherId)
      && (forall c1, c2 :: c1 in vouchers && c2 in vouchers && vouchers[c1].id == vouchers[c2].id ==> c1 == c2)
      && (forall k :: k in usages ==> usages[k].userId == k.0 && usages[k].voucherId == k.1)
    }

    constructor ()
      ensures Valid() && vouchers == map[] && usages == map[]
    {
      vouchers, usages := map[], map[];
      nextVoucherId, nextUsageId := 1, 1;
    }

    /** `validateVoucher`: look the code up, then run the checks; never fails by exception. */
    function ValidateVoucher(code: string, userId: int, orderAmount: int, shippingFee: Option<int>, now: int): (r: Validation)
      reads this
      ensures r == Invalid(NotFound) <==> code !in vouchers
      ensures code in vouchers ==>
                (r.Valid? <==> Eligible(vouchers[code], (userId, vouchers[code].id) in usages, orderAmount, now))
      ensures r.Valid? ==>
                r.discountAmount == DiscountAmount(vouchers[code], BaseAmount(vouchers[code], orderAmount, shippingFee))
    {
      if code !in vouchers then Invalid(NotFound)
      else
        var v := vouchers[code];
        CheckReportsFirstFailure(v, (userId, v.id) in usages, orderAmount, shippingFee, now);
        Check(v, (userId, v.id) in usages, orderAmount, shippingFee, now)
    }

    /** `applyVoucher`: record the usage row, then bump the voucher's usage count. */
    method ApplyVoucher(code: string, userId: int, orderId: Option<int>) returns (r: ApplyResult)
      requires Valid()
      modifies this
      ensures Valid()
      ensures code !in old(vouchers) ==> r == ApplyFailed("Voucher not found") && unchanged(this)
      ensures code in old(vouchers) && (userId, old(vouchers)[code].id) in old(usages) ==>
                r == ApplyFailed("Failed to apply voucher") && unchanged(this)
      ensures code in old(vouchers) && (userId, old(vouchers)[code].id) !in old(usages) ==>
                var v := old(vouchers)[code];
                && r == Applied(Usage(old(nextUsageId), userId, v.id, orderId))
                && usages == old(usages)[(userId, v.id) := r.usage]
                && vouchers == old(vouchers)[code := v.(currentUsageCount := v.currentUsageCount + 1)]
                && nextVoucherId == old(nextVoucherId)
      ensures r.Applied? ==>
                forall a, s, t :: ValidateVoucher(code, userId, a, s, t).Invalid?
    {
      if code !in vouchers {
        return ApplyFailed("Voucher not found");
      }
      var v := vouchers[code];
      if (userId, v.id) in usages {
        // the unique (userId, voucherId) constraint rejects the insert
        return ApplyFailed("Failed to apply voucher");
      }
      var u := Usage(nextUsageId, userId, v.id, orderId);
      usages := usages[(userId, v.id) := u];
      nextUsageId := nextUsageId + 1;
      var v' := v.(currentUsageCount := v.currentUsageCount + 1);
      vouchers := vouchers[code := v'];
      r := Applied(u);
      forall a, s, t ensures ValidateVoucher(code, userId, a, s, t).Invalid? {
        CheckReportsFirstFailure(v', true, a, s, t);
      }
    }

    /** `createVoucher`: every rule is checked before anything is stored. */
    method CreateVoucher(d: VoucherDraft, now: int) returns (r: Outcome<Voucher>)
      requires Valid()
      modifies this
      ensures Valid()
      ensures var e := CreateRejection(d, d.code in old(vouchers), now);
              e.Some? ==> r == Err(e.value) && unchanged(this)
      ensures r.Ok? ==>
                && CreateRejection(d, d.code in old(vouchers), now).None?
                && r.value == Voucher(old(nextVoucherId), d.code, d.name, d.kind, d.discountType, d.discountValue,
                                      d.maxDiscountAmount, d.minOrderAmount, d.maxUsageCount, 0,
                                      d.startDate, d.endDate, d.isActive.GetOr(true))
                && vouchers == old(vouchers)[d.code := r.value]
                && usages == old(usages)
      ensures r.Ok? || r.Err?
      ensures CreateRejection(d, d.code in old(vouchers), now).None? ==> r.Ok?
    {
      var rejection := CreateRejection(d, d.code in vouchers, now);
      if rejection.Some? {
        return Err(rejection.value);
      }
      var v := Voucher(nextVoucherId, d.code, d.name, d.kind, d.discountType, d.discountValue,
                       d.maxDiscountAmount, d.minOrderAmount, d.maxUsageCount, 0,
                       d.startDate, d.endDate, d.isActive.GetOr(true));
      vouchers := vouchers[d.code := v];
      nextVoucherId := nextVoucherId + 1;
      r := Ok(v);
    }

    /** The code under which voucher `id` is stored, if any. */
    predicate HasId(id: int)
      reads this
    {
      exists c :: c in vouchers && vouchers[c].id == id
    }

    /** `updateVoucher`: existence, code conflict, then the date order when a date is given. */
    method UpdateVoucher(id: int, p: VoucherPatch) returns (r: Outcome<Voucher>)
      requires Valid()
      modifies this
      ensures Valid()
      ensures usages == old(usages) && nextVoucherId == old(nextVoucherId)
      ensures !old(HasId(id)) ==> r == Err(NotFoundError("Voucher not found")) && unchanged(this)
      ensures r.Err? ==> unchanged(this)
      ensures r.Ok? ==>
                exists c :: c in old(vouchers) && old(vouchers)[c].id == id &&
                  r.value == Patched(old(vouchers)[c], p) &&
                  vouchers == (old(vouchers) - {c})[r.value.code := r.value]
      ensures r.Ok? ==> r.value.startDate < r.value.endDate || (p.startDate.None? && p.endDate.None?)
      ensures old(HasId(id)) && p.code.Some? && p.code.value != "" &&
              p.code.value in old(vouchers) && old(vouchers)[p.code.value].id != id ==>
                r == Err(Conflict("Voucher code already exists"))
      ensures forall c :: c in old(vouchers) && old(vouchers)[c].id == id ==>
                var e := UpdateRejection(old(vouchers), c, p);
                && (e.Some? ==> r == Err(e.value) && unchanged(this))
                && (e.None? ==>
                      r == Ok(Patched(old(vouchers)[c], p)) &&
                      vouchers == (old(vouchers) - {c})[r.value.code := r.value])
    {
      if !HasId(id) {
        return Err(NotFoundError("Voucher not found"));
      }
      var c :| c in vouchers && vouchers[c].id == id;
      var existing := vouchers[c];
      if p.code.Some? && p.code.value != "" && p.code.value != existing.code {
        if p.code.value in vouchers {
          return Err(Conflict("Voucher code already exists"));
        }
      }
      if p.startDate.Some? || p.endDate.Some? {
        var startDate := p.startDate.GetOr(existing.startDate);
        var endDate := p.endDate.GetOr(existing.endDate);
        if startDate >= endDate {
          return Err(BadRequest("Start date must be before end date"));
        }
      }
      var w := Patched(existing, p);
      if w.code != c && w.code in vouchers {
        // only an empty code skips the check above; the unique index then rejects the write
        return Err(BadRequest("Failed to update voucher"));
      }
      vouchers := (vouchers - {c})[w.code := w];
      r := Ok(w);
    }

    /** `deleteVoucher`: an unknown id is not found, and a voucher with any usage row is kept. */
    method DeleteVoucher(id: int) returns (r: Outcome<()>)
      requires Valid()
      modifies this
      ensures Valid()
      ensures usages == old(usages)
      ensures !old(HasId(id)) ==> r == Err(NotFoundError("Voucher not found")) && unchanged(this)
      ensures old(HasId(id)) && (exists k :: k in old(usages) && k.1 == id) ==>
                r == Err(BadRequest("Cannot delete voucher that has been used by users")) && unchanged(this)
      ensures old(HasId(id)) && (forall k :: k in old(usages) ==> k.1 != id) ==>
                r == Ok(()) &&
                exists c :: c in old(vouchers) && old(vouchers)[c].id == id && vouchers == old(vouchers) - {c}
      ensures r.Ok? ==> !HasId(id)
    {
      if !HasId(id) {
        return Err(NotFoundError("Voucher not found"));
      }
      var c :| c in vouchers && vouchers[c].id == id;
      if exists k :: k in usages && k.1 == id {
        return Err(BadRequest("Cannot delete voucher that has been used by users"));
      }
      vouchers := vouchers - {c};
      r := Ok(());
    }
  }

  /** A voucher that has been used by `userId` is refused to that user whatever the amounts. */
  lemma UsedVoucherIsRefused(ledger: Ledger, code: string, userId: int, orderAmount: int, shippingFee: Option<int>, now: int)
    requires code in ledger.vouchers && (userId, ledger.vouchers[code].id) in ledger.usages
    ensures ledger.ValidateVoucher(code, userId, orderAmount, shippingFee, now).Invalid?
  {
    CheckReportsFirstFailure(ledger.vouchers[code], true, orderAmount, shippingFee, now);
  }
}

/**
 * Product reviews: at most one review per order item, the response record that joins a review
 * with its order item, buyer and product, and the per-product statistics (count, average and
 * the distribution over the five star values).
 */
module Reviews {
  import opened Wrappers
  import Seqs

  datatype Buyer = Buyer(id: int, name: Option<string>, username: string)

  /** An order item with what the response needs of its order, buyer and product. */
  datatype OrderItem = OrderItem(id: int, orderId: int, productId: int, productName: string, buyer: Buyer)

  datatype Review = Review(id: int, orderItemId: int, rating: int, comment: Option<string>, isVerified: bool)

  datatype NewReview = NewReview(orderItemId: int, rating: int, comment: Option<string>)

  /** The fields an update may carry; `None` is a field that was not sent. */
  datatype ReviewPatch = ReviewPatch(rating: Option<int>, comment: Option<string>)

  datatype ReviewView = ReviewView(
    id: int,
    orderItemId: int,
    rating: int,
    comment: Option<string>,
    isVerified: bool,
    userName: string,
    productName: string,
    productId: int,
    orderId: int)

  datatype Reply = Reply(status: int, message: string, error: Option<string>, data: Option<ReviewView>)

  datatype Stats = Stats(totalReviews: nat, averageRating: real, ratingDistribution: map<int, nat>)

  datatype StatsReply = StatsReply(status: int, message: string, data: Stats)

  /** `user.name || user.username`. */
  function UserName(b: Buyer): (r: string)
    ensures b.name.Some? && b.name.value != "" ==> r == b.name.value
    ensures b.name.None? || b.name.value == "" ==> r == b.username
  {
    if b.name.Some? && b.name.value != "" then b.name.value else b.username
  }

  /** `mapReviewToResponse`: the review's own fields, an empty comment dropped, and the joined names. */
  function MapReview(r: Review, item: OrderItem): (v: ReviewView)
    ensures v.id == r.id && v.orderItemId == r.orderItemId && v.rating == r.rating && v.isVerified == r.isVerified
    ensures v.comment.Some? <==> r.comment.Some? && r.comment.value != ""
    ensures v.comment.Some? ==> v.comment == r.comment
    ensures v.userName == UserName(item.buyer) && v.productName == item.productName
    ensures v.productId == item.productId && v.orderId == item.orderId
  {
    ReviewView(r.id, r.orderItemId, r.rating, if r.comment == Some("") then None else r.comment, r.isVerified,
               UserName(item.buyer), item.productName, item.productId, item.orderId)
  }

  function ReviewId(r: Review): int { r.id }

  function ReviewItem(r: Review): int { r.orderItemId }

  function IdIsNot(id: int): Review -> bool {
    (r: Review) => r.id != id
  }

  function HasId(id: int): Review -> bool {
    (r: Review) => r.id == id
  }

  function ForItem(orderItemId: int): Review -> bool {
    (r: Review) => r.orderItemId == orderItemId
  }

  predicate HasReviewFor(reviews: seq<Review>, orderItemId: int) {
    exists r :: r in reviews && r.orderItemId == orderItemId
  }

  /** The review `create` stores. */
  function NewRow(id: int, dto: NewReview): Review {
    Review(id, dto.orderItemId, dto.rating, dto.comment, false)
  }

  /** Whether `create` stores the review: the order item exists and has no review yet. */
  predicate CreateAccepted(reviews: seq<Review>, items: map<int, OrderItem>, dto: NewReview) {
    dto.orderItemId in items && !HasReviewFor(reviews, dto.orderItemId)
  }

  /** The table after `create`. */
  function Created(reviews: seq<Review>, items: map<int, OrderItem>, dto: NewReview, nextId: int): (r: seq<Review>)
    ensures CreateAccepted(reviews, items, dto) ==> r == reviews + [NewRow(nextId, dto)]
    ensures !CreateAccepted(reviews, items, dto) ==> r == reviews
  {
    if CreateAccepted(reviews, items, dto) then reviews + [NewRow(nextId, dto)] else reviews
  }

  /** What `create` answers. */
  function CreateReply(reviews: seq<Review>, items: map<int, OrderItem>, dto: NewReview, nextId: int): (r: Reply)
    ensures dto.orderItemId !in items <==> r == Reply(404, "Order item not found", Some("Not Found"), None)
    ensures dto.orderItemId in items && HasReviewFor(reviews, dto.orderItemId) <==>
              r == Reply(400, "Review already exists for this order item", Some("Bad Request"), None)
    ensures r.status == 201 <==> CreateAccepted(reviews, items, dto)
    ensures r.status == 201 ==> r.data == Some(MapReview(NewRow(nextId, dto), items[dto.orderItemId])) &&
                                r.data.value.rating == dto.rating
  {
    if dto.orderItemId !in items then Reply(404, "Order item not found", Some("Not Found"), None)
    else if HasReviewFor(reviews, dto.orderItemId) then
      Reply(400, "Review already exists for this order item", Some("Bad Request"), None)
    else Reply(201, "Review created successfully", None, Some(MapReview(NewRow(nextId, dto), items[dto.orderItemId])))
  }

  /** A second review for the same order item is refused with a 400 and stores nothing. */
  lemma SecondReviewRefused(reviews: seq<Review>, items: map<int, OrderItem>, dto: NewReview, again: NewReview,
                            nextId: int)
    requires CreateAccepted(reviews, items, dto) && again.orderItemId == dto.orderItemId
    ensures var after := Created(reviews, items, dto, nextId);
            CreateReply(after, items, again, nextId + 1).status == 400 && Created(after, items, again, nextId + 1) == after
  {
    var after := Created(reviews, items, dto, nextId);
    assert after[|reviews|] in after;
  }

  /** `create` keeps ids unique, one review per order item, and every review's order item known. */
  lemma CreateKeepsInvariant(reviews: seq<Review>, items: map<int, OrderItem>, dto: NewReview, nextId: int)
    requires Invariant(reviews, items, nextId)
    ensures Invariant(Created(reviews, items, dto, nextId), items, nextId + 1)
  {
    var r := Created(reviews, items, dto, nextId);
    if CreateAccepted(reviews, items, dto) {
      forall i, j | 0 <= i < j < |r| ensures ReviewId(r[i]) != ReviewId(r[j]) && ReviewItem(r[i]) != ReviewItem(r[j]) {
        assert r[i] in reviews;
        if j < |reviews| {
          assert ReviewId(reviews[i]) != ReviewId(reviews[j]) && ReviewItem(reviews[i]) != ReviewItem(reviews[j]);
        }
      }
      assert forall x :: x in r ==> x in reviews || x == NewRow(nextId, dto);
    }
  }

  /** The table invariant. */
  predicate Invariant(reviews: seq<Review>, items: map<int, OrderItem>, nextId: int) {
    && Seqs.UniqueBy(reviews, ReviewId)
    && Seqs.UniqueBy(reviews, ReviewItem)
    && forall r :: r in reviews ==> r.orderItemId in items && r.id < nextId
  }

  /** `review.update({ where: { id }, data })`: the fields sent are written, the rest kept. */
  function PatchReview(r: Review, p: ReviewPatch): (v: Review)
    ensures v.id == r.id && v.orderItemId == r.orderItemId && v.isVerified == r.isVerified
    ensures v.rating == (if p.rating.Some? then p.rating.value else r.rating)
    ensures v.comment == (if p.comment.Some? then p.comment else r.comment)
  {
    r.(rating := p.rating.GetOr(r.rating), comment := if p.comment.Some? then p.comment else r.comment)
  }

  function PatchRow(reviews: seq<Review>, id: int, p: ReviewPatch): (r: seq<Review>)
    ensures |r| == |reviews|
    ensures forall i :: 0 <= i < |reviews| ==> r[i] == (if reviews[i].id == id then PatchReview(reviews[i], p) else reviews[i])
  {
    seq(|reviews|, i requires 0 <= i < |reviews| => if reviews[i].id == id then PatchReview(reviews[i], p) else reviews[i])
  }

  /** A patch changes neither ids nor order items, so the invariant holds after it. */
  lemma PatchKeepsInvariant(reviews: seq<Review>, items: map<int, OrderItem>, id: int, p: ReviewPatch, nextId: int)
    requires Invariant(reviews, items, nextId)
    ensures Invariant(PatchRow(reviews, id, p), items, nextId)
  {
    var r := PatchRow(reviews, id, p);
    forall i, j | 0 <= i < j < |r| ensures ReviewId(r[i]) != ReviewId(r[j]) && ReviewItem(r[i]) != ReviewItem(r[j]) {
      assert ReviewId(reviews[i]) != ReviewId(reviews[j]) && ReviewItem(reviews[i]) != ReviewItem(reviews[j]);
    }
    forall x | x in r ensures x.orderItemId in items && x.id < nextId {
      var i :| 0 <= i < |r| && r[i] == x;
      assert reviews[i] in reviews;
    }
  }

  /** After a patch the review is found again by its id. */
  lemma PatchedRowFound(reviews: seq<Review>, id: int, p: ReviewPatch, old_: Review)
    requires old_ in reviews && old_.id == id
    ensures Seqs.FindFirst(PatchRow(reviews, id, p), HasId(id)).Some?
  {
    var i :| 0 <= i < |reviews| && reviews[i] == old_;
    var r := PatchRow(reviews, id, p);
    assert r[i] in r && HasId(id)(r[i]);
  }

  /** Deleting keeps the invariant and removes exactly the review with that id. */
  lemma RemoveKeepsInvariant(reviews: seq<Review>, items: map<int, OrderItem>, id: int, nextId: int)
    requires Invariant(reviews, items, nextId)
    ensures Invariant(Seqs.Filter(reviews, IdIsNot(id)), items, nextId)
    ensures forall x :: x in Seqs.Filter(reviews, IdIsNot(id)) <==> x in reviews && x.id != id
  {
    Seqs.FilterUniqueBy(reviews, IdIsNot(id), ReviewId);
    Seqs.FilterUniqueBy(reviews, IdIsNot(id), ReviewItem);
    forall x ensures x in Seqs.Filter(reviews, IdIsNot(id)) <==> x in reviews && x.id != id {
      Seqs.FilterMembers(reviews, IdIsNot(id), x);
    }
  }

  /** The reviews of one product: those whose order item is for that product. */
  function ForProduct(items: map<int, OrderItem>, productId: int): Review -> bool {
    (r: Review) => r.orderItemId in items && items[r.orderItemId].productId == productId
  }

  /** How many of `s` have `rating == k`. */
  function CountRating(s: seq<Review>, k: int): (n: nat)
    ensures n <= |s|
  {
    if s == [] then 0 else CountRating(s[..|s| - 1], k) + (if s[|s| - 1].rating == k then 1 else 0)
  }

  function RatingOf(r: Review): int { r.rating }

  /** One step of the tally loop: counting one more review keeps every bucket equal to its count. */
  lemma TallyStep(d: map<int, nat>, s: seq<Review>, i: int)
    requires 0 <= i < |s|
    requires d.Keys == {1, 2, 3, 4, 5}
    requires forall k :: 1 <= k <= 5 ==> d[k] == CountRating(s[..i], k)
    ensures var e := if s[i].rating in d then d[s[i].rating := d[s[i].rating] + 1] else d;
            && e.Keys == {1, 2, 3, 4, 5}
            && forall k :: 1 <= k <= 5 ==> e[k] == CountRating(s[..i + 1], k)
  {
    assert s[..i + 1][..i] == s[..i];
    assert s[..i + 1][i] == s[i];
  }

  /** The star distribution of `reviewStats`: one bucket per star value, ratings outside 1..5 ignored. */
  method Tally(mine: seq<Review>) returns (d: map<int, nat>)
    ensures d.Keys == {1, 2, 3, 4, 5}
    ensures forall k :: 1 <= k <= 5 ==> d[k] == CountRating(mine, k)
  {
    d := map[1 := 0, 2 := 0, 3 := 0, 4 := 0, 5 := 0];
    for i := 0 to |mine|
      invariant d.Keys == {1, 2, 3, 4, 5}
      invariant forall k :: 1 <= k <= 5 ==> d[k] == CountRating(mine[..i], k)
    {
      TallyStep(d, mine, i);
      var rating := mine[i].rating;
      if rating in d {
        d := d[rating := d[rating] + 1];
      }
    }
    assert mine[..|mine|] == mine;
  }

  /** The mean rating, 0 for no reviews. */
  function Average(s: seq<Review>): real {
    if |s| == 0 then 0.0 else (Seqs.SumOf(s, RatingOf) as real) / (|s| as real)
  }

  /** `Math.round(x * 100) / 100` on exact reals. */
  function RoundToHundredths(x: real): (r: real)
    ensures x - 0.005 < r <= x + 0.005
  {
    ((x * 100.0 + 0.5).Floor as real) / 100.0
  }

  /** Star values all counted: for ratings in 1..5 the distribution adds up to the number of reviews. */
  lemma {:induction false} DistributionSums(s: seq<Review>)
    requires forall r :: r in s ==> 1 <= r.rating <= 5
    ensures CountRating(s, 1) + CountRating(s, 2) + CountRating(s, 3) + CountRating(s, 4) + CountRating(s, 5) == |s|
  {
    if s != [] {
      DistributionSums(s[..|s| - 1]);
      assert s[|s| - 1] in s;
    }
  }

  /** For ratings in 1..5 the ratings sum to between `|s|` and `5|s|`. */
  lemma {:induction false} RatingSumBounds(s: seq<Review>)
    requires forall r :: r in s ==> 1 <= r.rating <= 5
    ensures |s| <= Seqs.SumOf(s, RatingOf) <= 5 * |s|
  {
    if s != [] {
      RatingSumBounds(s[..|s| - 1]);
      assert s[|s| - 1] in s;
    }
  }

  /** With ratings in 1..5, a product with reviews has an average between 1 and 5. */
  lemma AverageBounds(s: seq<Review>)
    requires |s| > 0 && forall r :: r in s ==> 1 <= r.rating <= 5
    ensures 1.0 <= Average(s) <= 5.0
  {
    RatingSumBounds(s);
    QuotientBounds(Seqs.SumOf(s, RatingOf) as real, |s| as real);
  }

  /** A quotient `t / n` with `n <= t <= 5n` lies between 1 and 5. */
  lemma QuotientBounds(t: real, n: real)
    requires 0.0 < n && n <= t <= 5.0 * n
    ensures 1.0 <= t / n <= 5.0
  {
    var a := t / n;
    assert a * n == t;
    assert (a - 1.0) * n == t - n;
    assert (5.0 - a) * n == 5.0 * n - t;
  }

  /** The `review` table and the order items it refers to. */
  class ReviewStore {
    var reviews: seq<Review>
    var orderItems: map<int, OrderItem>
    var nextId: int

    ghost predicate Valid()
      reads this
    {
      Invariant(reviews, orderItems, nextId)
    }

    constructor (orderItems: map<int, OrderItem>)
      ensures Valid() && reviews == [] && this.orderItems == orderItems
    {
      this.orderItems := orderItems;
      reviews, nextId := [], 1;
    }

    /** `create`: an unknown order item is a 404, a reviewed one a 400; otherwise the review is stored. */
    method Create(dto: NewReview) returns (r: Reply)
      requires Valid()
      modifies this
      ensures Valid() && orderItems == old(orderItems)
      ensures reviews == Created(old(reviews), orderItems, dto, old(nextId))
      ensures r == CreateReply(old(reviews), orderItems, dto, old(nextId))
    {
      CreateKeepsInvariant(reviews, orderItems, dto, nextId);
      if dto.orderItemId !in orderItems {
        return Reply(404, "Order item not found", Some("Not Found"), None);
      }
      var existing := Seqs.FindFirst(reviews, ForItem(dto.orderItemId));
      if existing.Some? {
        return Reply(400, "Review already exists for this order item", Some("Bad Request"), None);
      }
      var review := NewRow(nextId, dto);
      reviews := reviews + [review];
      nextId := nextId + 1;
      r := Reply(201, "Review created successfully", None, Some(MapReview(review, orderItems[dto.orderItemId])));
    }

    /** `findOne`. */
    function FindOne(id: int): (r: Reply)
      requires Valid()
      reads this
      ensures r.status == 200 || r == Reply(404, "Review not found", Some("Not Found"), None)
      ensures r.status == 200 <==> exists x :: x in reviews && x.id == id
      ensures r.status == 200 ==> exists x :: x in reviews && x.id == id && r.data == Some(MapReview(x, orderItems[x.orderItemId]))
    {
      var found := Seqs.FindFirst(reviews, HasId(id));
      if found.None? then Reply(404, "Review not found", Some("Not Found"), None)
      else Reply(200, "Review retrieved successfully", None, Some(MapReview(found.value, orderItems[found.value.orderItemId])))
    }

    /** `update`: an unknown id is a 404 with no change; otherwise the fields sent are written. */
    method Update(id: int, p: ReviewPatch) returns (r: Reply)
      requires Valid()
      modifies this
      ensures Valid() && orderItems == old(orderItems) && nextId == old(nextId)
      ensures (forall x :: x in old(reviews) ==> x.id != id) ==>
                r == Reply(404, "Review not found", Some("Not Found"), None) && reviews == old(reviews)
      ensures (exists x :: x in old(reviews) && x.id == id) ==>
                reviews == PatchRow(old(reviews), id, p) && r.status == 200 && r.message == "Review updated successfully"
      ensures forall x :: x in old(reviews) && x.id == id ==>
                r.data == Some(MapReview(PatchReview(x, p), orderItems[x.orderItemId]))
    {
      var existing := Seqs.FindFirst(reviews, HasId(id));
      if existing.None? {
        return Reply(404, "Review not found", Some("Not Found"), None);
      }
      PatchKeepsInvariant(reviews, orderItems, id, p, nextId);
      PatchedRowFound(reviews, id, p, existing.value);
      reviews := PatchRow(reviews, id, p);
      var review := Seqs.FindFirst(reviews, HasId(id)).value;
      r := Reply(200, "Review updated successfully", None, Some(MapReview(review, orderItems[review.orderItemId])));
    }

    /** `remove`: an unknown id is a 404 with no change; otherwise exactly that review is deleted. */
    method Remove(id: int) returns (r: Reply)
      requires Valid()
      modifies this
      ensures Valid() && orderItems == old(orderItems) && nextId == old(nextId)
      ensures (forall x :: x in old(reviews) ==> x.id != id) ==>
                r == Reply(404, "Review not found", Some("Not Found"), None) && reviews == old(reviews)
      ensures (exists x :: x in old(reviews) && x.id == id) ==>
                reviews == Seqs.Filter(old(reviews), IdIsNot(id)) && r == Reply(200, "Review deleted successfully", None, None)
    {
      var existing := Seqs.FindFirst(reviews, HasId(id));
      if existing.None? {
        return Reply(404, "Review not found", Some("Not Found"), None);
      }
      RemoveKeepsInvariant(reviews, orderItems, id, nextId);
      reviews := Seqs.Filter(reviews, IdIsNot(id));
      r := Reply(200, "Review deleted successfully", None, None);
    }

    /**
     * `getReviewStatsByProductId`: the product's reviews are counted, averaged, and tallied
     * one by one into the five star counters.
     */
    method ReviewStats(productId: int) returns (r: StatsReply)
      ensures var mine := Seqs.Filter(reviews, ForProduct(orderItems, productId));
              && r.status == 200 && r.message == "Review statistics retrieved successfully"
              && r.data.totalReviews == |mine|
              && r.data.averageRating == RoundToHundredths(Average(mine))
              && r.data.ratingDistribution.Keys == {1, 2, 3, 4, 5}
              && forall k :: 1 <= k <= 5 ==> r.data.ratingDistribution[k] == CountRating(mine, k)
    {
      var mine := Seqs.Filter(reviews, ForProduct(orderItems, productId));
      var totalReviews := |mine|;
      var averageRating := if totalReviews > 0 then (Seqs.SumOf(mine, RatingOf) as real) / (totalReviews as real) else 0.0;
      var ratingDistribution := Tally(mine);
      r := StatsReply(200, "Review statistics retrieved successfully",
                      Stats(totalReviews, RoundToHundredths(averageRating), ratingDistribution));
    }
  }
}

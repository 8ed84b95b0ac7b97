# Sugar Paws storefront back end: a verified model of its core

This project models the business logic of the Sugar Paws fashion storefront back end, a
NestJS service over a Prisma database. It covers:

- **Voucher ledger**: eligibility checks and the discount preview; created, updated, deleted and redeemed vouchers.
- **Catalogue query pipeline**:
  - category-descendant expansion;
  - de-duplication by product id;
  - per-product aggregates;
  - conjunctive filters, key sorts and pagination;
  - related-product ranking;
  - the display-image list kept on update;
  - the id checks of product create and bulk delete.
- **Older product service**: its exact-name, direct-link listing and its size and colour lists.
- **Cart**, newer and older services:
  - adding, with a merge by variant under a stock cap;
  - removal checked against the owner;
  - changing a quantity or swapping the variant;
  - the quantity-0 dispatch of the PATCH route;
  - the cart read with its line totals and cart total.
- **Shipping-address book**, where each user has at most one default address.
- **Product reviews**: one per order item, and per-product statistics.
- **Product variants**: the size-or-colour guard, the image choice, and the image table upserted by URL.
- **Small pieces**: the dashboard percentage change, chat keyword extraction, the chat fallback reply and message assembly, and the logout token blacklist.

Each database table is a field of a class, held as a `seq` of rows in table order or as a `map` keyed by its unique column. Each state-changing service method is a `method` that changes those fields; the reads and the pure steps are functions over the fields they read. Each method's contract states its reply and its new state, branch by branch, mostly through specification functions, and the properties the service promises are proved as lemmas about those functions.

Three things the source takes from outside are parameters:

- `now` for the clock;
- `lower` for `String.prototype.toLowerCase`;
- the URL the image host returns for an upload.

Modules, one per file:

- `Wrappers`, `Seqs`: Option, and sequence helpers. The helpers are distinct, filter, sum, stable insertion sort, substring and JavaScript `slice`.
- `VoucherLedger`: the voucher service.
- `Categories`, `Catalogue`, `ProductStore`: the newer product service.
- `LegacyCatalogue`: the older product service.
- `CartItems`, `CartStore`: the newer cart-item and cart services.
- `LegacyCart`: the older cart-item service.
- `ShippingAddresses`, `Reviews`, `VariantImages`: the address, review and product-detail services.
- `Dashboard`, `ChatContext`, `Chat`, `Logout`: the small pieces.

## Model

| member | source | states |
|---|---|---|
| VoucherLedger.BaseAmount | src/modules/voucher/voucher.service.ts:322-326 | a DISCOUNT voucher's base plus the shipping fee (0 when absent) is the order amount; a SHIPPING voucher's base is the shipping fee or 0 |
| VoucherLedger.DiscountAmount | src/modules/voucher/voucher.service.ts:326-355 | a fixed discount is the smaller of its value and the base; a percentage discount is exactly base × value / 100 without a cap, and the smaller of that share and the cap when a non-zero cap is set |
| VoucherLedger.PercentageWithinBase | src/modules/voucher/voucher.service.ts:328-335 | a percentage of at most 100 with a non-negative cap gives a discount between 0 and the base |
| VoucherLedger.PercentageIsProportional | src/modules/voucher/voucher.service.ts:328-331 | with no cap, the percentage discount is exactly base × value / 100 |
| VoucherLedger.CheckReportsFirstFailure | src/modules/voucher/voucher.service.ts:275-355 | a found voucher passes iff active, inside `startDate <= now <= endDate`, under a set cap, unused by the user and meeting a set non-zero minimum; each refusal names exactly the first failing rule, in order active, start, end, cap, use, minimum; a pass carries the computed discount |
| VoucherLedger.Ledger.ValidateVoucher | src/modules/voucher/voucher.service.ts:260-365 | "not found" iff the code is unknown; otherwise valid iff every rule holds for that voucher and the user's usage row; a valid result carries the discount of the computed base |
| VoucherLedger.UsedVoucherIsRefused | src/modules/voucher/voucher.service.ts:297-311 | once the user has a usage row for the voucher, validation refuses it whatever the amounts and date |
| VoucherLedger.Ledger.ApplyVoucher | src/modules/voucher/voucher.service.ts:367-406 | an unknown code fails with nothing changed; an existing usage row fails with nothing changed; otherwise exactly one usage row is added, the count becomes old + 1, and the voucher is then refused to that user |
| VoucherLedger.CreateRejection | src/modules/voucher/voucher.service.ts:23-62 | no rejection iff the code is free, start < end, now < end, a percentage is in (0, 100] and a fixed amount is > 0; a taken code is the conflict; other rejections are bad requests |
| VoucherLedger.Ledger.CreateVoucher | src/modules/voucher/voucher.service.ts:19-86 | a rejected draft stores nothing; an accepted one always succeeds and stores exactly one new voucher under its code, carrying every field of the draft, the next id, usage count 0 and `isActive` defaulting to true |
| VoucherLedger.Patched | src/modules/voucher/voucher.service.ts:190-201 | each present field is written and the rest are kept, as are the id and the usage count; an empty patch changes nothing |
| VoucherLedger.UpdateRejection | src/modules/voucher/voucher.service.ts:162-216 | an update is accepted iff no non-empty new code is held by another voucher, a given date leaves start < end, and the patched code does not clash in the unique index; a held code is the conflict, every other refusal a bad request |
| VoucherLedger.UpdateRefusesDateOrder | src/modules/voucher/voucher.service.ts:176-188 | a given date that leaves the start at or after the end is refused with "Start date must be before end date" |
| VoucherLedger.Ledger.UpdateVoucher | src/modules/voucher/voucher.service.ts:149-218 | an unknown id is "not found" with nothing changed; a refused update changes nothing and returns its refusal; an accepted one succeeds, stores the patched voucher under its new code and touches nothing else |
| VoucherLedger.Ledger.DeleteVoucher | src/modules/voucher/voucher.service.ts:220-258 | an unknown id is "not found"; a voucher with any usage row is kept with a bad request; otherwise exactly that voucher is removed |
| Categories.ChildrenOf | src/modules/product/product.service.ts:183-185 | exactly the rows whose parent is the id, with unique ids when the table's are |
| Categories.FindByName | src/modules/product/product.service.ts:171-173 | a found row carries the name; nothing found means no row carries it |
| Categories.FindByNameUnique | src/modules/product/product.service.ts:171-173 | with unique names, the lookup finds the one row with the name |
| Categories.NormalizeName | src/modules/product/product.service.ts:170 | the lower-cased slug with every '-' replaced by a space, same length, with no '-' left |
| Categories.GetAllChildCategoryIds | src/modules/product/product.service.ts:180-198 | the loop that pushes each child's expansion returns the pre-order expansion: the id, then each child's expansion in row order |
| Categories.ExpandIsSelfAndDescendants | src/modules/product/product.service.ts:180-198 | on an acyclic forest, an id is in the expansion iff it is the root or a transitive descendant |
| Categories.ExpandNoDup | src/modules/product/product.service.ts:180-198 | the expansion repeats no id |
| Categories.ExpansionShape | src/modules/product/product.service.ts:187-198 | the expansion starts with the root, has no repeats, and holds every child of each of its members |
| Categories.NestedExpansion | src/modules/product/product.service.ts:189-192 | expansion is transitive: it contains the expansion of each of its members |
| Catalogue.MaxPrice | src/modules/product/product.service.ts:255-257 | 0 without variants; otherwise a variant's price that no variant's price exceeds |
| Catalogue.MinPrice | src/modules/product/product.service.ts:258-260 | 0 without variants; otherwise a variant's price below which no variant's price lies |
| Catalogue.NonNullDistinct | src/modules/product/product.service.ts:234-265 | dropping nulls after removing repeats gives the same list as removing repeats after dropping nulls |
| Catalogue.Colors | src/modules/product/product.service.ts:261-265 | a colour is listed iff some variant has it, and none twice |
| Catalogue.Sizes | src/modules/product/product.service.ts:234-242 | a size is listed iff some variant has it, and none twice |
| Catalogue.TotalStockPositive | src/modules/product/product.service.ts:246-249 | with non-negative stocks the total is non-negative, and positive iff some variant is in stock |
| Catalogue.DedupeById | src/modules/product/product.service.ts:217-225 | no two kept rows share an id; every kept row is an input row; every input id is kept |
| Catalogue.FiltersAreConjunctive | src/modules/product/product.service.ts:277-313 | the filters applied in turn give, in order, exactly the items passing all requested filters |
| Catalogue.FilteredMember | src/modules/product/product.service.ts:277-313 | an item survives iff it is an input and passes the colour-list, size-list, availability and price-range tests requested |
| Catalogue.ApplySortPermutes | src/modules/product/product.service.ts:315-329 | the sorted list is a permutation of the filtered list |
| Catalogue.ApplySortOrders | src/modules/product/product.service.ts:315-329 | no key keeps the order; priceAsc orders by min price ascending, priceDesc by max price descending, bestSelling by total sales descending |
| Catalogue.PageWindow | src/modules/product/product.service.ts:331-335 | page p of size n holds exactly the existing elements at positions (p-1)·n up to p·n, in order |
| Catalogue.ListingMembers | src/modules/product/product.service.ts:217-335 | each listed product is a fetched row, passes every requested filter, and carries its own aggregates |
| Catalogue.ListingUnique | src/modules/product/product.service.ts:217-225 | no product is listed twice, however many matching categories link it |
| Catalogue.PageUniqueBy | src/modules/product/product.service.ts:331-335 | a page of a list without repeated products has none either |
| Catalogue.ListingCounts | src/modules/product/product.service.ts:331-335 | `totalProducts` counts the whole filtered list; a page never exceeds the page size |
| Catalogue.NoVariantsNeverListed | src/modules/product/product.service.ts:306-313 | when a price range is given, a product without variants is never listed |
| Catalogue.SharedTagCount | src/modules/product/product.service.ts:795 | at most the product's tag count, and positive iff some tag is shared |
| Catalogue.RelatedOf | src/modules/product/product.service.ts:772-798 | at most five; none when the product has no tags; otherwise min(5, number of candidates) |
| Catalogue.RelatedMembers | src/modules/product/product.service.ts:780-790 | each related product is another product of the table sharing at least one tag |
| Catalogue.RelatedOrdered | src/modules/product/product.service.ts:792-797 | related products come in non-increasing shared-tag count |
| Catalogue.RelatedTopFive | src/modules/product/product.service.ts:792-798 | no candidate left out shares more tags than any listed one |
| Catalogue.FinalDisplayImages | src/modules/product/product.service.ts:592-618 | the stored image list has no repeats and at most ten entries |
| Catalogue.DisplayImagesOrigin | src/modules/product/product.service.ts:592-618 | each stored image is a supplied http(s) URL, a current image (when no list is supplied) or an upload; the kept images come first in their order; with at most ten distinct URLs none is lost |
| Catalogue.DisplayImagesFrom | src/modules/product/product.service.ts:595-614 | each stored image is an upload, a supplied http(s) URL, or (with no list supplied) a current image |
| Catalogue.DisplayImagesComplete | src/modules/product/product.service.ts:614-618 | with at most ten distinct kept and uploaded URLs, every one of them is stored |
| ProductStore.FindProduct | src/modules/product/product.service.ts:765-771 | a found row has the id; nothing found iff no row has it |
| ProductStore.LinkedProducts | src/modules/product/product.service.ts:201-214 | only products linked to one of the ids are fetched, and every such link's product is fetched |
| ProductStore.Truthy | src/modules/product/product.service.ts:409 | `filter(Boolean)` keeps exactly the present, non-empty strings |
| ProductStore.CategorySizes | src/modules/product/product.service.ts:403-409 | distinct, and a size is listed iff it is non-empty and some linked variant has it |
| ProductStore.CategoryColors | src/modules/product/product.service.ts:474-480 | distinct, and a colour is listed iff it is non-empty and some linked variant has it |
| ProductStore.UnknownIds | src/modules/product/product.service.ts:526-528 | exactly the requested ids the table lacks, never more entries than were requested |
| ProductStore.NewLinks | src/modules/product/product.service.ts:542-550 | one link per requested category, in order, all for the product |
| ProductStore.Patched | src/modules/product/product.service.ts:621-629 | sent fields replace the stored ones; the id and the variants are kept; the image list is the normalised one |
| ProductStore.Store.CategoryOf | src/modules/product/product.service.ts:170-173 | a category found for the normalised slug is a row of the table |
| ProductStore.Store.FindByCategory | src/modules/product/product.service.ts:159-352 | the method's loops and in-place steps give the pipeline's result: an unknown category is a 500; otherwise expand, fetch links, dedupe, aggregate, filter, sort and page |
| ProductStore.Store.CategoryListingMembers | src/modules/product/product.service.ts:180-313 | each listed product is linked to the category or a descendant, passes every requested filter, and carries its own aggregates |
| ProductStore.Store.CategoryListingUnique | src/modules/product/product.service.ts:217-225 | a category listing names each product once |
| ProductStore.Store.CategoryListingComplete | src/modules/product/product.service.ts:180-331 | a product linked to the category or a descendant and passing the filters is counted in `totalProducts` |
| ProductStore.Store.FindSizesByCategory | src/modules/product/product.service.ts:353-422 | an unknown category is a 500; otherwise the distinct non-empty sizes of the products linked to the category or a descendant |
| ProductStore.Store.FindColorsByCategory | src/modules/product/product.service.ts:424-493 | the same for colours |
| ProductStore.Store.Create | src/modules/product/product.service.ts:495-570 | with any unknown category id, a bad request lists every unknown id and nothing is stored; otherwise one product, with the uploads as images, and one link per category |
| ProductStore.UpdatedProduct | src/modules/product/product.service.ts:591-629 | the updated product keeps its id and variants, and its image list has no repeats and at most ten entries |
| ProductStore.RelinkedContents | src/modules/product/product.service.ts:631-643 | after relinking, other products keep their links and this product has exactly one link per requested category that exists |
| ProductStore.Store.Update | src/modules/product/product.service.ts:572-663 | an unknown id is a 404 with nothing changed; otherwise the row is patched with the normalised images; a category list replaces the links; a category id that does not exist is a 500 after the writes |
| ProductStore.Store.DeleteMany | src/modules/product/product.service.ts:678-723 | with any missing id, a 404 lists every missing id and nothing is deleted; otherwise exactly those products and their links go, and the counts are reported |
| ProductStore.Store.FindRelatedProducts | src/modules/product/product.service.ts:760-841 | succeeds iff the product exists, with the ranked related list of its tags |
| LegacyCatalogue.LegacySummary | src/product/product.service.ts:152-183 | stock and sales sums, max and min price, and distinct non-null colours, with no size list |
| LegacyCatalogue.FindByCategory | src/product/product.service.ts:122-240 | the method's filtering steps and sort give exactly the older pipeline's result: exact-name lookup (unknown is a 500), direct links only, single-value filters, sort and no paging |
| LegacyCatalogue.LegacyListingMembers | src/product/product.service.ts:131-218 | each listed product is linked directly to the exactly named category and passes every requested filter |
| LegacyCatalogue.LegacyListingComplete | src/product/product.service.ts:150-218 | each directly linked product that passes the filters is listed |
| LegacyCatalogue.CategorySizeValues | src/product/product.service.ts:260-270 | distinct, and a value, the null one included, is listed iff some linked variant has it |
| LegacyCatalogue.CategoryColorValues | src/product/product.service.ts:302-312 | the same for colours |
| LegacyCatalogue.FindSizesByCategory | src/product/product.service.ts:242-282 | looks up the normalised slug; an unknown category is a 500; otherwise the size values of its direct links |
| LegacyCatalogue.FindColorsByCategory | src/product/product.service.ts:284-324 | the same for colours |
| CartItems.FindLine | src/modules/cart/cart-item/cart-item.service.ts:56-58 | a found line belongs to the cart and names the variant |
| CartItems.FindLineNone | src/modules/cart/cart-item/cart-item.service.ts:56-58 | no line is found iff the cart holds none for the variant |
| CartItems.LineById | src/modules/cart/cart-item/cart-item.service.ts:173-175 | a found line has the id; nothing found iff no line has it |
| CartItems.SetQuantity | src/modules/cart/cart-item/cart-item.service.ts:184-186 | only the line with the id gets the new quantity |
| CartItems.RemoveLine | src/modules/cart/cart-item/cart-item.service.ts:146-148 | exactly the lines without that id remain |
| CartItems.AddKeepsPairsUnique | src/modules/cart/cart-item/cart-item.service.ts:55-103 | an add never creates a second line of one cart for one variant, and keeps ids unique |
| CartItems.AddMergesQuantity | src/modules/cart/cart-item/cart-item.service.ts:55-103 | accepted iff held + requested fits the stock, and then the cart holds the sum; refused, the lines stay |
| CartItems.AddLeavesOthers | src/modules/cart/cart-item/cart-item.service.ts:55-103 | lines of other carts or variants are untouched |
| CartItems.RemoveExactlyOne | src/modules/cart/cart-item/cart-item.service.ts:146-153 | with unique ids, removal deletes exactly the one line and keeps all the others |
| CartItems.LineViews | src/modules/cart/cart.service.ts:34-55 | one view per cart line, in order, each with quantity × price and the product's name |
| CartItems.CartTotalIsSumOfLines | src/modules/cart/cart.service.ts:57-62 | the cart total equals the sum of the line totals |
| CartStore.WithCart | src/modules/cart/cart-item/cart-item.service.ts:36-44 | an existing cart is kept; a missing one is created with the next id; other users' carts are untouched |
| CartStore.Carts.EnsureCart | src/modules/cart/cart-item/cart-item.service.ts:36-44 | the user's cart afterwards exists, is the old one when there was one and a new one with the next id otherwise; lines, users and variants are untouched |
| CartStore.AddReplyReports | src/modules/cart/cart-item/cart-item.service.ts:64-104 | a 400 iff held + requested exceeds the stock, with the lines kept; otherwise the returned line is the cart's line for the variant, with the summed quantity |
| CartStore.AddKeepsValid | src/modules/cart/cart-item/cart-item.service.ts:55-103 | an add keeps every line in a known cart with a known variant, and line ids unique and below the next id |
| CartStore.Carts.AddCartItem | src/modules/cart/cart-item/cart-item.service.ts:17-112 | an unknown user is a 404 with nothing created; otherwise the cart exists afterwards; an unknown variant is a 500; a held + requested quantity above the stock is a 400; else the line grows (200) or is added (201) |
| CartStore.Carts.AddToCart | src/modules/cart/cart-item/cart-item.service.ts:47-104 | the add once the cart is known: the lines become the merged lines and the reply reports them |
| CartStore.Carts.RemoveCartItem | src/modules/cart/cart-item/cart-item.service.ts:114-161 | a 404 with no change when the user has no cart or the line is another cart's; otherwise exactly that line is deleted |
| CartStore.Carts.UpdateCartItem | src/modules/cart/cart-item/cart-item.service.ts:163-229 | a missing line is a 500; without a new variant, the quantity is set iff the line's variant has the stock; with one, the line is swapped iff the new variant exists and has the stock; every failure is a 500 with no change |
| CartStore.Carts.SetLineQuantity | src/modules/cart/cart-item/cart-item.service.ts:178-192 | the quantity is set iff it fits the current variant's stock, else a 500 and no change |
| CartStore.Carts.SwapLineVariant | src/modules/cart/cart-item/cart-item.service.ts:195-221 | an unknown or short new variant is a 500 with no change; otherwise the old line is replaced by a new line in the same cart |
| CartStore.Carts.PatchCartItem | src/modules/cart/cart-item/cart-item.controller.ts:59-68 | a quantity of 0 has exactly the outcomes of the removal (404 without a cart or for a foreign line, else the line deleted with a 200); any other quantity has exactly the outcomes of the update |
| CartStore.Carts.LinesOf | src/modules/cart/cart.service.ts:14-27 | exactly the lines that belong to the cart |
| CartStore.Carts.GetCartByUserId | src/modules/cart/cart.service.ts:13-71 | a user without a cart is "not found"; otherwise the views of the cart's lines in order, each with its own variant, its product's name and quantity × its own price, and the total is the sum of the line totals |
| LegacyCart.AddCartItem | src/cart/cart-item/cart-item.service.ts:17-71 | creates the missing cart first; an unknown variant is a 500; a requested quantity above the stock is a 400 with no line; otherwise a new line is always appended |
| LegacyCart.UpdateCartItem | src/cart/cart-item/cart-item.service.ts:122-170 | always a swap: the old line is replaced by one in the same cart iff the new variant exists and has the stock; a missing line, a missing new variant and a quantity over its stock each give the 500 with the source's own error text and no change |
| LegacyCart.AppendCanDuplicate | src/cart/cart-item/cart-item.service.ts:51-63 | appending for a variant already in the cart leaves two lines of that cart for the variant |
| ShippingAddresses.ClearDefaults | src/modules/address/shipping-address/shipping-address.service.ts:142-155 | only default flags change: they are cleared on the user's rows other than the exception; other users' rows are untouched |
| ShippingAddresses.ClearDefaultsIdempotent | src/modules/address/shipping-address/shipping-address.service.ts:178-188 | clearing twice is clearing once, so the second clear in `update` changes nothing |
| ShippingAddresses.Created | src/modules/address/shipping-address/shipping-address.service.ts:81-121 | a default request first clears the user's defaults; one row is appended, with `moreDetail` defaulting to ''; it is the default when asked for or when it is the user's first |
| ShippingAddresses.FirstAddressIsDefault | src/modules/address/shipping-address/shipping-address.service.ts:94-101 | a user's first address is stored as the default whatever flag was sent |
| ShippingAddresses.CreateKeepsInvariant | src/modules/address/shipping-address/shipping-address.service.ts:81-127 | `create` keeps unique ids below the next one and at most one default per user |
| ShippingAddresses.Patch | src/modules/address/shipping-address/shipping-address.service.ts:157-176 | a supplied field takes the new value; the rest, the id and the owner keep theirs |
| ShippingAddresses.PatchRow | src/modules/address/shipping-address/shipping-address.service.ts:190-192 | only the row with the id is patched |
| ShippingAddresses.PatchKeepsInvariant | src/modules/address/shipping-address/shipping-address.service.ts:157-192 | patching the user's own row keeps the invariant when, if it becomes the default, no other default of the user remains |
| ShippingAddresses.UpdateKeepsInvariant | src/modules/address/shipping-address/shipping-address.service.ts:141-192 | an update by the owner keeps the at-most-one-default invariant and every row's id |
| ShippingAddresses.Removed | src/modules/address/shipping-address/shipping-address.service.ts:237-263 | no row with the removed address's id remains |
| ShippingAddresses.Promote | src/modules/address/shipping-address/shipping-address.service.ts:250-257 | only the row with the id is made the default |
| ShippingAddresses.RemoveKeepsOthers | src/modules/address/shipping-address/shipping-address.service.ts:261-263 | every other row survives removal, with at most its default flag raised |
| ShippingAddresses.RemovePromotes | src/modules/address/shipping-address/shipping-address.service.ts:239-259 | removing the default while the user has other addresses leaves one of them the default |
| ShippingAddresses.RemoveKeepsInvariant | src/modules/address/shipping-address/shipping-address.service.ts:218-269 | `remove` keeps the invariant |
| ShippingAddresses.AddressBook.FindByUserId | src/modules/address/shipping-address/shipping-address.service.ts:17-42 | exactly the user's addresses, each once, ordered default first |
| ShippingAddresses.AddressBook.DefaultListedFirst | src/modules/address/shipping-address/shipping-address.service.ts:33-35 | the user's default address, when there is one, heads the list |
| ShippingAddresses.AddressBook.FindOne | src/modules/address/shipping-address/shipping-address.service.ts:49-69 | the row with the id and a 200, or a 404 without data iff there is none |
| ShippingAddresses.AddressBook.Create | src/modules/address/shipping-address/shipping-address.service.ts:77-127 | the table becomes `Created(...)` and the reply returns the new row, under the invariant |
| ShippingAddresses.AddressBook.Update | src/modules/address/shipping-address/shipping-address.service.ts:136-210 | for the owner's row: the other defaults are cleared when asked, the supplied fields are written, and the updated row is returned |
| ShippingAddresses.AddressBook.Remove | src/modules/address/shipping-address/shipping-address.service.ts:218-269 | a missing or foreign row is a 404 with nothing changed; otherwise the table becomes `Removed(...)` and the row is returned |
| ShippingAddresses.AddressBook.PatchAddress | src/modules/address/shipping-address/shipping-address.controller.ts:114-134 | an unknown id is a 404 and another user's row a 403, both with no change; the owner's request is the update |
| ShippingAddresses.AddressBook.DeleteAddress | src/modules/address/shipping-address/shipping-address.controller.ts:147-162 | an unknown id is a 404 and another user's row a 403, both with no change; the owner's request is the removal |
| ShippingAddresses.AddressBook.GetAddress | src/modules/address/shipping-address/shipping-address.controller.ts:93-101 | the row with the id, or a 404 when there is none |
| Reviews.UserName | src/modules/review/review.service.ts:41-43 | the buyer's name when it is non-empty, else the username |
| Reviews.MapReview | src/modules/review/review.service.ts:31-49 | the review's own fields, an empty comment dropped, the buyer's name, and the product and order of its item |
| Reviews.Created | src/modules/review/review.service.ts:56-99 | one review is appended iff the order item exists and has none; otherwise nothing is stored |
| Reviews.CreateReply | src/modules/review/review.service.ts:51-133 | a 404 iff the item is unknown; a 400 iff it already has a review; a 201 iff the review is stored, returning exactly the given rating |
| Reviews.SecondReviewRefused | src/modules/review/review.service.ts:81-91 | a second review for the same order item is a 400 and stores nothing |
| Reviews.CreateKeepsInvariant | src/modules/review/review.service.ts:94-99 | `create` keeps ids unique, one review per order item, and every review's item known |
| Reviews.PatchReview | src/modules/review/review.service.ts:251-253 | sent fields are written; the id, order item and verification flag are kept |
| Reviews.PatchKeepsInvariant | src/modules/review/review.service.ts:251-270 | an update keeps the table invariant |
| Reviews.RemoveKeepsInvariant | src/modules/review/review.service.ts:303-305 | deletion removes exactly the review with the id and keeps the invariant |
| Reviews.CountRating | src/modules/review/review.service.ts:351-354 | a count that never exceeds the number of reviews |
| Reviews.Tally | src/modules/review/review.service.ts:351-354 | the counting loop leaves exactly the five buckets 1..5, each holding the number of reviews with that rating |
| Reviews.DistributionSums | src/modules/review/review.service.ts:344-354 | for ratings in 1..5 the five counts add up to `totalReviews` |
| Reviews.RoundToHundredths | src/modules/review/review.service.ts:361 | the rounded average lies within half a hundredth of the average |
| Reviews.RatingSumBounds | src/modules/review/review.service.ts:345-349 | the ratings sum to between n and 5n |
| Reviews.AverageBounds | src/modules/review/review.service.ts:345-349 | a product with reviews rated 1..5 has an average between 1 and 5 |
| Reviews.ReviewStore.Create | src/modules/review/review.service.ts:51-133 | the table becomes `Created(...)` and the reply is `CreateReply(...)`, under the invariant |
| Reviews.ReviewStore.FindOne | src/modules/review/review.service.ts:186-231 | a 404 iff no review has the id; otherwise the mapped review |
| Reviews.ReviewStore.Update | src/modules/review/review.service.ts:233-287 | an unknown id is a 404 with no change; otherwise exactly that review is patched, and the 200 reply carries the patched review mapped |
| Reviews.ReviewStore.Remove | src/modules/review/review.service.ts:289-320 | an unknown id is a 404 with no change; otherwise exactly that review is deleted |
| Reviews.ReviewStore.ReviewStats | src/modules/review/review.service.ts:322-373 | the product's review count, its rounded average (0 without reviews), and one count per star value |
| VariantImages.RequestedUrl | src/modules/product-detail/product-detail.service.ts:33-54 | an uploaded file wins; else a non-empty `imageUrl`; else none |
| VariantImages.Upserted | src/modules/product-detail/product-detail.service.ts:38-42 | a known URL leaves the image table as it was; a new URL appends one image |
| VariantImages.UpsertedId | src/modules/product-detail/product-detail.service.ts:38-44 | the id of the existing image with the URL, or the new image's id |
| VariantImages.UpsertKeepsImagesValid | src/modules/product-detail/product-detail.service.ts:38-51 | the upsert never creates a second image for a URL, and the returned id carries that URL |
| VariantImages.UpsertIdempotent | src/modules/product-detail/product-detail.service.ts:114-128 | upserting a URL again reuses its image and changes nothing |
| VariantImages.ImageUrl | src/modules/product-detail/product-detail.service.ts:75 | the URL of the image the id names, or none |
| VariantImages.PatchVariant | src/modules/product-detail/product-detail.service.ts:132-143 | the sent fields and the chosen image are written; the id and the product are kept |
| VariantImages.AppendKeepsVariantsValid | src/modules/product-detail/product-detail.service.ts:63-66 | a new variant with a fresh id, a known image and a known product keeps the table invariant |
| VariantImages.VariantStore.UpsertImage | src/modules/product-detail/product-detail.service.ts:38-42 | the image table becomes `Upserted(...)` and the id returned carries the URL |
| VariantImages.VariantStore.Create | src/modules/product-detail/product-detail.service.ts:22-84 | neither size nor colour is a 500 with nothing stored; otherwise the requested image is upserted (or none); the variant is stored iff its product exists, else a 500 |
| VariantImages.VariantStore.Update | src/modules/product-detail/product-detail.service.ts:86-164 | the guard runs first (a 500); an unknown id is a 404 with no change; otherwise the image is the upload's, else the URL's, else the current one, the sent fields are written, and the 200 reply carries the patched variant with its image URL |
| VariantImages.VariantStore.FindById | src/modules/product-detail/product-detail.service.ts:181-199 | the variant with the id, or a 404 iff there is none |
| VariantImages.VariantStore.Delete | src/modules/product-detail/product-detail.service.ts:166-179 | a missing id is a 404 with no change; otherwise exactly that variant is removed |
| Dashboard.Round | src/modules/dashboard/dashboard.service.ts:145 | `Math.round`: the integer within half of x, halves rounded up |
| Dashboard.PercentageChange | src/modules/dashboard/dashboard.service.ts:141-146 | with a non-zero base, the rounded relative change in percent |
| Dashboard.FromZero | src/modules/dashboard/dashboard.service.ts:142-143 | from a zero base, 100 for a rise and 0 otherwise |
| Dashboard.IntegerForm | src/modules/dashboard/dashboard.service.ts:145 | with a positive base p, the change is ⌊(200·(c − p) + p) / (2p)⌋ |
| Dashboard.NoChangeAndDoubling | src/modules/dashboard/dashboard.service.ts:145 | no change is 0 and doubling is 100 |
| Dashboard.Monotone | src/modules/dashboard/dashboard.service.ts:145 | for a fixed positive base the change never falls as the current figure grows |
| Dashboard.NotBelowMinusHundred | src/modules/dashboard/dashboard.service.ts:145 | a non-negative figure against a positive base is never below −100 |
| Logout.Invalidated | src/auth/logout.service.ts:7-9 | the token is in the new set and every other token keeps its status |
| Logout.InvalidateIdempotent | src/auth/logout.service.ts:7-9 | invalidating twice equals invalidating once |
| Logout.InvalidateCommutes | src/auth/logout.service.ts:7-9 | the blacklist does not depend on the order of logouts |
| Logout.LogoutService.constructor | src/auth/logout.service.ts:5 | a fresh service has invalidated no token |
| Logout.LogoutService.InvalidateToken | src/auth/logout.service.ts:7-13 | afterwards the token is refused and every other token's status is unchanged |
| ChatContext.Contained | src/modules/chat/chat-context.service.ts:118-122 | at most one keyword per listed term |
| ChatContext.Keywords | src/modules/chat/chat-context.service.ts:99-146 | at most 24 keywords |
| ChatContext.PushContained | src/modules/chat/chat-context.service.ts:118-122 | one `forEach` appends, in list order, each term the message contains |
| ChatContext.ExtractKeywords | src/modules/chat/chat-context.service.ts:99-146 | the two push loops over the lower-cased message give its keywords |
| ChatContext.KeywordsInListOrder | src/modules/chat/chat-context.service.ts:104-144 | the keywords are the contained terms of the category list then the type list, in list order |
| ChatContext.KeywordMembership | src/modules/chat/chat-context.service.ts:118-143 | a term is a keyword iff it is listed and the lower-cased message contains it |
| ChatContext.NoTermNoKeywords | src/modules/chat/chat-context.service.ts:99-146 | no keywords iff the message contains no listed term |
| ChatContext.ContainedCount | src/modules/chat/chat-context.service.ts:118-143 | a contained term occurs once per listing, and otherwise never |
| ChatContext.JacketNotAType | src/modules/chat/chat-context.service.ts:125-138 | "jacket" is not in the type list |
| ChatContext.JacketTwice | src/modules/chat/chat-context.service.ts:104-122 | a message containing "jacket" yields it twice, and otherwise not at all |
| ChatContext.JacketListedTwice | src/modules/chat/chat-context.service.ts:104-117 | "jacket" is listed twice among the categories |
| ChatContext.SubstringsAlsoMatch | src/modules/chat/chat-context.service.ts:111-132 | a message containing "quần áo" also yields "áo" and "quần" |
| Chat.ChainsTestGroups | src/modules/chat/chat.service.ts:227-262 | each `includes` chain tests exactly its group of terms, in order |
| Chat.RepliesDistinct | src/modules/chat/chat.service.ts:238-261 | the four replies are distinct and non-empty |
| Chat.FallbackRouting | src/modules/chat/chat.service.ts:227-262 | a product term selects the catalogue reply, even with order terms; else an order term selects the account reply; else a size or return term the size-guide reply; else the generic reply |
| Chat.RecentHistory | src/modules/chat/chat.service.ts:57-61 | the first min(5, n) records, newest first |
| Chat.ConversationHistory | src/modules/chat/chat.service.ts:64-70 | k records become 2k messages, oldest exchange first, the user's message and then the answer |
| Chat.HistoryAlternates | src/modules/chat/chat.service.ts:64-70 | the flattened history alternates user and assistant, starting with the user |
| Chat.Messages | src/modules/chat/chat.service.ts:120-124 | the system prompt first, then the history unchanged, then the user's message last |
| Chat.MessagesAlternate | src/modules/chat/chat.service.ts:120-124 | around an alternating even-length history, the messages after the prompt still alternate, the user on odd positions |
| Chat.OutgoingShape | src/modules/chat/chat.service.ts:57-124 | an even number of 2 to 12 messages: the prompt, then strictly alternating user and assistant, ending with the current message |
| Chat.BotResponse | src/modules/chat/chat.service.ts:127-143 | the model's non-empty text when it answered; the fixed apology when it answered with no or empty text; the keyword fallback reply for the message when the call failed; never empty |
| Chat.FormatProductsForContext | src/modules/chat/chat.service.ts:210-226 | '' for no products; otherwise the text starts with the header |
| Chat.FormatLinksEveryProduct | src/modules/chat/chat.service.ts:215-223 | the link of every matched product appears in the text |

## Behaviour kept as written

- `addCartItem` of both cart services creates a missing cart before looking up the variant. The cart stays even when the call then fails with a 500 or a 400.
- The variant `create` upserts the image before creating the variant. The image stays when the create fails.
- The newer `findByCategory`, `findSizesByCategory` and `findColorsByCategory` throw "not found" for an unknown category. Their `catch` turns that into a 500, which is what the model returns.
- The variant `update` checks the size-or-colour rule before it looks the variant up. A bad patch for a missing id is therefore a 500, not a 404.
- `updateVoucher` skips the code-conflict check for an empty code, because it tests the code's truthiness.
- The query `avaiability` is typed as a number, but the global `ValidationPipe` (src/main.ts:8) has no `transform`, so over HTTP it arrives as a string and `availability === 1` never holds: any given value then selects sold-out products. The model takes the value as an integer, as the service's code reads it, so its availability 1 is the in-stock filter that an HTTP caller cannot reach.

## Left out

- Storage and transport: the Prisma client, HTTP controllers, modules and DTO decorators. Tables are sequences in table order. A `findMany` or `findFirst` without `orderBy` is read in that order, which the database does not promise.
- Only three controller rules are modelled, as entry points: the cart quantity-0 dispatch, the address ownership checks and the address GET 404.
- Structural rows are taken as given: a well-formed category forest and unique columns (category names, voucher codes, cart per user, image URLs). On a cyclic category table the source's recursion never ends. The model requires acyclicity, witnessed by a rank on categories, and does not model the non-termination.
- `toLowerCase` is an uninterpreted parameter. The clock (`now`) and the image host's upload (the URL it returns) are parameters too.
- The OpenAI call is left out: its outcome is a parameter of `Chat.BotResponse`. The system prompt is a parameter of `Chat.Messages`.
- `sendMessage`: only its pure steps are modelled. These are the fallback reply, the recent history, the message list, the reply choice and the product text. Its effects are left out: the user lookup, the keyword product search that feeds the prompt, and saving the exchange. `getChatHistory`, `clearChatHistory` and the Prisma queries of the chat context service are left out too.
- Numbers: money and prices are unbounded integers; sales are natural numbers; stock is an integer. JavaScript floating point and `Number.isFinite` guards are not modelled. The voucher percentage, the review average and the dashboard change are computed on exact reals.
- Rounding: `Math.round` is modelled as the floor of x + 1/2 on exact reals. The review average's division by 100 is also exact.
- The dashboard is modelled only through `calculatePercentageChange`. The monthly aggregations, the `Date` arithmetic and the revenue `/ 100` are not modelled.
- Voucher types: the service's fall-through for a voucher type other than DISCOUNT and SHIPPING is not representable, since `VoucherType` has exactly those two values.
- Voucher `description`: the optional field of the create request is not modelled. It is a plain string written through to the row, and no rule reads it.
- Voucher reads: `getAllVouchers`, `getActiveVouchers`, `getVoucherById` and `getUserVouchers` are plain reads and are not modelled.
- Concurrency: `Promise.all` writes and uploads are modelled one after another. The non-atomic validate-then-apply voucher sequence is modelled as separate sequential calls, and so is the cart's read-then-write.
- The text of database errors, which some replies copy into their `error` field, is modelled as an absent value.
- Product `vendor`: the field of the create and update requests is not modelled. It is a plain string written through to the row, and no rule reads it.
- Other product reads: `findAll`, `findOne`, `delete`, `getProductNameByProductDetailId` and the older service's `create`, `update` and `delete` are not modelled. They are single pass-through queries. The product name of a cart line is read from a map.
- Other review reads: `findAllByProductId` and `findAllByOrderId` are listing queries with no rule beyond their filters, and are not modelled. `CreateReviewDto` is not part of this model, so rating bounds appear only as preconditions of the statistics lemmas.
- Reviews.Tally: a rating outside 1..5 is counted in no bucket. The source would add a key holding `NaN` for it.
- Reviews.ReviewStore.ReviewStats: the average is modelled on exact reals. The source's floating-point sum and division are not modelled.
- ShippingAddresses.AddressBook.Update: it requires that the row exists and belongs to the user, which is what the PATCH entry point (`PatchAddress`) guarantees before calling it. Called on its own, the service would also patch another user's row, and would fail on a missing id.
- The ward, district and city includes of the address replies are not modelled, and neither are the other included relations of every reply.
- The older `removeCartItem` (src/cart/cart-item/cart-item.service.ts:73-120) is the same code as the newer one. It is modelled by `CartStore.Carts.RemoveCartItem`.
- Out of scope: authentication (password hashing, JWT, cache, mail), the order, payment, Viettel Post, Cloudinary and city/district/ward services, and the database seeders.

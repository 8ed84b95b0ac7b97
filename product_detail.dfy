/**
 * Product variants (`productDetail`) and their images. A variant needs a size or a colour.
 * Its image is an uploaded file when one is sent, else the URL given, else none on create
 * and the current one on update; the image table is upserted by its unique URL. The upload
 * itself is a parameter: the URL the image host returned for the file, if a file was sent.
 */
module VariantImages {
  import opened Wrappers
  import Seqs

  datatype Image = Image(id: int, url: string)

  datatype Variant = Variant(
    id: int,
    productId: int,
    size: Option<string>,
    color: Option<string>,
    stock: int,
    price: int,
    discountPercentage: Option<int>,
    imageId: Option<int>)

  datatype NewVariant = NewVariant(
    productId: int,
    size: Option<string>,
    color: Option<string>,
    stock: int,
    price: int,
    discountPercentage: Option<int>,
    imageUrl: Option<string>)

  /** An update body: `None` is a field that was not sent. */
  datatype VariantPatch = VariantPatch(
    size: Option<string>,
    color: Option<string>,
    stock: Option<int>,
    price: Option<int>,
    discountPercentage: Option<int>,
    imageUrl: Option<string>)

  /** The variant with the URL of its image. */
  datatype VariantView = VariantView(variant: Variant, imageUrl: Option<string>)

  /**
   * A reply, or a raised HTTP exception; `reason == None` stands for a database error's own
   * text, which is not modelled.
   */
  datatype Outcome = Done(status: int, message: string, data: Option<VariantView>) | Raised(status: int, reason: Option<string>)

  /** JavaScript truthiness of an optional string. */
  predicate IsGiven(x: Option<string>) {
    x.Some? && x.value != ""
  }

  /** `!data.size && !data.color` lets the request through only when one of them is given. */
  predicate HasSizeOrColor(size: Option<string>, color: Option<string>) {
    IsGiven(size) || IsGiven(color)
  }

  /** The image URL a request asks for: the uploaded file's, else a non-empty `imageUrl`, else none. */
  function RequestedUrl(upload: Option<string>, imageUrl: Option<string>): (r: Option<string>)
    ensures upload.Some? ==> r == upload
    ensures upload.None? && IsGiven(imageUrl) ==> r == imageUrl
    ensures upload.None? && !IsGiven(imageUrl) ==> r.None?
  {
    if upload.Some? then upload else if IsGiven(imageUrl) then imageUrl else None
  }

  function ImageId(i: Image): int { i.id }

  function UrlIs(url: string): Image -> bool {
    (i: Image) => i.url == url
  }

  function IdIs(id: int): Image -> bool {
    (i: Image) => i.id == id
  }

  predicate UrlsUnique(images: seq<Image>) {
    forall i, j :: 0 <= i < j < |images| ==> images[i].url != images[j].url
  }

  /** The image table after `productImage.upsert({ where: { url }, create: { url }, update: {} })`. */
  function Upserted(images: seq<Image>, url: string, nextId: int): (r: seq<Image>)
    ensures Seqs.FindFirst(images, UrlIs(url)).Some? ==> r == images
    ensures Seqs.FindFirst(images, UrlIs(url)).None? ==> r == images + [Image(nextId, url)]
  {
    if Seqs.FindFirst(images, UrlIs(url)).Some? then images else images + [Image(nextId, url)]
  }

  /** The id `upsert` returns: the existing image's, or the new one's. */
  function UpsertedId(images: seq<Image>, url: string, nextId: int): (id: int)
    ensures Seqs.FindFirst(images, UrlIs(url)).Some? ==> id == Seqs.FindFirst(images, UrlIs(url)).value.id
    ensures Seqs.FindFirst(images, UrlIs(url)).None? ==> id == nextId
  {
    var found := Seqs.FindFirst(images, UrlIs(url));
    if found.Some? then found.value.id else nextId
  }

  /** The image table invariant: unique ids below the next one, and unique URLs. */
  predicate ImagesValid(images: seq<Image>, nextId: int) {
    Seqs.UniqueBy(images, ImageId) && UrlsUnique(images) && forall i :: i in images ==> i.id < nextId
  }

  /** The upsert never creates a second image for a URL, and the id it returns carries that URL. */
  lemma UpsertKeepsImagesValid(images: seq<Image>, url: string, nextId: int)
    requires ImagesValid(images, nextId)
    ensures var next := if Seqs.FindFirst(images, UrlIs(url)).Some? then nextId else nextId + 1;
            ImagesValid(Upserted(images, url, nextId), next)
    ensures Image(UpsertedId(images, url, nextId), url) in Upserted(images, url, nextId)
    ensures forall i :: i in images ==> i in Upserted(images, url, nextId)
  {
    var found := Seqs.FindFirst(images, UrlIs(url));
    if found.None? {
      var r := images + [Image(nextId, url)];
      forall i, j | 0 <= i < j < |r| ensures ImageId(r[i]) != ImageId(r[j]) && r[i].url != r[j].url {
        assert r[i] in images;
        if j < |images| {
          assert ImageId(images[i]) != ImageId(images[j]);
        } else {
          assert !UrlIs(url)(r[i]);
        }
      }
    }
  }

  /** Upserting an URL twice is upserting it once: the second call reuses the image. */
  lemma UpsertIdempotent(images: seq<Image>, url: string, nextId: int, laterId: int)
    ensures var once := Upserted(images, url, nextId);
            Upserted(once, url, laterId) == once && UpsertedId(once, url, laterId) == UpsertedId(images, url, nextId)
  {
    var once := Upserted(images, url, nextId);
    if Seqs.FindFirst(images, UrlIs(url)).None? {
      assert once[|images|] in once && UrlIs(url)(once[|images|]);
      FindFirstOfAppend(images, Image(nextId, url), UrlIs(url));
    }
  }

  /** When nothing in `s` passes `p`, the first to pass in `s + [x]` is `x`. */
  lemma {:induction false} FindFirstOfAppend(s: seq<Image>, x: Image, p: Image -> bool)
    requires Seqs.FindFirst(s, p).None? && p(x)
    ensures Seqs.FindFirst(s + [x], p) == Some(x)
  {
    if s != [] {
      assert (s + [x])[1..] == s[1..] + [x];
      assert s[0] in s;
      assert Seqs.FindFirst(s[1..], p).None? by {
        forall y | y in s[1..] ensures !p(y) {
          assert y in s;
        }
      }
      FindFirstOfAppend(s[1..], x, p);
    }
  }

  /** `productDetail.image?.url`. */
  function ImageUrl(images: seq<Image>, imageId: Option<int>): (r: Option<string>)
    ensures r.Some? ==> imageId.Some? && Image(imageId.value, r.value) in images
  {
    if imageId.None? then None
    else
      var image := Seqs.FindFirst(images, IdIs(imageId.value));
      if image.Some? then Some(image.value.url) else None
  }

  /** The variant `create` stores. */
  function NewRow(id: int, d: NewVariant, imageId: Option<int>): Variant {
    Variant(id, d.productId, d.size, d.color, d.stock, d.price, d.discountPercentage, imageId)
  }

  /** `productDetail.update({ where: { id }, data })`: the sent fields and the chosen image. */
  function PatchVariant(v: Variant, p: VariantPatch, imageId: Option<int>): (r: Variant)
    ensures r.id == v.id && r.productId == v.productId && r.imageId == imageId
    ensures r.size == (if p.size.Some? then p.size else v.size)
    ensures r.color == (if p.color.Some? then p.color else v.color)
    ensures r.stock == (if p.stock.Some? then p.stock.value else v.stock)
    ensures r.price == (if p.price.Some? then p.price.value else v.price)
    ensures r.discountPercentage == (if p.discountPercentage.Some? then p.discountPercentage else v.discountPercentage)
  {
    Variant(v.id, v.productId, if p.size.Some? then p.size else v.size, if p.color.Some? then p.color else v.color,
            p.stock.GetOr(v.stock), p.price.GetOr(v.price),
            if p.discountPercentage.Some? then p.discountPercentage else v.discountPercentage, imageId)
  }

  function VariantId(v: Variant): int { v.id }

  function VariantIs(id: int): Variant -> bool {
    (v: Variant) => v.id == id
  }

  function VariantIsNot(id: int): Variant -> bool {
    (v: Variant) => v.id != id
  }

  function ReplaceVariant(variants: seq<Variant>, v: Variant): (r: seq<Variant>)
    ensures |r| == |variants|
    ensures forall i :: 0 <= i < |variants| ==> r[i] == (if variants[i].id == v.id then v else variants[i])
  {
    seq(|variants|, i requires 0 <= i < |variants| => if variants[i].id == v.id then v else variants[i])
  }

  /** Replacing a variant by one of a known product keeps every variant's product known. */
  lemma ReplaceKeepsProducts(variants: seq<Variant>, v: Variant, products: set<int>)
    requires forall w :: w in variants ==> w.productId in products
    requires v.productId in products
    ensures forall w :: w in ReplaceVariant(variants, v) ==> w.productId in products
  {
    var r := ReplaceVariant(variants, v);
    forall w | w in r ensures w.productId in products {
      var k :| 0 <= k < |r| && r[k] == w;
      assert variants[k] in variants;
    }
  }

  function NotFound(id: int): Outcome {
    Raised(404, Some("Product detail with ID " + Seqs.IntToString(id) + " not found"))
  }

  /** The variant table invariant: unique ids, and each image id names an image. */
  predicate VariantsValid(variants: seq<Variant>, images: seq<Image>, nextId: int) {
    && Seqs.UniqueBy(variants, VariantId)
    && (forall v :: v in variants ==> v.id < nextId)
    && (forall v :: v in variants && v.imageId.Some? ==> exists i :: i in images && i.id == v.imageId.value)
  }

  /** Adding images keeps every variant's image. */
  lemma MoreImagesKeepVariantsValid(variants: seq<Variant>, images: seq<Image>, more: seq<Image>, nextId: int)
    requires VariantsValid(variants, images, nextId)
    requires forall i :: i in images ==> i in more
    ensures VariantsValid(variants, more, nextId)
  {
    forall v | v in variants && v.imageId.Some? ensures exists i :: i in more && i.id == v.imageId.value {
      var i :| i in images && i.id == v.imageId.value;
      assert i in more;
    }
  }

  /** Replacing a variant by one with the same id and a known image keeps the invariant. */
  lemma ReplaceKeepsVariantsValid(variants: seq<Variant>, images: seq<Image>, v: Variant, nextId: int)
    requires VariantsValid(variants, images, nextId) && exists w :: w in variants && w.id == v.id
    requires v.imageId.Some? ==> exists i :: i in images && i.id == v.imageId.value
    ensures VariantsValid(ReplaceVariant(variants, v), images, nextId)
  {
    var r := ReplaceVariant(variants, v);
    forall i, j | 0 <= i < j < |r| ensures VariantId(r[i]) != VariantId(r[j]) {
      assert VariantId(variants[i]) != VariantId(variants[j]);
    }
    forall x | x in r ensures x.id < nextId && (x.imageId.Some? ==> exists i :: i in images && i.id == x.imageId.value) {
      var k :| 0 <= k < |r| && r[k] == x;
      assert variants[k] in variants;
    }
  }

  /** Appending a row with a fresh id, a known image and a known product keeps the invariant. */
  lemma AppendKeepsVariantsValid(variants: seq<Variant>, images: seq<Image>, v: Variant, nextId: int, products: set<int>)
    requires VariantsValid(variants, images, nextId) && v.id == nextId
    requires v.imageId.Some? ==> exists i :: i in images && i.id == v.imageId.value
    requires (forall w :: w in variants ==> w.productId in products) && v.productId in products
    ensures VariantsValid(variants + [v], images, nextId + 1)
    ensures forall w :: w in variants + [v] ==> w.productId in products
  {
    var r := variants + [v];
    forall i, j | 0 <= i < j < |r| ensures VariantId(r[i]) != VariantId(r[j]) {
      assert r[i] in variants;
      if j < |r| - 1 {
        assert VariantId(variants[i]) != VariantId(variants[j]);
      }
    }
  }

  /** The `productDetail` and `productImage` tables, and the products variants may belong to. */
  class VariantStore {
    var variants: seq<Variant>
    var images: seq<Image>
    var products: set<int>
    var nextVariantId: int
    var nextImageId: int

    ghost predicate Valid()
      reads this
    {
      && VariantsValid(variants, images, nextVariantId)
      && ImagesValid(images, nextImageId)
      && forall v :: v in variants ==> v.productId in products
    }

    constructor (products: set<int>)
      ensures Valid() && variants == [] && images == [] && this.products == products
    {
      this.products := products;
      variants, images := [], [];
      nextVariantId, nextImageId := 1, 1;
    }

    /** `productImage.upsert` by URL. */
    method UpsertImage(url: string) returns (id: int)
      requires Valid()
      modifies this
      ensures Valid()
      ensures images == Upserted(old(images), url, old(nextImageId)) && id == UpsertedId(old(images), url, old(nextImageId))
      ensures Image(id, url) in images
      ensures variants == old(variants) && products == old(products) && nextVariantId == old(nextVariantId)
    {
      UpsertKeepsImagesValid(images, url, nextImageId);
      MoreImagesKeepVariantsValid(variants, images, Upserted(images, url, nextImageId), nextVariantId);
      var existing := Seqs.FindFirst(images, UrlIs(url));
      if existing.Some? {
        id := existing.value.id;
      } else {
        id := nextImageId;
        images := images + [Image(id, url)];
        nextImageId := nextImageId + 1;
      }
    }

    /**
     * `create`: without a size or a colour nothing is stored and a 500 carries the guard's
     * message; otherwise the requested image is upserted, and the variant is stored when its
     * product exists (else the database refuses it, after the image upsert).
     */
    method Create(d: NewVariant, upload: Option<string>) returns (r: Outcome)
      requires Valid()
      modifies this
      ensures Valid() && products == old(products)
      ensures !HasSizeOrColor(d.size, d.color) ==>
                r == Raised(500, Some("Size and color cannot both be null")) && unchanged(this)
      ensures HasSizeOrColor(d.size, d.color) ==>
                var url := RequestedUrl(upload, d.imageUrl);
                && images == (if url.Some? then Upserted(old(images), url.value, old(nextImageId)) else old(images))
                && var imageId := if url.Some? then Some(UpsertedId(old(images), url.value, old(nextImageId))) else None;
                   && (d.productId !in products ==> r == Raised(500, None) && variants == old(variants))
                   && (d.productId in products ==>
                         && variants == old(variants) + [NewRow(old(nextVariantId), d, imageId)]
                         && r == Done(201, "Product detail created successfully",
                                      Some(VariantView(NewRow(old(nextVariantId), d, imageId), url))))
    {
      if !HasSizeOrColor(d.size, d.color) {
        return Raised(500, Some("Size and color cannot both be null"));
      }
      var imageId: Option<int> := None;
      if upload.Some? {
        var id := UpsertImage(upload.value);
        imageId := Some(id);
      } else if IsGiven(d.imageUrl) {
        var id := UpsertImage(d.imageUrl.value);
        imageId := Some(id);
      }
      if d.productId !in products {
        return Raised(500, None);
      }
      var variant := NewRow(nextVariantId, d, imageId);
      assert ImageUrl(images, imageId) == RequestedUrl(upload, d.imageUrl) by {
        if imageId.Some? {
          ImageUrlOfUnique(images, imageId.value, RequestedUrl(upload, d.imageUrl).value);
        }
      }
      AppendKeepsVariantsValid(variants, images, variant, nextVariantId, products);
      variants, nextVariantId := variants + [variant], nextVariantId + 1;
      r := Done(201, "Product detail created successfully", Some(VariantView(variant, ImageUrl(images, imageId))));
    }

    /**
     * `update`: the guard reads only the request, so an update that sends neither size nor
     * colour fails with a 500; an unknown id is a 404 with nothing changed. Otherwise the image
     * is the uploaded file's, else the URL sent, else the current one, and the sent fields are written.
     */
    method Update(id: int, p: VariantPatch, upload: Option<string>) returns (r: Outcome)
      requires Valid()
      modifies this
      ensures Valid() && products == old(products) && nextVariantId == old(nextVariantId)
      ensures !HasSizeOrColor(p.size, p.color) ==>
                r == Raised(500, Some("Size and color cannot both be null")) && unchanged(this)
      ensures HasSizeOrColor(p.size, p.color) && Seqs.FindFirst(old(variants), VariantIs(id)).None? ==>
                r == NotFound(id) && unchanged(this)
      ensures HasSizeOrColor(p.size, p.color) && Seqs.FindFirst(old(variants), VariantIs(id)).Some? ==>
                var current := Seqs.FindFirst(old(variants), VariantIs(id)).value;
                var url := RequestedUrl(upload, p.imageUrl);
                var imageId := if url.Some? then Some(UpsertedId(old(images), url.value, old(nextImageId))) else current.imageId;
                && images == (if url.Some? then Upserted(old(images), url.value, old(nextImageId)) else old(images))
                && variants == ReplaceVariant(old(variants), PatchVariant(current, p, imageId))
                && r == Done(200, "Product detail updated successfully",
                             Some(VariantView(PatchVariant(current, p, imageId), ImageUrl(images, imageId))))
    {
      if !HasSizeOrColor(p.size, p.color) {
        return Raised(500, Some("Size and color cannot both be null"));
      }
      var currentProductDetail := Seqs.FindFirst(variants, VariantIs(id));
      if currentProductDetail.None? {
        return NotFound(id);
      }
      var current := currentProductDetail.value;
      var imageId := current.imageId;
      if upload.Some? {
        var newId := UpsertImage(upload.value);
        imageId := Some(newId);
      } else if IsGiven(p.imageUrl) {
        var newId := UpsertImage(p.imageUrl.value);
        imageId := Some(newId);
      }
      var updated := PatchVariant(current, p, imageId);
      ReplaceKeepsVariantsValid(variants, images, updated, nextVariantId);
      ReplaceKeepsProducts(variants, updated, products);
      variants := ReplaceVariant(variants, updated);
      r := Done(200, "Product detail updated successfully", Some(VariantView(updated, ImageUrl(images, imageId))));
    }

    /** `findById`: the variant, or a 404. */
    function FindById(id: int): (r: Outcome)
      reads this
      ensures r.Done? <==> exists v :: v in variants && v.id == id
      ensures r.Done? ==> r.status == 200 && r.message == "Product detail retrieved successfully" &&
                          r.data.Some? && r.data.value.variant in variants && r.data.value.variant.id == id
      ensures r.Raised? ==> r == NotFound(id)
    {
      var found := Seqs.FindFirst(variants, VariantIs(id));
      if found.None? then NotFound(id)
      else
        assert VariantIs(id)(found.value);
        Done(200, "Product detail retrieved successfully", Some(VariantView(found.value, None)))
    }

    /** `delete`: a missing id is a 404; otherwise the variant is removed. */
    method Delete(id: int) returns (r: Outcome)
      requires Valid()
      modifies this
      ensures Valid() && images == old(images) && products == old(products)
      ensures Seqs.FindFirst(old(variants), VariantIs(id)).None? ==> r == NotFound(id) && variants == old(variants)
      ensures Seqs.FindFirst(old(variants), VariantIs(id)).Some? ==>
                variants == Seqs.Filter(old(variants), VariantIsNot(id)) &&
                r == Done(200, "Product detail deleted successfully", None)
    {
      if Seqs.FindFirst(variants, VariantIs(id)).None? {
        return NotFound(id);
      }
      Seqs.FilterUniqueBy(variants, VariantIsNot(id), VariantId);
      forall v ensures v in Seqs.Filter(variants, VariantIsNot(id)) <==> v in variants && v.id != id {
        Seqs.FilterMembers(variants, VariantIsNot(id), v);
      }
      variants := Seqs.Filter(variants, VariantIsNot(id));
      r := Done(200, "Product detail deleted successfully", None);
    }
  }

  /** With unique URLs, the image stored under an id carries that id's URL only. */
  lemma ImageUrlOfUnique(images: seq<Image>, id: int, url: string)
    requires Seqs.UniqueBy(images, ImageId) && Image(id, url) in images
    ensures ImageUrl(images, Some(id)) == Some(url)
  {
    var found := Seqs.FindFirst(images, IdIs(id));
    assert IdIs(id)(Image(id, url));
    var a :| 0 <= a < |images| && images[a] == found.value;
    var b :| 0 <= b < |images| && images[b] == Image(id, url);
    assert ImageId(images[a]) == ImageId(images[b]);
  }
}

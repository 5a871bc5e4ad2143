/** The catalog's writes read off the rows: when each is refused, and every column that a success writes. */
module CatalogLaws {
  import opened Wrappers
  import opened CatalogRows
  import opened Catalog
  import Ordering
  import Slugs

  /** The error of a refused request. */
  function Refusal<T>(r: Result<T, Error>): Option<Error> {
    if r.Failure? then Some(r.error) else None
  }

  // Categories

  lemma CreateCategoryVerdict(s: Store, id: Id, c: Category)
    ensures Refusal(CreateCategory(s, id, c)) ==
      if c.parent.Some? && c.parent.value !in s.categories then Some(ParentCategoryNotFound)
      else if exists d | d in s.categories :: s.categories[d].slug == c.slug then Some(CategorySlugExists)
      else if id in s.categories then Some(UniqueViolation)
      else None
  {
    assert (exists d | d in s.categories :: s.categories[d].slug == c.slug) <==> CategorySlugTaken(s, c.slug, None);
  }

  lemma UpdateCategoryVerdict(s: Store, id: Id, c: Category)
    ensures Refusal(UpdateCategory(s, id, c)) ==
      if id !in s.categories then Some(CategoryNotFound)
      else if c.parent.Some? && c.parent.value !in s.categories then Some(ParentCategoryNotFound)
      else if c.parent == Some(id) then Some(InvalidParentCategory)
      else if exists d | d in s.categories :: d != id && s.categories[d].slug == c.slug then Some(CategorySlugExists)
      else None
  {
    assert (exists d | d in s.categories :: d != id && s.categories[d].slug == c.slug) <==>
           CategorySlugTaken(s, c.slug, Some(id));
  }

  /** A successful category write stores every column of the payload under its id and nothing else. */
  lemma CategoryWrites(s: Store, id: Id, c: Category, done: Result<Store, Error>)
    requires done == CreateCategory(s, id, c) || done == UpdateCategory(s, id, c)
    ensures done.Success? ==>
      done.value == Store(s.categories[id := Category(c.parent, c.name, c.slug, c.description, c.isActive)],
                          s.products, s.images)
  {
  }

  // Products

  /** As many ids as images, all of them new and different. */
  ghost predicate FreshIds(s: Store, ids: seq<Id>, count: nat) {
    |ids| == count && Ordering.NoRepeats(ids) && forall i | i in ids :: i !in s.images
  }

  lemma CreateProductVerdict(s: Store, seller: Id, id: Id, ids: seq<Id>, now: int, p: ProductPayload)
    ensures Refusal(CreateProduct(s, seller, id, ids, now, p)) ==
      if p.category !in s.categories || !s.categories[p.category].isActive then Some(CategoryNotFound)
      else if exists q | q in s.products :: s.products[q].slug == p.slug then Some(ProductSlugExists)
      else if exists q | q in s.products :: s.products[q].sku == p.sku then Some(ProductSkuExists)
      else if id in s.products || !FreshIds(s, ids, |p.images|) then Some(UniqueViolation)
      else None
  {
    assert (exists q | q in s.products :: s.products[q].slug == p.slug) <==> SlugTaken(s, p.slug, None);
    assert (exists q | q in s.products :: s.products[q].sku == p.sku) <==> SkuTaken(s, p.sku, None);
    assert FreshIds(s, ids, |p.images|) <==> NewImageIds(s.images, ids, |p.images|);
  }

  /** A product of another seller is not found, and its own slug and SKU do not stand in the way. */
  lemma UpdateProductVerdict(s: Store, seller: Id, id: Id, ids: seq<Id>, p: ProductPayload)
    ensures Refusal(UpdateProduct(s, seller, id, ids, p)) ==
      if id !in s.products || s.products[id].seller != seller then Some(ProductNotFound)
      else if p.category !in s.categories || !s.categories[p.category].isActive then Some(CategoryNotFound)
      else if exists q | q in s.products :: q != id && s.products[q].slug == p.slug then Some(ProductSlugExists)
      else if exists q | q in s.products :: q != id && s.products[q].sku == p.sku then Some(ProductSkuExists)
      else if !FreshIds(s, ids, |p.images|) then Some(UniqueViolation)
      else None
  {
    assert (exists q | q in s.products :: q != id && s.products[q].slug == p.slug) <==> SlugTaken(s, p.slug, Some(id));
    assert (exists q | q in s.products :: q != id && s.products[q].sku == p.sku) <==> SkuTaken(s, p.sku, Some(id));
    assert FreshIds(s, ids, |p.images|) <==> NewImageIds(s.images, ids, |p.images|);
  }

  /** A successful creation: the row under the new id belongs to the caller, is dated now, and has every column
      of the payload, with one image row for each of its images; all other rows stay. */
  lemma CreateProductWrites(s: Store, seller: Id, id: Id, ids: seq<Id>, now: int, p: ProductPayload)
    requires CreateProduct(s, seller, id, ids, now, p).Success?
    ensures var s' := CreateProduct(s, seller, id, ids, now, p).value;
      && s'.categories == s.categories
      && s'.products == s.products[id := Product(
           p.category, seller, p.name, p.slug, p.sku, p.description, p.price, p.compareAtPrice, p.currency,
           p.isActive, now)]
      && (forall i :: i in s'.images <==> i in s.images || i in ids)
      && (forall i | i in s.images :: s'.images[i] == s.images[i])
      && (forall k | 0 <= k < |ids| :: s'.images[ids[k]] == Image(id, p.images[k]))
  {
    AddImagesAdds(s.images, id, ids, p.images);
    var s' := CreateProduct(s, seller, id, ids, now, p).value;
    assert forall i :: i in ids <==> i in Ordering.ToSet(ids);
    assert forall i :: i in s'.images <==> i in s'.images.Keys;
  }

  /** A successful update: every column of the payload, with the seller and the creation time kept; the old
      image rows of the product are replaced; all other rows stay. */
  lemma UpdateProductWrites(s: Store, seller: Id, id: Id, ids: seq<Id>, p: ProductPayload)
    requires UpdateProduct(s, seller, id, ids, p).Success?
    ensures var s' := UpdateProduct(s, seller, id, ids, p).value;
      && id in s.products && s.products[id].seller == seller
      && s'.categories == s.categories
      && s'.products == s.products[id := Product(
           p.category, seller, p.name, p.slug, p.sku, p.description, p.price, p.compareAtPrice, p.currency,
           p.isActive, s.products[id].createdAt)]
      && (forall i :: i in s'.images <==> (i in s.images && s.images[i].product != id) || i in ids)
      && (forall i | i in s.images && s.images[i].product != id :: s'.images[i] == s.images[i])
      && (forall k | 0 <= k < |ids| :: s'.images[ids[k]] == Image(id, p.images[k]))
  {
    var kept := WithoutProduct(s.images, id);
    AddImagesAdds(kept, id, ids, p.images);
    var s' := UpdateProduct(s, seller, id, ids, p).value;
    assert forall i :: i in ids <==> i in Ordering.ToSet(ids);
    assert forall i :: i in s'.images <==> i in s'.images.Keys;
    assert forall i | i in s.images && s.images[i].product != id :: i in kept && kept[i] == s.images[i];
  }

  /** Once created, over every later run, a product is found by an update of its creator and by no other. */
  lemma OnlyTheCreatorUpdates(
    s: Store, seller: Id, id: Id, ids: seq<Id>, now: int, p: ProductPayload, later: seq<Request>,
    caller: Id, newIds: seq<Id>, q: ProductPayload)
    requires CreateProduct(s, seller, id, ids, now, p).Success?
    ensures var s' := Run(CreateProduct(s, seller, id, ids, now, p).value, later);
            UpdateProduct(s', caller, id, newIds, q) == Failure(ProductNotFound) <==> caller != seller
  {
    CreateProductWrites(s, seller, id, ids, now, p);
    var s1 := CreateProduct(s, seller, id, ids, now, p).value;
    SellerNeverChanges(s1, later, id);
    UpdateProductVerdict(Run(s1, later), caller, id, newIds, q);
  }

  // Schemas

  /** The schemas spelled out: a category payload is refused exactly when it breaks one of these bounds, */
  lemma CategorySchema(s: Store, id: Id, c: Category)
    ensures var bounded := 1 <= |c.name| <= 120 && Slugs.IsSlug(c.slug, 140)
                           && (c.description.Some? ==> |c.description.value| <= 1000);
      && Handle(s, CreateCategoryRequest(id, c)) ==
           (if bounded then CreateCategory(s, id, c) else Failure(InvalidPayload))
      && Handle(s, UpdateCategoryRequest(id, c)) ==
           (if bounded then UpdateCategory(s, id, c) else Failure(InvalidPayload))
  {
  }

  /** and a product payload exactly when it breaks one of these. */
  lemma ProductSchema(s: Store, seller: Id, id: Id, ids: seq<Id>, now: int, p: ProductPayload)
    ensures var bounded :=
        && 1 <= |p.name| <= 180 && Slugs.IsSlug(p.slug, 220) && 1 <= |p.sku| <= 80
        && 1 <= |p.description| <= 5000 && |p.currency| == 3
        && 0 <= p.price < 1_000_000_000_000
        && (p.compareAtPrice.Some? ==> p.price <= p.compareAtPrice.value < 1_000_000_000_000)
        && |p.images| <= 10
        && forall i | i in p.images && i.altText.Some? :: |i.altText.value| <= 180;
      && Handle(s, CreateProductRequest(seller, id, ids, now, p)) ==
           (if bounded then CreateProduct(s, seller, id, ids, now, p) else Failure(InvalidPayload))
      && Handle(s, UpdateProductRequest(seller, id, ids, p)) ==
           (if bounded then UpdateProduct(s, seller, id, ids, p) else Failure(InvalidPayload))
  {
  }

  /** What the schemas say about a payload, of the rows. */
  ghost predicate RowsBounded(s: Store) {
    && (forall c | c in s.categories :: var r := s.categories[c];
          && 1 <= |r.name| <= 120 && Slugs.IsSlug(r.slug, 140)
          && (r.description.Some? ==> |r.description.value| <= 1000))
    && (forall p | p in s.products :: var r := s.products[p];
          && 1 <= |r.name| <= 180 && Slugs.IsSlug(r.slug, 220) && 1 <= |r.sku| <= 80
          && 1 <= |r.description| <= 5000 && |r.currency| == 3
          && 0 <= r.price < 1_000_000_000_000
          && (r.compareAtPrice.Some? ==> r.price <= r.compareAtPrice.value < 1_000_000_000_000))
    && (forall i | i in s.images && s.images[i].data.altText.Some? :: |s.images[i].data.altText.value| <= 180)
  }

  lemma ImagesStayBounded(s: Store, s': Store, id: Id, ids: seq<Id>, data: seq<ImageData>)
    requires RowsBounded(s) && |ids| == |data|
    requires forall i | i in data && i.altText.Some? :: |i.altText.value| <= 180
    requires forall i | i in s'.images :: i in ids || (i in s.images && s'.images[i] == s.images[i])
    requires forall k | 0 <= k < |ids| :: ids[k] in s'.images && s'.images[ids[k]] == Image(id, data[k])
    ensures forall i | i in s'.images && s'.images[i].data.altText.Some? :: |s'.images[i].data.altText.value| <= 180
  {
    forall i | i in s'.images && s'.images[i].data.altText.Some?
      ensures |s'.images[i].data.altText.value| <= 180
    {
      if i in ids {
        var k :| 0 <= k < |ids| && ids[k] == i;
        assert data[k] in data;
      }
    }
  }

  lemma CategoriesKeepBounds(s: Store, id: Id, c: Category)
    requires RowsBounded(s) && ValidCategory(c)
    ensures RowsBounded(Store(s.categories[id := c], s.products, s.images))
  {
  }

  lemma CreationsKeepBounds(s: Store, seller: Id, id: Id, ids: seq<Id>, now: int, p: ProductPayload)
    requires RowsBounded(s) && ValidProduct(p) && CreateProduct(s, seller, id, ids, now, p).Success?
    ensures RowsBounded(CreateProduct(s, seller, id, ids, now, p).value)
  {
    CreateProductVerdict(s, seller, id, ids, now, p);
    CreateProductWrites(s, seller, id, ids, now, p);
    ImagesStayBounded(s, CreateProduct(s, seller, id, ids, now, p).value, id, ids, p.images);
  }

  lemma UpdatesKeepBounds(s: Store, seller: Id, id: Id, ids: seq<Id>, p: ProductPayload)
    requires RowsBounded(s) && ValidProduct(p) && UpdateProduct(s, seller, id, ids, p).Success?
    ensures RowsBounded(UpdateProduct(s, seller, id, ids, p).value)
  {
    UpdateProductVerdict(s, seller, id, ids, p);
    UpdateProductWrites(s, seller, id, ids, p);
    ImagesStayBounded(s, UpdateProduct(s, seller, id, ids, p).value, id, ids, p.images);
  }

  lemma HandleKeepsBounds(s: Store, r: Request)
    requires RowsBounded(s)
    ensures RowsBounded(After(s, r))
  {
    if Handle(s, r).Success? {
      match r
      case CreateCategoryRequest(id, c) => CategoriesKeepBounds(s, id, c);
      case UpdateCategoryRequest(id, c) => CategoriesKeepBounds(s, id, c);
      case CreateProductRequest(seller, id, ids, now, p) => CreationsKeepBounds(s, seller, id, ids, now, p);
      case UpdateProductRequest(seller, id, ids, p) => UpdatesKeepBounds(s, seller, id, ids, p);
    }
  }

  /** In every state reachable from the empty catalog all rows are within the bounds. */
  lemma {:induction false} ReachableRowsAreBounded(requests: seq<Request>)
    ensures RowsBounded(Run(EMPTY, requests))
  {
    if requests != [] {
      ReachableRowsAreBounded(requests[..|requests| - 1]);
      HandleKeepsBounds(Run(EMPTY, requests[..|requests| - 1]), requests[|requests| - 1]);
    }
  }
}

/** The catalog's writes as functions on its tables, and what every run of them keeps. */
module Catalog {
  import opened Wrappers
  import opened CatalogRows
  import opened Hierarchy
  import Ordering
  import Runs
  import Slugs

  datatype Store = Store(
    categories: map<Id, Category>,
    products: map<Id, Product>,
    images: map<Id, Image>)

  datatype ProductPayload = ProductPayload(
    category: Id,
    name: string,
    slug: string,
    sku: string,
    description: string,
    price: int,
    compareAtPrice: Option<int>,
    currency: string,
    isActive: bool,
    images: seq<ImageData>)

  datatype Error =
    | InvalidPayload
    | CategoryNotFound
    | ParentCategoryNotFound
    | InvalidParentCategory
    | CategorySlugExists
    | ProductNotFound
    | ProductSlugExists
    | ProductSkuExists
    | UniqueViolation

  const MAX_IMAGES := 10

  /** The schema of a category request; the payload of a category is its whole row. */
  predicate ValidCategory(c: Category) {
    && 1 <= |c.name| <= 120
    && Slugs.IsSlug(c.slug, 140)
    && (c.description.Some? ==> |c.description.value| <= 1000)
  }

  /** The schema of a product request: twelve digits, two of them decimals, are at most 10^12 - 1 cents. */
  predicate ValidProduct(p: ProductPayload) {
    && 1 <= |p.name| <= 180
    && Slugs.IsSlug(p.slug, 220)
    && 1 <= |p.sku| <= 80
    && 1 <= |p.description| <= 5000
    && 0 <= p.price < 1_000_000_000_000
    && (p.compareAtPrice.Some? ==> 0 <= p.compareAtPrice.value < 1_000_000_000_000)
    && (p.compareAtPrice.Some? ==> p.price <= p.compareAtPrice.value)
    && |p.currency| == 3
    && |p.images| <= MAX_IMAGES
    && forall i | 0 <= i < |p.images| :: p.images[i].altText.Some? ==> |p.images[i].altText.value| <= 180
  }

  predicate CategorySlugTaken(s: Store, slug: string, exclude: Option<Id>) {
    exists c | c in s.categories :: s.categories[c].slug == slug && exclude != Some(c)
  }

  predicate SlugTaken(s: Store, slug: string, exclude: Option<Id>) {
    exists p | p in s.products :: s.products[p].slug == slug && exclude != Some(p)
  }

  predicate SkuTaken(s: Store, sku: string, exclude: Option<Id>) {
    exists p | p in s.products :: s.products[p].sku == sku && exclude != Some(p)
  }

  function CheckCategory(s: Store, c: Category, existing: Option<Id>): Option<Error> {
    if c.parent.Some? && c.parent.value !in s.categories then Some(ParentCategoryNotFound)
    else if c.parent.Some? && existing == c.parent then Some(InvalidParentCategory)
    else if CategorySlugTaken(s, c.slug, existing) then Some(CategorySlugExists)
    else None
  }

  function CheckProduct(s: Store, p: ProductPayload, existing: Option<Id>): Option<Error> {
    if p.category !in s.categories || !s.categories[p.category].isActive then Some(CategoryNotFound)
    else if SlugTaken(s, p.slug, existing) then Some(ProductSlugExists)
    else if SkuTaken(s, p.sku, existing) then Some(ProductSkuExists)
    else None
  }

  function CreateCategory(s: Store, id: Id, c: Category): Result<Store, Error> {
    var refused := CheckCategory(s, c, None);
    if refused.Some? then Failure(refused.value)
    else if id in s.categories then Failure(UniqueViolation)
    else Success(s.(categories := s.categories[id := c]))
  }

  function UpdateCategory(s: Store, id: Id, c: Category): Result<Store, Error> {
    if id !in s.categories then Failure(CategoryNotFound) else
    var refused := CheckCategory(s, c, Some(id));
    if refused.Some? then Failure(refused.value)
    else Success(s.(categories := s.categories[id := c]))
  }

  function ProductRow(p: ProductPayload, seller: Id, createdAt: int): Product {
    Product(p.category, seller, p.name, p.slug, p.sku, p.description, p.price, p.compareAtPrice, p.currency,
            p.isActive, createdAt)
  }

  predicate NewImageIds(images: map<Id, Image>, ids: seq<Id>, count: nat) {
    |ids| == count
    && (forall i | 0 <= i < |ids| :: ids[i] !in images)
    && forall i, j | 0 <= i < j < |ids| :: ids[i] != ids[j]
  }

  function WithoutProduct(images: map<Id, Image>, product: Id): map<Id, Image> {
    map i | i in images && images[i].product != product :: images[i]
  }

  function AddImages(images: map<Id, Image>, product: Id, ids: seq<Id>, data: seq<ImageData>): map<Id, Image>
    requires |ids| == |data|
  {
    if ids == [] then images else
    AddImages(images, product, ids[..|ids| - 1], data[..|data| - 1])[ids[|ids| - 1] := Image(product, data[|data| - 1])]
  }

  function CreateProduct(s: Store, seller: Id, id: Id, imageIds: seq<Id>, now: int, p: ProductPayload)
    : Result<Store, Error>
  {
    var refused := CheckProduct(s, p, None);
    if refused.Some? then Failure(refused.value)
    else if id in s.products || !NewImageIds(s.images, imageIds, |p.images|) then Failure(UniqueViolation)
    else Success(s.(products := s.products[id := ProductRow(p, seller, now)],
                    images := AddImages(s.images, id, imageIds, p.images)))
  }

  function UpdateProduct(s: Store, seller: Id, id: Id, imageIds: seq<Id>, p: ProductPayload): Result<Store, Error> {
    if id !in s.products || s.products[id].seller != seller then Failure(ProductNotFound) else
    var refused := CheckProduct(s, p, Some(id));
    if refused.Some? then Failure(refused.value)
    else if !NewImageIds(s.images, imageIds, |p.images|) then Failure(UniqueViolation)
    else Success(s.(products := s.products[id := ProductRow(p, s.products[id].seller, s.products[id].createdAt)],
                    images := AddImages(WithoutProduct(s.images, id), id, imageIds, p.images)))
  }

  datatype Request =
    | CreateCategoryRequest(id: Id, category: Category)
    | UpdateCategoryRequest(id: Id, category: Category)
    | CreateProductRequest(seller: Id, id: Id, imageIds: seq<Id>, now: int, payload: ProductPayload)
    | UpdateProductRequest(seller: Id, id: Id, imageIds: seq<Id>, payload: ProductPayload)

  /** A request as the router hands it on: the schema is checked first. */
  function Handle(s: Store, r: Request): Result<Store, Error> {
    match r
    case CreateCategoryRequest(id, c) => if ValidCategory(c) then CreateCategory(s, id, c) else Failure(InvalidPayload)
    case UpdateCategoryRequest(id, c) => if ValidCategory(c) then UpdateCategory(s, id, c) else Failure(InvalidPayload)
    case CreateProductRequest(seller, id, imageIds, now, p) =>
      if ValidProduct(p) then CreateProduct(s, seller, id, imageIds, now, p) else Failure(InvalidPayload)
    case UpdateProductRequest(seller, id, imageIds, p) =>
      if ValidProduct(p) then UpdateProduct(s, seller, id, imageIds, p) else Failure(InvalidPayload)
  }

  /** A request that raises leaves the committed tables as they were. */
  function After(s: Store, r: Request): Store {
    var done := Handle(s, r);
    if done.Success? then done.value else s
  }

  function Run(s: Store, requests: seq<Request>): Store {
    if requests == [] then s else After(Run(s, requests[..|requests| - 1]), requests[|requests| - 1])
  }

  const EMPTY := Store(map[], map[], map[])

  ghost predicate CategoriesOk(cats: map<Id, Category>) {
    && ParentsOk(cats)
    && forall c, d | c in cats && d in cats && cats[c].slug == cats[d].slug :: c == d
  }

  ghost predicate ProductsOk(s: Store) {
    && (forall p, q | p in s.products && q in s.products && s.products[p].slug == s.products[q].slug :: p == q)
    && (forall p, q | p in s.products && q in s.products && s.products[p].sku == s.products[q].sku :: p == q)
    && (forall p | p in s.products :: s.products[p].category in s.categories && PricesOk(s.products[p]))
  }

  ghost predicate PricesOk(p: Product) {
    0 <= p.price && (p.compareAtPrice.Some? ==> p.price <= p.compareAtPrice.value)
  }

  ghost function ImagesOf(images: map<Id, Image>, product: Id): set<Id> {
    set i | i in images && images[i].product == product
  }

  ghost predicate ImagesOk(s: Store) {
    && (forall i | i in s.images :: s.images[i].product in s.products)
    && (forall p | p in s.products :: |ImagesOf(s.images, p)| <= MAX_IMAGES)
  }

  ghost predicate Inv(s: Store) {
    CategoriesOk(s.categories) && ProductsOk(s) && ImagesOk(s)
  }

  /** The added rows are exactly the given data under the given ids, and no other row changes. */
  lemma {:induction false} AddImagesAdds(images: map<Id, Image>, product: Id, ids: seq<Id>, data: seq<ImageData>)
    requires |ids| == |data| && forall i, j | 0 <= i < j < |ids| :: ids[i] != ids[j]
    ensures var r := AddImages(images, product, ids, data);
            && r.Keys == images.Keys + Ordering.ToSet(ids)
            && (forall k | 0 <= k < |ids| :: r[ids[k]] == Image(product, data[k]))
            && (forall i | i in images && i !in ids :: r[i] == images[i])
  {
    if ids != [] {
      var front, last := ids[..|ids| - 1], ids[|ids| - 1];
      AddImagesAdds(images, product, front, data[..|data| - 1]);
      assert forall i :: i in ids <==> i in front || i == last by {
        assert ids == front + [last];
      }
      assert last !in front;
      assert Ordering.ToSet(ids) == Ordering.ToSet(front) + {last};
      forall k | 0 <= k < |ids|
        ensures AddImages(images, product, ids, data)[ids[k]] == Image(product, data[k])
      {
        assert k < |front| ==> ids[k] == front[k] && data[k] == data[..|data| - 1][k];
      }
    }
  }

  /** After a write of product `id` its image rows are exactly the payload's images, one row each, and the
      rows of every other product are untouched. */
  ghost predicate ImagesReplaced(
    before: map<Id, Image>, after: map<Id, Image>, id: Id, ids: seq<Id>, data: seq<ImageData>)
  {
    && |ids| == |data|
    && Ordering.NoRepeats(ids)
    && ImagesOf(after, id) == Ordering.ToSet(ids)
    && (forall k | 0 <= k < |ids| :: ids[k] in after && after[ids[k]].data == data[k])
    && WithoutProduct(after, id) == WithoutProduct(before, id)
  }

  lemma AddImagesReplaces(images: map<Id, Image>, id: Id, ids: seq<Id>, data: seq<ImageData>)
    requires NewImageIds(images, ids, |data|)
    ensures ImagesReplaced(images, AddImages(WithoutProduct(images, id), id, ids, data), id, ids, data)
  {
    var kept := WithoutProduct(images, id);
    AddImagesAdds(kept, id, ids, data);
    var after := AddImages(kept, id, ids, data);
    assert forall i | i in ids :: i in Ordering.ToSet(ids);
    forall i ensures i in ImagesOf(after, id) <==> i in Ordering.ToSet(ids) {
    }
    forall i ensures i in WithoutProduct(after, id) <==> i in kept {
      if i in kept {
        assert i !in ids;
      }
    }
  }

  lemma ReplacementKeepsImagesOk(
    s: Store, id: Id, row: Product, images: map<Id, Image>, ids: seq<Id>, data: seq<ImageData>)
    requires ImagesOk(s) && ImagesReplaced(s.images, images, id, ids, data) && |data| <= MAX_IMAGES
    ensures ImagesOk(s.(products := s.products[id := row], images := images))
  {
    var s' := s.(products := s.products[id := row], images := images);
    forall i | i in images ensures images[i].product in s'.products {
      if images[i].product != id {
        assert i in WithoutProduct(images, id);
        assert i in s.images && s.images[i] == images[i];
      }
    }
    forall p | p in s'.products ensures |ImagesOf(images, p)| <= MAX_IMAGES {
      if p == id {
        Ordering.SetSize(ids);
      } else {
        forall i ensures i in ImagesOf(images, p) <==> i in ImagesOf(s.images, p) {
          assert i in WithoutProduct(images, id) <==> i in WithoutProduct(s.images, id);
        }
        assert ImagesOf(images, p) == ImagesOf(s.images, p);
      }
    }
  }

  lemma UniqueAfterWrite(s: Store, id: Id, row: Product)
    requires ProductsOk(s)
    requires !SlugTaken(s, row.slug, Some(id)) && !SkuTaken(s, row.sku, Some(id))
    requires row.category in s.categories && PricesOk(row)
    ensures ProductsOk(s.(products := s.products[id := row]))
  {
  }

  lemma ProductWriteKeeps(s: Store, id: Id, row: Product, images: map<Id, Image>, ids: seq<Id>, data: seq<ImageData>)
    requires Inv(s) && ImagesReplaced(s.images, images, id, ids, data) && |data| <= MAX_IMAGES
    requires !SlugTaken(s, row.slug, Some(id)) && !SkuTaken(s, row.sku, Some(id))
    requires row.category in s.categories && PricesOk(row)
    ensures Inv(s.(products := s.products[id := row], images := images))
  {
    UniqueAfterWrite(s, id, row);
    ReplacementKeepsImagesOk(s, id, row, images, ids, data);
  }

  /** A new product has no image rows to remove. */
  lemma NoImagesYet(s: Store, id: Id)
    requires ImagesOk(s) && id !in s.products
    ensures WithoutProduct(s.images, id) == s.images
  {
  }

  lemma CategoryWriteKeeps(s: Store, id: Id, c: Category, existing: Option<Id>)
    requires Inv(s) && CheckCategory(s, c, existing).None?
    requires existing == if id in s.categories then Some(id) else None
    ensures Inv(s.(categories := s.categories[id := c]))
  {
  }

  lemma HandleKeeps(s: Store, r: Request)
    requires Inv(s)
    ensures Inv(After(s, r))
  {
    if Handle(s, r).Success? {
      match r
      case CreateCategoryRequest(id, c) => CategoryWriteKeeps(s, id, c, None);
      case UpdateCategoryRequest(id, c) => CategoryWriteKeeps(s, id, c, Some(id));
      case CreateProductRequest(seller, id, ids, now, p) =>
        NoImagesYet(s, id);
        AddImagesReplaces(s.images, id, ids, p.images);
        ProductWriteKeeps(s, id, ProductRow(p, seller, now), After(s, r).images, ids, p.images);
      case UpdateProductRequest(seller, id, ids, p) =>
        AddImagesReplaces(s.images, id, ids, p.images);
        var row := ProductRow(p, s.products[id].seller, s.products[id].createdAt);
        ProductWriteKeeps(s, id, row, After(s, r).images, ids, p.images);
    }
  }

  /** Every run keeps the uniqueness of slugs and SKUs, the references, the price bounds and the partition
      of the image rows. */
  lemma {:induction false} RunKeeps(s: Store, requests: seq<Request>)
    requires Inv(s)
    ensures Inv(Run(s, requests))
  {
    if requests != [] {
      RunKeeps(s, requests[..|requests| - 1]);
      HandleKeeps(Run(s, requests[..|requests| - 1]), requests[|requests| - 1]);
    }
  }

  /** Spelled out from the empty catalog. */
  lemma ReachableCatalog(requests: seq<Request>)
    ensures var s := Run(EMPTY, requests);
      && (forall p, q | p in s.products && q in s.products && p != q ::
            s.products[p].slug != s.products[q].slug && s.products[p].sku != s.products[q].sku)
      && (forall c, d | c in s.categories && d in s.categories && c != d ::
            s.categories[c].slug != s.categories[d].slug)
      && (forall c | c in s.categories && s.categories[c].parent.Some? ::
            s.categories[c].parent.value in s.categories && s.categories[c].parent != Some(c))
      && (forall p | p in s.products :: s.products[p].category in s.categories && 0 <= s.products[p].price
            && (s.products[p].compareAtPrice.Some? ==> s.products[p].price <= s.products[p].compareAtPrice.value))
      && (forall i | i in s.images :: s.images[i].product in s.products)
      && (forall p | p in s.products :: |ImagesOf(s.images, p)| <= 10)
  {
    RunKeeps(EMPTY, requests);
  }

  /** Products stay, with the seller and the creation time they were created with. */
  lemma {:induction false} SellerNeverChanges(s: Store, requests: seq<Request>, p: Id)
    requires p in s.products
    ensures var s' := Run(s, requests);
            p in s'.products && s'.products[p].seller == s.products[p].seller
            && s'.products[p].createdAt == s.products[p].createdAt
  {
    if requests != [] {
      SellerNeverChanges(s, requests[..|requests| - 1], p);
    }
  }

  /** A successful product write leaves exactly the payload's images for that product and touches no other. */
  lemma ProductWritesReplaceImages(s: Store, r: Request)
    requires Inv(s) && Handle(s, r).Success?
    ensures r.CreateProductRequest? || r.UpdateProductRequest? ==>
              ImagesReplaced(s.images, After(s, r).images, r.id, r.imageIds, r.payload.images)
              && After(s, r).products == s.products[r.id := After(s, r).products[r.id]]
    ensures r.CreateCategoryRequest? || r.UpdateCategoryRequest? ==>
              After(s, r).images == s.images && After(s, r).products == s.products
  {
    match r
    case CreateCategoryRequest(_, _) =>
    case UpdateCategoryRequest(_, _) =>
    case CreateProductRequest(seller, id, ids, now, p) =>
      NoImagesYet(s, id);
      AddImagesReplaces(s.images, id, ids, p.images);
    case UpdateProductRequest(seller, id, ids, p) =>
      AddImagesReplaces(s.images, id, ids, p.images);
  }

  /** An update may keep the slug and the SKU the product has. */
  lemma OwnSlugAndSkuAreNoConflict(s: Store, seller: Id, id: Id, ids: seq<Id>, p: ProductPayload)
    requires Inv(s) && id in s.products && s.products[id].seller == seller
    requires p.slug == s.products[id].slug && p.sku == s.products[id].sku
    requires p.category in s.categories && s.categories[p.category].isActive
    requires NewImageIds(s.images, ids, |p.images|)
    ensures UpdateProduct(s, seller, id, ids, p).Success?
  {
  }

  /** The update that would put a category below one of its own descendants is the only request that can
      close a cycle, and nothing in the service refuses it. */
  ghost predicate ClosesCycle(s: Store, r: Request) {
    && r.UpdateCategoryRequest? && Handle(s, r).Success?
    && r.category.parent.Some? && IsAncestor(s.categories, r.id, r.category.parent.value)
  }

  lemma RequestKeepsForestIff(s: Store, r: Request)
    requires Inv(s) && Acyclic(s.categories)
    ensures Acyclic(After(s, r).categories) <==> !ClosesCycle(s, r)
  {
    if Handle(s, r).Success? {
      match r
      case CreateCategoryRequest(id, c) => CreateKeepsAcyclic(s.categories, id, c);
      case UpdateCategoryRequest(id, c) => UpdateKeepsAcyclicIff(s.categories, id, c);
      case CreateProductRequest(_, _, _, _, _) =>
      case UpdateProductRequest(_, _, _, _) =>
    }
  }

  ghost predicate ForestAfter(s: Store, requests: seq<Request>, n: nat)
    requires n <= |requests|
  {
    Acyclic(Run(s, requests[..n]).categories)
  }

  ghost predicate ForestThroughout(s: Store, requests: seq<Request>) {
    forall n: nat | n <= |requests| :: ForestAfter(s, requests, n)
  }

  ghost predicate ClosesCycleAt(s: Store, requests: seq<Request>, n: nat)
    requires n < |requests|
  {
    ClosesCycle(Run(s, requests[..n]), requests[n])
  }

  ghost predicate NeverClosesCycle(s: Store, requests: seq<Request>) {
    forall n: nat | n < |requests| :: !ClosesCycleAt(s, requests, n)
  }

  /** A run shows a forest at every moment exactly when none of its updates puts a category below a
      descendant. */
  lemma RunsKeepForestIff(s: Store, requests: seq<Request>)
    requires Inv(s) && Acyclic(s.categories)
    ensures ForestThroughout(s, requests) <==> NeverClosesCycle(s, requests)
  {
    var good := (i: nat) => i <= |requests| && ForestAfter(s, requests, i);
    var bad := (i: nat) => i < |requests| && ClosesCycleAt(s, requests, i);
    assert requests[..0] == [];
    forall i: nat | i < |requests| && good(i) ensures good(i + 1) <==> !bad(i) {
      RunKeeps(s, requests[..i]);
      RequestKeepsForestIff(Run(s, requests[..i]), requests[i]);
      assert requests[..i + 1][..i] == requests[..i];
    }
    Runs.ThroughoutIff(good, bad, |requests|);
    forall i: nat | i <= |requests| ensures good(i) <==> ForestAfter(s, requests, i) {
    }
    forall i: nat | i < |requests| ensures bad(i) <==> ClosesCycleAt(s, requests, i) {
    }
  }

  /** And in such runs every walk to the root ends, within as many steps as there are categories. */
  lemma WalksEndInForestRuns(s: Store, requests: seq<Request>, c: Id)
    requires Inv(s) && Acyclic(s.categories) && NeverClosesCycle(s, requests)
    ensures var cats := Run(s, requests).categories; Up(cats, c, |cats|).None?
  {
    RunsKeepForestIff(s, requests);
    assert ForestAfter(s, requests, |requests|) && requests[..|requests|] == requests;
    AncestorWalksEnd(Run(s, requests).categories, c);
  }

  /** From the empty catalog, four accepted requests make two categories each other's parent. */
  lemma FourRequestsCloseACycle()
    ensures var a, b := Category(None, "A", "a", None, true), Category(None, "B", "b", None, true);
            var s2 := After(After(EMPTY, CreateCategoryRequest(1, a)), CreateCategoryRequest(2, b));
            var r3 := UpdateCategoryRequest(1, a.(parent := Some(2)));
            var r4 := UpdateCategoryRequest(2, b.(parent := Some(1)));
            && Handle(s2, r3).Success? && Handle(After(s2, r3), r4).Success?
            && IsAncestor(After(After(s2, r3), r4).categories, 1, 1)
  {
    var a, b := Category(None, "A", "a", None, true), Category(None, "B", "b", None, true);
    assert Slugs.Scan(Slugs.WordStart, "a") == Slugs.InWord && Slugs.Scan(Slugs.WordStart, "b") == Slugs.InWord;
    var s2 := After(After(EMPTY, CreateCategoryRequest(1, a)), CreateCategoryRequest(2, b));
    assert s2 == Store(map[1 := a, 2 := b], map[], map[]);
    var r3, r4 := UpdateCategoryRequest(1, a.(parent := Some(2))), UpdateCategoryRequest(2, b.(parent := Some(1)));
    var cats := After(After(s2, r3), r4).categories;
    assert cats == map[1 := a.(parent := Some(2)), 2 := b.(parent := Some(1))];
    assert Up(cats, 1, 2) == Some(1);
  }
}

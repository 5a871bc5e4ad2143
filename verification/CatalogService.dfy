/** The catalog service and its repositories over a session, one request at a time. */
module CatalogServices {
  import opened Wrappers
  import opened Sessions
  import opened CatalogRows
  import opened Catalog
  import opened Attributes

  datatype CategoryField =
    | CategoryName(name: string)
    | CategorySlug(slug: string)
    | CategoryDescription(description: Option<string>)
    | CategoryParent(parent: Option<Id>)
    | CategoryActive(active: bool)

  function AssignCategory(c: Category, f: CategoryField): Category {
    match f
    case CategoryName(v) => c.(name := v)
    case CategorySlug(v) => c.(slug := v)
    case CategoryDescription(v) => c.(description := v)
    case CategoryParent(v) => c.(parent := v)
    case CategoryActive(v) => c.(isActive := v)
  }

  function CategoryFields(c: Category): seq<CategoryField> {
    [CategoryName(c.name), CategorySlug(c.slug), CategoryDescription(c.description), CategoryParent(c.parent),
     CategoryActive(c.isActive)]
  }

  lemma CategoryFieldsGiveTheRow(row: Category, c: Category)
    ensures AssignAll(row, CategoryFields(c), AssignCategory) == c
  {
    var f := CategoryFields(c);
    assert f[0..] == f && f[5..] == [];
    var r1 := AssignFrom(row, f, 0, AssignCategory);
    var r2 := AssignFrom(r1, f, 1, AssignCategory);
    var r3 := AssignFrom(r2, f, 2, AssignCategory);
    var r4 := AssignFrom(r3, f, 3, AssignCategory);
    var r5 := AssignFrom(r4, f, 4, AssignCategory);
  }

  datatype ProductField =
    | ProductCategory(category: Id)
    | ProductName(name: string)
    | ProductSlug(slug: string)
    | ProductSku(sku: string)
    | ProductDescription(description: string)
    | ProductPrice(price: int)
    | ProductCompareAt(compareAtPrice: Option<int>)
    | ProductCurrency(currency: string)
    | ProductActive(active: bool)

  function AssignProduct(p: Product, f: ProductField): Product {
    match f
    case ProductCategory(v) => p.(category := v)
    case ProductName(v) => p.(name := v)
    case ProductSlug(v) => p.(slug := v)
    case ProductSku(v) => p.(sku := v)
    case ProductDescription(v) => p.(description := v)
    case ProductPrice(v) => p.(price := v)
    case ProductCompareAt(v) => p.(compareAtPrice := v)
    case ProductCurrency(v) => p.(currency := v)
    case ProductActive(v) => p.(isActive := v)
  }

  function ProductFields(p: ProductPayload): seq<ProductField> {
    [ProductCategory(p.category), ProductName(p.name), ProductSlug(p.slug), ProductSku(p.sku),
     ProductDescription(p.description), ProductPrice(p.price), ProductCompareAt(p.compareAtPrice),
     ProductCurrency(p.currency), ProductActive(p.isActive)]
  }

  lemma FirstProductFields(row: Product, p: ProductPayload)
    ensures var f := ProductFields(p);
            AssignAll(row, f, AssignProduct) ==
            AssignAll(row.(category := p.category, name := p.name, slug := p.slug, sku := p.sku), f[4..], AssignProduct)
  {
    var f := ProductFields(p);
    assert f[0..] == f;
    var r1 := AssignFrom(row, f, 0, AssignProduct);
    var r2 := AssignFrom(r1, f, 1, AssignProduct);
    var r3 := AssignFrom(r2, f, 2, AssignProduct);
    var r4 := AssignFrom(r3, f, 3, AssignProduct);
  }

  lemma LastProductFields(row: Product, p: ProductPayload)
    ensures AssignAll(row, ProductFields(p)[4..], AssignProduct) ==
            row.(description := p.description, price := p.price, compareAtPrice := p.compareAtPrice,
                 currency := p.currency, isActive := p.isActive)
  {
    var f := ProductFields(p);
    assert f[9..] == [];
    var r5 := AssignFrom(row, f, 4, AssignProduct);
    var r6 := AssignFrom(r5, f, 5, AssignProduct);
    var r7 := AssignFrom(r6, f, 6, AssignProduct);
    var r8 := AssignFrom(r7, f, 7, AssignProduct);
    var r9 := AssignFrom(r8, f, 8, AssignProduct);
  }

  /** The loop over the payload's fields leaves the seller and the creation time alone. */
  lemma ProductFieldsGiveTheRow(row: Product, p: ProductPayload)
    ensures AssignAll(row, ProductFields(p), AssignProduct) == ProductRow(p, row.seller, row.createdAt)
  {
    FirstProductFields(row, p);
    LastProductFields(row.(category := p.category, name := p.name, slug := p.slug, sku := p.sku), p);
  }

  class CategoryRepository {
    const session: Session<Store>

    constructor (session: Session<Store>)
      ensures this.session == session
    {
      this.session := session;
    }

    method GetById(id: Id) returns (found: Option<Category>)
      ensures found == if id in session.working.categories then Some(session.working.categories[id]) else None
    {
      found := if id in session.working.categories then Some(session.working.categories[id]) else None;
    }

    method SlugExists(slug: string, exclude: Option<Id>) returns (taken: bool)
      ensures taken == CategorySlugTaken(session.working, slug, exclude)
    {
      taken := CategorySlugTaken(session.working, slug, exclude);
    }

    /** The flush refuses a taken id or slug. */
    method Create(id: Id, values: Category) returns (r: Result<Id, Error>)
      modifies session`working
      ensures r.Failure? <==>
        id in old(session.working).categories || CategorySlugTaken(old(session.working), values.slug, None)
      ensures r.Failure? ==> r.error == UniqueViolation && session.working == old(session.working)
      ensures r.Success? ==> r == Success(id)
      ensures r.Success? ==>
        session.working == old(session.working).(categories := old(session.working).categories[id := values])
    {
      if id in session.working.categories || CategorySlugTaken(session.working, values.slug, None) {
        return Failure(UniqueViolation);
      }
      session.working := session.working.(categories := session.working.categories[id := values]);
      return Success(id);
    }

    method Update(id: Id, values: Category) returns (r: Result<Id, Error>)
      requires id in session.working.categories
      modifies session`working
      ensures r.Failure? <==> CategorySlugTaken(old(session.working), values.slug, Some(id))
      ensures r.Failure? ==> r.error == UniqueViolation && session.working == old(session.working)
      ensures r.Success? ==> r == Success(id)
      ensures r.Success? ==>
        session.working == old(session.working).(categories := old(session.working).categories[id := values])
    {
      var row := SetAttributes(session.working.categories[id], CategoryFields(values), AssignCategory);
      CategoryFieldsGiveTheRow(session.working.categories[id], values);
      if CategorySlugTaken(session.working, row.slug, Some(id)) {
        return Failure(UniqueViolation);
      }
      session.working := session.working.(categories := session.working.categories[id := row]);
      return Success(id);
    }
  }

  class ProductRepository {
    const session: Session<Store>

    constructor (session: Session<Store>)
      ensures this.session == session
    {
      this.session := session;
    }

    method GetForSeller(id: Id, seller: Id) returns (found: Option<Product>)
      ensures found == if id in session.working.products && session.working.products[id].seller == seller
                       then Some(session.working.products[id]) else None
    {
      found := if id in session.working.products && session.working.products[id].seller == seller
               then Some(session.working.products[id]) else None;
    }

    method SlugExists(slug: string, exclude: Option<Id>) returns (taken: bool)
      ensures taken == SlugTaken(session.working, slug, exclude)
    {
      taken := SlugTaken(session.working, slug, exclude);
    }

    method SkuExists(sku: string, exclude: Option<Id>) returns (taken: bool)
      ensures taken == SkuTaken(session.working, sku, exclude)
    {
      taken := SkuTaken(session.working, sku, exclude);
    }

    /** Assigning `product.images`: the old rows of the product are orphans and go, one row per payload image
        comes. */
    method ReplaceImages(product: Id, ids: seq<Id>, data: seq<ImageData>)
      requires NewImageIds(session.working.images, ids, |data|)
      modifies session`working
      ensures session.working == old(session.working).(images :=
                AddImages(WithoutProduct(old(session.working).images, product), product, ids, data))
      ensures ImagesReplaced(old(session.working).images, session.working.images, product, ids, data)
    {
      var kept := WithoutProduct(session.working.images, product);
      var rows := kept;
      for k := 0 to |data|
        invariant rows == AddImages(kept, product, ids[..k], data[..k])
      {
        rows := rows[ids[k] := Image(product, data[k])];
        assert ids[..k + 1][..k] == ids[..k] && data[..k + 1][..k] == data[..k];
      }
      assert ids[..|data|] == ids && data[..|data|] == data;
      AddImagesReplaces(session.working.images, product, ids, data);
      session.working := session.working.(images := rows);
    }

    method Create(id: Id, row: Product, ids: seq<Id>, data: seq<ImageData>) returns (r: Result<Id, Error>)
      modifies session`working
      ensures r.Failure? <==>
        id in old(session.working).products || SlugTaken(old(session.working), row.slug, None)
        || SkuTaken(old(session.working), row.sku, None) || !NewImageIds(old(session.working).images, ids, |data|)
      ensures r.Failure? ==> r.error == UniqueViolation && session.working == old(session.working)
      ensures r.Success? ==> r.value == id && session.working == old(session.working).(
        products := old(session.working).products[id := row],
        images := AddImages(WithoutProduct(old(session.working).images, id), id, ids, data))
    {
      if id in session.working.products || SlugTaken(session.working, row.slug, None)
         || SkuTaken(session.working, row.sku, None) || !NewImageIds(session.working.images, ids, |data|) {
        return Failure(UniqueViolation);
      }
      session.working := session.working.(products := session.working.products[id := row]);
      ReplaceImages(id, ids, data);
      return Success(id);
    }

    method Update(id: Id, values: ProductPayload, ids: seq<Id>) returns (r: Result<Id, Error>)
      requires id in session.working.products
      modifies session`working
      ensures r.Failure? <==>
        SlugTaken(old(session.working), values.slug, Some(id)) || SkuTaken(old(session.working), values.sku, Some(id))
        || !NewImageIds(old(session.working).images, ids, |values.images|)
      ensures r.Failure? ==> r.error == UniqueViolation && session.working == old(session.working)
      ensures r.Success? ==> r == Success(id)
      ensures r.Success? ==>
        var was := old(session.working).products[id];
        session.working == old(session.working).(
          products := old(session.working).products[id := ProductRow(values, was.seller, was.createdAt)],
          images := AddImages(WithoutProduct(old(session.working).images, id), id, ids, values.images))
    {
      var row := SetAttributes(session.working.products[id], ProductFields(values), AssignProduct);
      ProductFieldsGiveTheRow(session.working.products[id], values);
      if SlugTaken(session.working, row.slug, Some(id)) || SkuTaken(session.working, row.sku, Some(id))
         || !NewImageIds(session.working.images, ids, |values.images|) {
        return Failure(UniqueViolation);
      }
      session.working := session.working.(products := session.working.products[id := row]);
      ReplaceImages(id, ids, values.images);
      return Success(id);
    }
  }

  class CatalogService {
    const session: Session<Store>
    const categories: CategoryRepository
    const products: ProductRepository

    ghost predicate Valid() {
      categories.session == session && products.session == session
    }

    constructor (session: Session<Store>, categories: CategoryRepository, products: ProductRepository)
      requires categories.session == session && products.session == session
      ensures Valid() && this.session == session
    {
      this.session, this.categories, this.products := session, categories, products;
    }

    method ValidateCategory(payload: Category, existing: Option<Id>) returns (refused: Option<Error>)
      requires Valid()
      ensures refused == CheckCategory(session.working, payload, existing)
    {
      if payload.parent.Some? {
        var parent := categories.GetById(payload.parent.value);
        if parent.None? {
          return Some(ParentCategoryNotFound);
        }
        if Some(payload.parent.value) == existing {
          return Some(InvalidParentCategory);
        }
      }
      var taken := categories.SlugExists(payload.slug, existing);
      return if taken then Some(CategorySlugExists) else None;
    }

    method ValidateProduct(payload: ProductPayload, existing: Option<Id>) returns (refused: Option<Error>)
      requires Valid()
      ensures refused == CheckProduct(session.working, payload, existing)
    {
      var category := categories.GetById(payload.category);
      if category.None? || !category.value.isActive {
        return Some(CategoryNotFound);
      }
      var slugTaken := products.SlugExists(payload.slug, existing);
      if slugTaken {
        return Some(ProductSlugExists);
      }
      var skuTaken := products.SkuExists(payload.sku, existing);
      return if skuTaken then Some(ProductSkuExists) else None;
    }

    method CreateCategory(id: Id, payload: Category) returns (r: Result<Id, Error>)
      requires Valid() && ValidCategory(payload)
      modifies session
      ensures Catalog.CreateCategory(old(session.committed), id, payload) ==
              if r.Success? then Success(session.committed) else Failure(r.error)
      ensures if r.Success? then r.value == id else session.committed == old(session.committed)
    {
      session.Begin();
      var refused := ValidateCategory(payload, None);
      if refused.Some? {
        return Failure(refused.value);
      }
      var created :- categories.Create(id, payload);
      session.Commit();
      return Success(created);
    }

    method UpdateCategory(id: Id, payload: Category) returns (r: Result<Id, Error>)
      requires Valid() && ValidCategory(payload)
      modifies session
      ensures Catalog.UpdateCategory(old(session.committed), id, payload) ==
              if r.Success? then Success(session.committed) else Failure(r.error)
      ensures if r.Success? then r.value == id else session.committed == old(session.committed)
    {
      session.Begin();
      var category := categories.GetById(id);
      if category.None? {
        return Failure(CategoryNotFound);
      }
      var refused := ValidateCategory(payload, Some(id));
      if refused.Some? {
        return Failure(refused.value);
      }
      r := categories.Update(id, payload);
      if r.Success? {
        session.Commit();
      }
    }

    /** Image rows refer to existing products, by their foreign key. */
    method CreateProduct(seller: Id, id: Id, ids: seq<Id>, now: int, payload: ProductPayload)
      returns (r: Result<Id, Error>)
      requires Valid() && ValidProduct(payload)
      requires ImagesOk(session.committed)
      modifies session
      ensures Catalog.CreateProduct(old(session.committed), seller, id, ids, now, payload) ==
              if r.Success? then Success(session.committed) else Failure(r.error)
      ensures if r.Success? then r.value == id else session.committed == old(session.committed)
    {
      session.Begin();
      var refused := ValidateProduct(payload, None);
      if refused.Some? {
        return Failure(refused.value);
      }
      if id !in session.working.products {
        NoImagesYet(session.working, id);
      }
      var created :- products.Create(id, ProductRow(payload, seller, now), ids, payload.images);
      session.Commit();
      return Success(created);
    }

    method UpdateProduct(seller: Id, id: Id, ids: seq<Id>, payload: ProductPayload) returns (r: Result<Id, Error>)
      requires Valid() && ValidProduct(payload)
      modifies session
      ensures Catalog.UpdateProduct(old(session.committed), seller, id, ids, payload) ==
              if r.Success? then Success(session.committed) else Failure(r.error)
      ensures if r.Success? then r.value == id else session.committed == old(session.committed)
    {
      session.Begin();
      var product := products.GetForSeller(id, seller);
      if product.None? {
        return Failure(ProductNotFound);
      }
      var refused := ValidateProduct(payload, Some(id));
      if refused.Some? {
        return Failure(refused.value);
      }
      var updated :- products.Update(id, payload, ids);
      session.Commit();
      return Success(updated);
    }
  }
}

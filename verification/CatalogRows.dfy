/** The rows of the catalog tables. Prices are in cents. */
module CatalogRows {
  import opened Wrappers

  type Id = nat

  datatype Category = Category(
    parent: Option<Id>,
    name: string,
    slug: string,
    description: Option<string>,
    isActive: bool)

  datatype Product = Product(
    category: Id,
    seller: Id,
    name: string,
    slug: string,
    sku: string,
    description: string,
    price: int,
    compareAtPrice: Option<int>,
    currency: string,
    isActive: bool,
    createdAt: int)

  datatype ImageData = ImageData(url: string, altText: Option<string>, position: nat, isPrimary: bool)

  datatype Image = Image(product: Id, data: ImageData)
}

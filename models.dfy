/**
 * The catalogue entity of the storefront. The row's numeric id is not a field here: the
 * Product table is a map from id to Product (see Seed and CartViews).
 */
module Models {

  /**
   * One catalogue row. The price is a fixed-point decimal with two places, kept as an
   * integer number of cents; created_at is not modelled.
   */
  datatype Product = Product(
    name: string,
    description: string,
    cause: string,
    priceCents: int,
    imageUrl: string,
    active: bool)

  /** The Product table: row id to row. Ids are assigned by the database and never reused. */
  type Catalogue = map<nat, Product>
}

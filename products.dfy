/**
 * The product record in its two shapes: the domain model `Product` handed to
 * the presentation layer and the row `ProductEntity` of the local `products`
 * table, with the two mappers of the repository between them.
 */
module Products {

  const MinInt: int := -0x8000_0000
  const MaxInt: int := 0x7fff_ffff

  /** Kotlin's `Int`: a 32-bit signed integer. */
  type Int32 = x: int | MinInt <= x <= MaxInt

  /** The domain model. `price` is a Kotlin `Double`, modelled as a real number. */
  datatype Product = Product(id: string, name: string, price: real, quantity: Int32)

  /** A row of the `products` table, whose primary key is `id`. */
  datatype ProductEntity = ProductEntity(id: string, name: string, price: real, quantity: Int32)

  /** `ProductEntity.toProduct()`: copies the four columns into a domain model. */
  function ToProduct(e: ProductEntity): (p: Product)
    ensures ToEntity(p) == e
  {
    Product(e.id, e.name, e.price, e.quantity)
  }

  /** `Product.toEntity()`: copies the four fields into a table row. */
  function ToEntity(p: Product): (e: ProductEntity)
    ensures e.id == p.id
  {
    ProductEntity(p.id, p.name, p.price, p.quantity)
  }

  /** The two mappers are inverse to each other, in both orders. */
  lemma MappersInverse(p: Product, e: ProductEntity)
    ensures ToProduct(ToEntity(p)) == p
    ensures ToEntity(ToProduct(e)) == e
    ensures ToEntity(p).id == p.id
  {
  }
}

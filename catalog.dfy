/** The product service's product table, written by the seller controllers and
    by the consumers of stock facts. */
module Catalog {

  /** The availability of a product, as the stock facts project it. */
  datatype Status = Pending | Available | OutOfStock | Deleted

  datatype Product = Product(
    name: string, description: string, price: real, images: seq<string>,
    category: string, sellerId: int, status: Status, createdAt: int)

  /** The product table. Ids are handed out by an auto-increment counter that
      starts at 1. */
  class ProductTable {
    var products: map<int, Product>
    var nextId: int

    ghost predicate Valid()
      reads this
    {
      1 <= nextId && forall id :: id in products ==> 1 <= id < nextId
    }

    constructor ()
      ensures products == map[] && nextId == 1 && Valid()
    {
      products := map[];
      nextId := 1;
    }
  }
}

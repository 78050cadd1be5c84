/**
 * The remote `products` collection, seen only at its boundary: a set of
 * documents keyed by the product id, whose writes either are confirmed or
 * fail. Whether a write reaches the server is not something the program
 * decides, so each write takes it as the parameter `reachable`.
 */
module Remote {
  import opened Wrappers
  import opened Products

  /** A write the remote store could not confirm (no network, no permission). */
  datatype RemoteError = WriteNotConfirmed

  class RemoteStore {
    var documents: map<string, Product>

    constructor (documents: map<string, Product>)
      ensures this.documents == documents
    {
      this.documents := documents;
    }

    /** `saveProduct(product)`: sets the document named by `product.id`, or fails. */
    method SaveProduct(product: Product, reachable: bool) returns (r: Outcome<RemoteError>)
      modifies this
      ensures r.Pass? <==> reachable
      ensures r.Pass? ==> documents == old(documents)[product.id := product]
      ensures r.Fail? ==> documents == old(documents)
    {
      if reachable {
        documents := documents[product.id := product];
        r := Pass;
      } else {
        r := Fail(WriteNotConfirmed);
      }
    }

    /** `deleteProduct(productId)`: deletes the document named `productId`, or fails. */
    method DeleteProduct(productId: string, reachable: bool) returns (r: Outcome<RemoteError>)
      modifies this
      ensures r.Pass? <==> reachable
      ensures r.Pass? ==> documents == old(documents) - {productId}
      ensures r.Fail? ==> documents == old(documents)
    {
      if reachable {
        documents := documents - {productId};
        r := Pass;
      } else {
        r := Fail(WriteNotConfirmed);
      }
    }
  }
}

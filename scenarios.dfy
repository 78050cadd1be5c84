/**
 * Whole flows through the stores, the repository and the detail screen,
 * proved from the contracts of the parts alone.
 */
module Scenarios {
  import opened Wrappers
  import opened Products
  import opened Dao
  import opened Remote
  import opened Repository
  import opened DetailViewModel

  /**
   * A new product: the screen opens on the empty form, and saving "Widget"
   * at "9.99" with quantity "3" while the remote store is reachable ends in
   * `Finished`, with the product stored under the generated id in both
   * stores and listed by the repository.
   */
  method NewProductFlow(parsePrice: string -> Option<real>, freshId: string)
    returns (repository: ProductRepository, screen: ProductDetailViewModel)
    requires parsePrice("9.99") == Some(9.99)
    ensures repository.Valid() && screen.uiState == Finished
    ensures repository.GetProductById(freshId) == Some(Product(freshId, "Widget", 9.99, 3))
    ensures repository.remote.documents == map[freshId := Product(freshId, "Widget", 9.99, 3)]
    ensures repository.dao.products == map[freshId := ToEntity(Product(freshId, "Widget", 9.99, 3))]
    ensures Product(freshId, "Widget", 9.99, 3) in repository.GetAllProducts()
  {
    var dao := new ProductDao();
    var remote := new RemoteStore(map[]);
    repository := new ProductRepository(dao, remote);
    screen := new ProductDetailViewModel(None, repository);
    ValidationAccepts(parsePrice);
    var r := screen.SaveProduct("Widget", "9.99", "3", parsePrice, freshId, true);
    assert dao.products[freshId] == ToEntity(Product(freshId, "Widget", 9.99, 3));
  }

  /**
   * A refused input, or a save the remote store does not confirm, changes
   * neither store and never reaches `Finished`.
   */
  method FailedSaves(parsePrice: string -> Option<real>, freshId: string, existing: Product)
    returns (repository: ProductRepository, screen: ProductDetailViewModel)
    requires parsePrice("abc") == None && parsePrice("9.99") == Some(9.99)
    ensures repository.Valid() && screen.uiState == DetailState.Success(None)
    ensures repository.GetProductById(existing.id) == Some(existing)
    ensures repository.remote.documents == map[existing.id := existing]
    ensures |repository.dao.products| == 1
  {
    var dao := new ProductDao();
    dao.Upsert(ToEntity(existing));
    var remote := new RemoteStore(map[existing.id := existing]);
    repository := new ProductRepository(dao, remote);
    screen := new ProductDetailViewModel(None, repository);
    var r := screen.SaveProduct("Widget", "abc", "5", parsePrice, freshId, true);
    assert r == Pass;
    ValidationAccepts(parsePrice);
    r := screen.SaveProduct("Widget", "9.99", "3", parsePrice, freshId, false);
    assert r.Fail?;
    assert dao.products == map[existing.id := ToEntity(existing)];
  }

  /**
   * A product added to the remote collection by someone else reaches the
   * local table through the mirror alone, with no write made by this app.
   */
  method RemoteAdditionMirrored(x: Product) returns (repository: ProductRepository)
    ensures repository.Valid()
    ensures repository.GetProductById(x.id) == Some(x)
    ensures repository.ops == [LocalUpsert(ToEntity(x))]
  {
    var dao := new ProductDao();
    var remote := new RemoteStore(map[x.id := x]);
    repository := new ProductRepository(dao, remote);
    repository.ApplySnapshot([x]);
    MirrorLastWins(map[], [x], 0);
    assert MirrorOps([x]) == [LocalUpsert(ToEntity(x))];
  }
}

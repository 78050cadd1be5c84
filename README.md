# SmartShop product core, modelled in Dafny

SmartShop is an Android inventory app. Its product data lives in two stores:
a local Room table `products` and a remote Firestore collection `products`.
This project models the four pieces of sequential logic beneath the screens.

- **The local table** (`ProductDao`) is a map keyed by the primary key `id`.
  `upsert` inserts a row or replaces the row with that id. `delete` removes
  the row with the entity's id. The lookup by id yields the row or nothing.
  The listing holds every row once, ordered by name under SQLite's BINARY
  collation (code-point order).
- **The synchronising repository** (`ProductRepositoryImpl`) holds the table
  and the remote collection. Writes go to the remote store first. The local
  step runs only if the remote write is confirmed. A mirror, started by
  `init`, upserts every product of each remote snapshot into the table, in
  list order, and never deletes. Reads come from the table, mapped through
  `toProduct`. A ghost log `ops` records every call made on either store, in
  order.
- **The detail screen** (`ProductDetailViewModel`) is the tagged union
  `Loading | Success(Product?) | Error(message) | Finished`. It covers the
  `init` transition, the validation and save path of `saveProduct` and the
  guarded `deleteProduct`. A ghost `trace` records every value the state
  takes.
- **The list screen** (`ProductListViewModel`) is `Loading`, then
  `Success(list)` on each emission, or a final `Error(message)`. The stream
  is a sequence of events, and a fold `Run` defines the screen after them.
  The class keeps its state equal to the fold of the events delivered so far.

Modules: `Wrappers` (Option, Outcome), `Products` (the record, the mappers,
`Int32`), `Collation` (the text order of the table), `StringConversions`
(Kotlin's `isBlank`, `toIntOrNull` and `Int.toString`), `Dao`, `Remote`,
`Repository`, `DetailViewModel`, `ListViewModel`, and `Scenarios` (whole flows
proved from the parts' contracts).

Inputs the program does not decide are parameters:
- `reachable`: whether the remote store confirms a write.
- `parsePrice`: Kotlin's `String.toDoubleOrNull`.
- `freshId`: the UUID generated for a new product.
- The snapshots and events the streams deliver.

## Model

| member | source | states |
|---|---|---|
| `Products.ToProduct` | app/src/main/java/com/omar/smartshop/data/repository/ProductRepositoryImpl.kt:76-83 | mapping a row to a product and back gives the same row |
| `Products.ToEntity` | app/src/main/java/com/omar/smartshop/data/repository/ProductRepositoryImpl.kt:88-95 | the row keeps the product's id as its primary key; `ToProduct` undoes it and `MappersInverse` gives both round trips |
| `Products.MappersInverse` | app/src/main/java/com/omar/smartshop/data/repository/ProductRepositoryImpl.kt:76-95 | `toProduct(toEntity(p)) == p` and `toEntity(toProduct(e)) == e`; the id is kept |
| `Collation.LessTotal` | app/src/main/java/com/omar/smartshop/data/local/dao/ProductDao.kt:47 | the order of `ORDER BY name` compares any two names |
| `Collation.LessTransitive` | app/src/main/java/com/omar/smartshop/data/local/dao/ProductDao.kt:47 | the order of `ORDER BY name` is transitive |
| `Collation.LessIrreflexive` | app/src/main/java/com/omar/smartshop/data/local/dao/ProductDao.kt:47 | no name sorts strictly before itself |
| `StringConversions.IsWhitespace` | app/src/main/java/com/omar/smartshop/ui/products/ProductDetailViewModel.kt:52 | the JVM whitespace set used by `isBlank()`: it holds space, tab, newline and carriage return, and never a digit or a sign; `BlankExamples` gives the Unicode members |
| `StringConversions.IsBlank` | app/src/main/java/com/omar/smartshop/ui/products/ProductDetailViewModel.kt:52 | `isBlank()`: the empty text is blank, and blank text holds no digit; `BlankExamples` and `BlankNeverParses` give its behaviour on sample texts and on quantities |
| `StringConversions.BlankExamples` | app/src/main/java/com/omar/smartshop/ui/products/ProductDetailViewModel.kt:52 | empty text and text of ASCII or Unicode whitespace (no-break space, ideographic space) is blank; text with a letter or a digit is not |
| `StringConversions.BlankNeverParses` | app/src/main/java/com/omar/smartshop/ui/products/ProductDetailViewModel.kt:49-52 | blank quantity text never parses as a number, so the refusal by `isBlank` and by `toIntOrNull` agree on it |
| `StringConversions.ToIntOrNull` | app/src/main/java/com/omar/smartshop/ui/products/ProductDetailViewModel.kt:50 | a parsed quantity comes from non-empty text, lies in the 32-bit range, and is negative only after a leading `-` |
| `StringConversions.QuantityTextRoundTrip` | app/src/main/java/com/omar/smartshop/ui/products/ProductDetailViewModel.kt:50 | every `Int` parses back from its `toString()` text unchanged |
| `StringConversions.NatToStringDigits` | app/src/main/java/com/omar/smartshop/ui/products/ProductDetailViewModel.kt:50 | the decimal text of a natural number is non-empty digits whose value is the number |
| `StringConversions.ToIntOrNullExamples` | app/src/main/java/com/omar/smartshop/ui/products/ProductDetailViewModel.kt:50 | "5", "+5" and "-1" parse; "", "-" and "abc" do not |
| `StringConversions.ToIntOrNullRangeEdges` | app/src/main/java/com/omar/smartshop/ui/products/ProductDetailViewModel.kt:50 | both ends of the 32-bit range parse; one past either end does not |
| `Dao.Lookup` | app/src/main/java/com/omar/smartshop/data/local/dao/ProductDao.kt:33-40 | the lookup is empty exactly when no row has the id; otherwise it is a row of the table with that id |
| `Dao.TableUpsert` | app/src/main/java/com/omar/smartshop/data/local/dao/ProductDao.kt:16-23 | afterwards the lookup of the entity's id gives the entity; every other id looks up as before; the table stays keyed by id |
| `Dao.TableDelete` | app/src/main/java/com/omar/smartshop/data/local/dao/ProductDao.kt:25-31 | afterwards the entity's id looks up as absent; every other id looks up as before |
| `Dao.UpsertIdempotent` | app/src/main/java/com/omar/smartshop/data/local/dao/ProductDao.kt:16-23 | applying the same upsert twice gives the table of applying it once |
| `Dao.UpsertRowCount` | app/src/main/java/com/omar/smartshop/data/local/dao/ProductDao.kt:16-23 | an upsert of a known id replaces (row count unchanged); of a new id inserts (one more row) |
| `Dao.DeleteAfterUpsert` | app/src/main/java/com/omar/smartshop/data/local/dao/ProductDao.kt:16-31 | deleting a row just upserted leaves the table as deleting it directly |
| `Dao.Insert` | app/src/main/java/com/omar/smartshop/data/local/dao/ProductDao.kt:47 | placing a row into the listing adds exactly that row: the multiset of entries gains it once and nothing else changes |
| `Dao.InsertOrdered` | app/src/main/java/com/omar/smartshop/data/local/dao/ProductDao.kt:47 | placing a row with a new id into an ordered listing keeps it ordered |
| `Dao.Listing` | app/src/main/java/com/omar/smartshop/data/local/dao/ProductDao.kt:42-48 | the listing has as many entries as the table has rows |
| `Dao.ListingListsTable` | app/src/main/java/com/omar/smartshop/data/local/dao/ProductDao.kt:42-48 | every listed entry is a row of the table, every row is listed, and the listing is strictly ordered |
| `Dao.ListingByName` | app/src/main/java/com/omar/smartshop/data/local/dao/ProductDao.kt:42-48 | the listing is ascending by name, and no id appears twice |
| `Dao.ProductDao.constructor` | app/src/main/java/com/omar/smartshop/data/local/entity/ProductEntity.kt:14-21 | a new table is empty and keyed by id |
| `Dao.ProductDao.Upsert` | app/src/main/java/com/omar/smartshop/data/local/dao/ProductDao.kt:16-23 | the table becomes the upsert of the old table; it stays keyed by id |
| `Dao.ProductDao.Delete` | app/src/main/java/com/omar/smartshop/data/local/dao/ProductDao.kt:25-31 | the table becomes the old table without the entity's id |
| `Dao.ProductDao.GetProductById` | app/src/main/java/com/omar/smartshop/data/local/dao/ProductDao.kt:33-40 | null exactly when the id is absent; otherwise the row stored under the id, which carries that id |
| `Dao.ProductDao.GetAllProducts` | app/src/main/java/com/omar/smartshop/data/local/dao/ProductDao.kt:42-48 | every listed entry is a row, every row is listed, no id twice, ascending by name; no order among equal names is promised |
| `Remote.RemoteStore.SaveProduct` | app/src/main/java/com/omar/smartshop/data/service/FirestoreServiceImpl.kt:24-27 | a confirmed save sets the document named by the product's id; a failed one changes nothing |
| `Remote.RemoteStore.DeleteProduct` | app/src/main/java/com/omar/smartshop/data/service/FirestoreServiceImpl.kt:29-31 | a confirmed delete removes the document with the id; a failed one changes nothing |
| `Repository.UpsertOps` | app/src/main/java/com/omar/smartshop/data/repository/ProductRepositoryImpl.kt:57-63 | the remote save is the first call, and the local upsert is made exactly when the save is confirmed |
| `Repository.DeleteOps` | app/src/main/java/com/omar/smartshop/data/repository/ProductRepositoryImpl.kt:65-70 | the remote delete by id is the first call, and the local delete is made exactly when it is confirmed |
| `Repository.SnapshotIds` | app/src/main/java/com/omar/smartshop/data/repository/ProductRepositoryImpl.kt:39-41 | the ids of a snapshot are exactly the ids its entries carry |
| `Repository.Mirror` | app/src/main/java/com/omar/smartshop/data/repository/ProductRepositoryImpl.kt:39-41 | the table after upserting every entry in list order: it stays keyed by id and holds the last entry under its id; `MirrorKeepsRows`, `MirrorLastWins` and `MirrorLeavesOthers` give its other properties |
| `Repository.MirrorStep` | app/src/main/java/com/omar/smartshop/data/repository/ProductRepositoryImpl.kt:39-41 | handling one more entry of the snapshot is one more upsert of that entry and one more logged call |
| `Repository.MirrorOps` | app/src/main/java/com/omar/smartshop/data/repository/ProductRepositoryImpl.kt:39-41 | the mirror makes one local upsert per snapshot entry |
| `Repository.MirrorOpsInOrder` | app/src/main/java/com/omar/smartshop/data/repository/ProductRepositoryImpl.kt:39-41 | the i-th local upsert of the mirror is of the i-th snapshot entry |
| `Repository.MirrorKeepsRows` | app/src/main/java/com/omar/smartshop/data/repository/ProductRepositoryImpl.kt:33-43 | the local ids after a snapshot are the ids before plus the snapshot's ids: nothing is deleted |
| `Repository.MirrorLeavesOthers` | app/src/main/java/com/omar/smartshop/data/repository/ProductRepositoryImpl.kt:39-41 | rows whose id the snapshot does not mention are unchanged |
| `Repository.MirrorLastWins` | app/src/main/java/com/omar/smartshop/data/repository/ProductRepositoryImpl.kt:39-41 | for an id the snapshot repeats, the last entry's values are kept |
| `Repository.MirrorAgreeing` | app/src/main/java/com/omar/smartshop/data/repository/ProductRepositoryImpl.kt:39-41 | if all snapshot entries with an id agree, the table holds their values under that id |
| `Repository.MirrorCoversRemote` | app/src/main/java/com/omar/smartshop/data/repository/ProductRepositoryImpl.kt:33-43 | a snapshot of exactly the remote documents, in any order, puts every remote document into the table with its values |
| `Repository.ToProducts` | app/src/main/java/com/omar/smartshop/data/repository/ProductRepositoryImpl.kt:46-51 | `map { it.toProduct() }` keeps the length, and each product maps back to the row at its position |
| `Repository.MappedIdsDistinct` | app/src/main/java/com/omar/smartshop/data/repository/ProductRepositoryImpl.kt:46-51 | mapping rows with distinct ids gives products with distinct ids |
| `Repository.ListedProducts` | app/src/main/java/com/omar/smartshop/data/repository/ProductRepositoryImpl.kt:46-51 | mapping the listing through `toProduct` keeps its rows, count, distinct ids and name order |
| `Repository.ProductRepository.constructor` | app/src/main/java/com/omar/smartshop/data/repository/ProductRepositoryImpl.kt:22-25 | the repository holds the given table and remote store and has made no store calls |
| `Repository.ProductRepository.ApplySnapshot` | app/src/main/java/com/omar/smartshop/data/repository/ProductRepositoryImpl.kt:30-44 | one snapshot upserts each entry into the table, in list order (the `Mirror` fold); the only calls are those upserts |
| `Repository.ProductRepository.GetAllProducts` | app/src/main/java/com/omar/smartshop/data/repository/ProductRepositoryImpl.kt:46-51 | exactly the local rows mapped through `toProduct`: each once (no id twice), ascending by name |
| `Repository.ProductRepository.GetProductById` | app/src/main/java/com/omar/smartshop/data/repository/ProductRepositoryImpl.kt:53-55 | null exactly when the table lacks the id; otherwise the mapped row, which carries that id |
| `Repository.ProductRepository.UpsertProduct` | app/src/main/java/com/omar/smartshop/data/repository/ProductRepositoryImpl.kt:57-63 | the remote save is made first, and the local upsert only after it is confirmed; then the lookup of the id yields the product and other ids look up as before; on failure neither store changes |
| `Repository.ProductRepository.DeleteProduct` | app/src/main/java/com/omar/smartshop/data/repository/ProductRepositoryImpl.kt:65-70 | the remote delete by id is made first, and the local delete only after it is confirmed; then the id looks up as absent and others as before; on failure neither store changes |
| `DetailViewModel.ValidateInput` | app/src/main/java/com/omar/smartshop/ui/products/ProductDetailViewModel.kt:48-52 | accepted input has a non-blank name, a price above zero and a quantity of at least zero, each as typed and parsed; refused input fails one of these checks |
| `DetailViewModel.ValidationRejects` | app/src/main/java/com/omar/smartshop/ui/products/ProductDetailViewModel.kt:48-60 | a blank name, a price of "-1", a quantity of "-1" and a price of "abc" are each refused |
| `DetailViewModel.ValidationAccepts` | app/src/main/java/com/omar/smartshop/ui/products/ProductDetailViewModel.kt:48-52 | "Widget", "9.99", "3" is accepted as typed |
| `DetailViewModel.ProductDetailViewModel.constructor` | app/src/main/java/com/omar/smartshop/ui/products/ProductDetailViewModel.kt:28-38 | without an id the state goes from `Loading` to `Success(null)`; with one it stays `Loading` |
| `DetailViewModel.ProductDetailViewModel.OnProductEmitted` | app/src/main/java/com/omar/smartshop/ui/products/ProductDetailViewModel.kt:40-46 | each emission of the lookup shows `Success` of the product the repository holds under the id |
| `DetailViewModel.ProductDetailViewModel.SaveProduct` | app/src/main/java/com/omar/smartshop/ui/products/ProductDetailViewModel.kt:48-72 | refused input shows the invalid-input error, then the form again; neither store changes and no store call is made. Accepted input calls `upsertProduct` once, with the screen's id or the fresh one and the parsed fields. When confirmed, the local table is the old one with that row upserted and the remote document is set; `Finished` is shown only then. If it fails, neither store nor the state changes |
| `DetailViewModel.ProductDetailViewModel.DeleteProduct` | app/src/main/java/com/omar/smartshop/ui/products/ProductDetailViewModel.kt:74-88 | without an id nothing happens: no store call, neither store changes, the state stays. With one: if a product is shown, exactly it is deleted; when confirmed, the local table is the old one without that row and the remote document is gone, then `Finished`. Otherwise the not-found error is shown and no store call is made |
| `ListViewModel.Run` | app/src/main/java/com/omar/smartshop/ui/products/ProductListViewModel.kt:36-45 | the screen after the events, oldest first: until the first `Start` the collection has not begun and the screen is the initial `Loading`; `ErrorIffEnded`, `EndedIsFinal` and `ShowsLatestEmission` give its other properties, and `ProductListViewModel.Valid()` ties the class to it |
| `ListViewModel.Step` | app/src/main/java/com/omar/smartshop/ui/products/ProductListViewModel.kt:36-45 | once the collection has ended, no event changes the screen |
| `ListViewModel.ErrorIffEnded` | app/src/main/java/com/omar/smartshop/ui/products/ProductListViewModel.kt:36-45 | the screen shows an error exactly when the collection has ended |
| `ListViewModel.EndedIsFinal` | app/src/main/java/com/omar/smartshop/ui/products/ProductListViewModel.kt:36-45 | after the error no later event changes the screen |
| `ListViewModel.ShowsLatestEmission` | app/src/main/java/com/omar/smartshop/ui/products/ProductListViewModel.kt:42-44 | a successful screen shows the most recent emitted list, and only while collecting |
| `ListViewModel.EmissionShown` | app/src/main/java/com/omar/smartshop/ui/products/ProductListViewModel.kt:17-21 | every emission while collecting shows `Success` of exactly that list, however many came before |
| `ListViewModel.ProductListViewModel.constructor` | app/src/main/java/com/omar/smartshop/ui/products/ProductListViewModel.kt:28 | the initial state is `Loading` |
| `ListViewModel.ProductListViewModel.OnStart` | app/src/main/java/com/omar/smartshop/ui/products/ProductListViewModel.kt:38 | starting the collection shows `Loading` |
| `ListViewModel.ProductListViewModel.OnEmit` | app/src/main/java/com/omar/smartshop/ui/products/ProductListViewModel.kt:42-44 | an emission while collecting shows `Success` of exactly that list; after the end it changes nothing |
| `ListViewModel.ProductListViewModel.OnFail` | app/src/main/java/com/omar/smartshop/ui/products/ProductListViewModel.kt:39-41 | a failure shows `Error` with the exception's message, or "An unknown error occurred", and ends the collection |
| `Scenarios.NewProductFlow` | app/src/main/java/com/omar/smartshop/ui/products/ProductDetailViewModel.kt:62-70 | a new product saved while reachable ends in `Finished`; both stores then hold exactly that product under the fresh id, and it is listed |
| `Scenarios.FailedSaves` | app/src/main/java/com/omar/smartshop/data/repository/ProductRepositoryImpl.kt:57-63 | a refused input and an unconfirmed save leave both stores as they were, and the form is still shown |
| `Scenarios.RemoteAdditionMirrored` | app/src/main/java/com/omar/smartshop/data/repository/ProductRepositoryImpl.kt:33-43 | a remote product reaches the local table through the mirror alone |

## Left out

- DetailViewModel.ValidateInput: the price is a real number, and `toDoubleOrNull` is the parameter `parsePrice`. A Kotlin `Double` can also be NaN or infinite. `"NaN".toDoubleOrNull()` is NaN, and `NaN <= 0` is false, so the source accepts a NaN price. The model has no NaN, so its "price above zero" on accepted input is stronger than what the code guarantees.
- StringConversions.ToIntOrNull: accepts ASCII digits only. On the JVM, `toIntOrNull` reads digits through `Character.digit`, which also accepts other Unicode decimal digits, such as Arabic-Indic ones.
- Dao.Listing: `ORDER BY name` leaves rows with equal names in no fixed order. The ghost `Listing` has to pick one and breaks such ties by id, and `ListingListsTable` states that internal order. The contracts of `ProductDao.GetAllProducts` and `ProductRepository.GetAllProducts` state only rows, distinct ids and the order by name, so nothing that uses them depends on the tie order.
- Coroutines and flows: each `viewModelScope.launch` block runs to completion within the call that launches it. A flow is modelled as its emissions: one `OnProductEmitted` or `OnEmit` call per emission, and one `ApplySnapshot` call per remote snapshot. Interleavings are not modelled. That includes the mirror's echo against the repository's own upsert, and a `deleteProduct` coroutine reading a state that changed after launch.
- DetailViewModel.ProductDetailViewModel.SaveProduct: after a refused save with an id, `loadProduct` starts a second collector. The model shows its first emission, the current lookup, right away. The first collector keeps running.
- `Finished` is not final: the lookup collector is never cancelled, so a later emission (for example the empty lookup after a delete) can replace `Finished` with `Success`. The model allows this through `OnProductEmitted`.
- An exception from the repository inside a launched coroutine is uncaught in the source. The model returns it as `Fail` and leaves the screen state unchanged; the crash it causes is not modelled.
- Remote store: a write that is not confirmed is modelled as not applied. The network, authentication and Firestore's own retry and offline cache are not modelled. The snapshot stream `FirestoreService.products` is the argument of `ApplySnapshot`.
- UUID generation is the parameter `freshId`; its uniqueness is not modelled. A fresh id equal to an existing one would replace that row, as the code would.
- The dashboard's `getTotalProductCount()` and `getTotalStockValue()` are not declared by `ProductRepository` nor implemented by `ProductRepositoryImpl`. There is no behaviour to model.
- Compose screens, navigation, currency formatting, dependency wiring (`AppContainer`, `ViewModelFactory`, `SmartShopApplication`) and the Room database singleton (`SmartShopDatabase`) are outside this model.

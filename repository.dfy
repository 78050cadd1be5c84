/**
 * The synchronising repository: the single source of truth of product data,
 * orchestrating the local table and the remote collection. Writes go to the
 * remote store first and to the local table second; a write the remote
 * store does not confirm never reaches the local table. A mirror, started
 * when the repository is created, upserts every product of each remote
 * snapshot into the local table. Reads come from the local table only.
 */
module Repository {
  import opened Wrappers
  import opened Products
  import opened Dao
  import opened Remote
  import Collation

  /** One call the repository makes on one of its two stores. */
  datatype StoreOp =
    | RemoteSave(product: Product)
    | RemoteDelete(id: string)
    | LocalUpsert(row: ProductEntity)
    | LocalDelete(row: ProductEntity)

  /** The calls `upsertProduct(product)` makes, when the remote save is confirmed or not. */
  function UpsertOps(product: Product, confirmed: bool): (r: seq<StoreOp>)
    ensures |r| > 0 && r[0] == RemoteSave(product)
    ensures confirmed <==> LocalUpsert(ToEntity(product)) in r
  {
    [RemoteSave(product)] + if confirmed then [LocalUpsert(ToEntity(product))] else []
  }

  /** The calls `deleteProduct(product)` makes, when the remote delete is confirmed or not. */
  function DeleteOps(product: Product, confirmed: bool): (r: seq<StoreOp>)
    ensures |r| > 0 && r[0] == RemoteDelete(product.id)
    ensures confirmed <==> LocalDelete(ToEntity(product)) in r
  {
    [RemoteDelete(product.id)] + if confirmed then [LocalDelete(ToEntity(product))] else []
  }

  // ---- The mirror: `remoteProducts.forEach { dao.upsert(it.toEntity()) }` ----

  /** The local table after upserting every product of `snapshot`, in list order. */
  function Mirror(t: Table, snapshot: seq<Product>): (r: Table)
    requires Keyed(t)
    ensures Keyed(r)
    ensures snapshot != [] ==>
      Lookup(r, snapshot[|snapshot| - 1].id) == Some(ToEntity(snapshot[|snapshot| - 1]))
    decreases |snapshot|
  {
    if snapshot == [] then t
    else TableUpsert(Mirror(t, snapshot[..|snapshot| - 1]), ToEntity(snapshot[|snapshot| - 1]))
  }

  /** One more entry of the snapshot is one more upsert, and one more logged call. */
  lemma MirrorStep(t: Table, snapshot: seq<Product>, i: nat)
    requires Keyed(t) && i < |snapshot|
    ensures Mirror(t, snapshot[..i + 1]) == TableUpsert(Mirror(t, snapshot[..i]), ToEntity(snapshot[i]))
    ensures MirrorOps(snapshot[..i + 1]) == MirrorOps(snapshot[..i]) + [LocalUpsert(ToEntity(snapshot[i]))]
  {
    assert snapshot[..i + 1][..i] == snapshot[..i];
  }

  /** The local upserts the mirror makes for `snapshot`, one per entry, in list order. */
  function MirrorOps(snapshot: seq<Product>): (r: seq<StoreOp>)
    ensures |r| == |snapshot|
    decreases |snapshot|
  {
    if snapshot == [] then []
    else MirrorOps(snapshot[..|snapshot| - 1]) + [LocalUpsert(ToEntity(snapshot[|snapshot| - 1]))]
  }

  lemma {:induction false} MirrorOpsInOrder(snapshot: seq<Product>, i: nat)
    requires i < |snapshot|
    ensures MirrorOps(snapshot)[i] == LocalUpsert(ToEntity(snapshot[i]))
    decreases |snapshot|
  {
    if i < |snapshot| - 1 {
      MirrorOpsInOrder(snapshot[..|snapshot| - 1], i);
    }
  }

  /** The ids the entries of `snapshot` carry: exactly those of its entries. */
  function SnapshotIds(snapshot: seq<Product>): (r: set<string>)
    ensures forall j :: 0 <= j < |snapshot| ==> snapshot[j].id in r
    ensures forall id :: id in r ==> exists j :: 0 <= j < |snapshot| && snapshot[j].id == id
    decreases |snapshot|
  {
    if snapshot == [] then {}
    else
      var front := snapshot[..|snapshot| - 1];
      assert forall j :: 0 <= j < |front| ==> front[j] == snapshot[j];
      SnapshotIds(front) + {snapshot[|snapshot| - 1].id}
  }

  /**
   * The mirror never deletes: the local ids afterwards are the ids before it
   * together with the ids of the snapshot.
   */
  lemma {:induction false} MirrorKeepsRows(t: Table, snapshot: seq<Product>)
    requires Keyed(t)
    ensures Mirror(t, snapshot).Keys == t.Keys + SnapshotIds(snapshot)
    ensures t.Keys <= Mirror(t, snapshot).Keys
    decreases |snapshot|
  {
    if snapshot != [] {
      MirrorKeepsRows(t, snapshot[..|snapshot| - 1]);
    }
  }

  /** Rows whose id the snapshot does not mention are left as they were. */
  lemma {:induction false} MirrorLeavesOthers(t: Table, snapshot: seq<Product>, id: string)
    requires Keyed(t)
    requires forall j :: 0 <= j < |snapshot| ==> snapshot[j].id != id
    ensures Lookup(Mirror(t, snapshot), id) == Lookup(t, id)
    decreases |snapshot|
  {
    if snapshot != [] {
      MirrorLeavesOthers(t, snapshot[..|snapshot| - 1], id);
    }
  }

  /**
   * Upserts are applied in list order: when the snapshot holds an id more than
   * once, the last entry with that id is the row the table keeps.
   */
  lemma {:induction false} MirrorLastWins(t: Table, snapshot: seq<Product>, i: nat)
    requires Keyed(t)
    requires i < |snapshot|
    requires forall j :: i < j < |snapshot| ==> snapshot[j].id != snapshot[i].id
    ensures Lookup(Mirror(t, snapshot), snapshot[i].id) == Some(ToEntity(snapshot[i]))
    decreases |snapshot|
  {
    if i < |snapshot| - 1 {
      MirrorLastWins(t, snapshot[..|snapshot| - 1], i);
    }
  }

  /** If every entry of the snapshot with id `id` maps to row `e`, the table ends up holding `e`. */
  lemma {:induction false} MirrorAgreeing(t: Table, snapshot: seq<Product>, id: string, e: ProductEntity)
    requires Keyed(t)
    requires exists j :: 0 <= j < |snapshot| && snapshot[j].id == id
    requires forall j :: 0 <= j < |snapshot| && snapshot[j].id == id ==> ToEntity(snapshot[j]) == e
    ensures Lookup(Mirror(t, snapshot), id) == Some(e)
    decreases |snapshot|
  {
    var n := |snapshot| - 1;
    if snapshot[n].id != id {
      var j :| 0 <= j < |snapshot| && snapshot[j].id == id;
      assert snapshot[..n][j] == snapshot[j];
      MirrorAgreeing(t, snapshot[..n], id, e);
    }
  }

  /**
   * A snapshot that lists exactly the remote documents leaves every remote
   * document in the local table with the remote field values, whatever the
   * order of the snapshot.
   */
  lemma MirrorCoversRemote(t: Table, documents: map<string, Product>, snapshot: seq<Product>)
    requires Keyed(t)
    requires forall i :: 0 <= i < |snapshot| ==> snapshot[i].id in documents && documents[snapshot[i].id] == snapshot[i]
    requires forall id :: id in documents ==> documents[id].id == id && documents[id] in snapshot
    ensures forall id :: id in documents ==> Lookup(Mirror(t, snapshot), id) == Some(ToEntity(documents[id]))
  {
    forall id | id in documents
      ensures Lookup(Mirror(t, snapshot), id) == Some(ToEntity(documents[id]))
    {
      var j :| 0 <= j < |snapshot| && snapshot[j] == documents[id];
      MirrorAgreeing(t, snapshot, id, ToEntity(documents[id]));
    }
  }

  /** No id appears twice in `ps`. */
  ghost predicate DistinctProductIds(ps: seq<Product>)
  {
    forall i, j :: 0 <= i < j < |ps| ==> ps[i].id != ps[j].id
  }

  /**
   * `ps` is what the repository lists for table `t`: every row of `t`
   * mapped through `toProduct` exactly once, nothing else, ascending by name.
   */
  ghost predicate ListsProducts(ps: seq<Product>, t: Table)
  {
    && |ps| == |t|
    && (forall i :: 0 <= i < |ps| ==> ps[i].id in t && ToEntity(ps[i]) == t[ps[i].id])
    && (forall k :: k in t ==> ToProduct(t[k]) in ps)
    && DistinctProductIds(ps)
    && (forall i, j :: 0 <= i < j < |ps| ==> Collation.LessOrEqual(ps[i].name, ps[j].name))
  }

  /** `map { it.toProduct() }` over a list of rows. */
  function ToProducts(rows: seq<ProductEntity>): (r: seq<Product>)
    ensures |r| == |rows| && forall i :: 0 <= i < |r| ==> ToEntity(r[i]) == rows[i]
  {
    seq(|rows|, i requires 0 <= i < |rows| => ToProduct(rows[i]))
  }

  /** Mapping the listing through `toProduct` keeps its rows, its count, its distinct ids and its order by name. */
  lemma ListedProducts(rows: seq<ProductEntity>, t: Table)
    requires |rows| == |t| && ListsRows(rows, t)
    requires DistinctIds(rows)
    requires forall i, j :: 0 <= i < j < |rows| ==> Collation.LessOrEqual(rows[i].name, rows[j].name)
    ensures ListsProducts(ToProducts(rows), t)
  {
    var r := ToProducts(rows);
    MappedIdsDistinct(rows);
    forall i | 0 <= i < |r| ensures r[i].id in t && ToEntity(r[i]) == t[r[i].id] {
      assert ToEntity(r[i]) == rows[i];
    }
    forall k | k in t ensures ToProduct(t[k]) in r {
      var i :| 0 <= i < |rows| && rows[i] == t[k];
      assert r[i] == ToProduct(t[k]);
    }
    forall i, j | 0 <= i < j < |r| ensures Collation.LessOrEqual(r[i].name, r[j].name) {
      assert r[i].name == rows[i].name && r[j].name == rows[j].name;
    }
  }

  /** `toProduct` keeps ids, so a listing with distinct ids maps to products with distinct ids. */
  lemma MappedIdsDistinct(rows: seq<ProductEntity>)
    requires DistinctIds(rows)
    ensures DistinctProductIds(ToProducts(rows))
  {
    var r := ToProducts(rows);
    forall i, j | 0 <= i < j < |r| ensures r[i].id != r[j].id {
      assert r[i].id == rows[i].id && r[j].id == rows[j].id;
    }
  }

  class ProductRepository {
    const dao: ProductDao
    const remote: RemoteStore
    /** Every call made on the two stores, oldest first. */
    ghost var ops: seq<StoreOp>

    ghost predicate Valid()
      reads this, dao
    {
      dao.Valid()
    }

    constructor (dao: ProductDao, remote: RemoteStore)
      requires dao.Valid()
      ensures Valid() && this.dao == dao && this.remote == remote && ops == []
    {
      this.dao := dao;
      this.remote := remote;
      ops := [];
    }

    /** One emission of the remote collection, as the mirror started by `init` handles it. */
    method ApplySnapshot(snapshot: seq<Product>)
      requires Valid()
      modifies this, dao
      ensures Valid()
      ensures dao.products == Mirror(old(dao.products), snapshot)
      ensures ops == old(ops) + MirrorOps(snapshot)
    {
      ghost var before, logged := dao.products, ops;
      var i := 0;
      while i < |snapshot|
        invariant 0 <= i <= |snapshot|
        invariant dao.Valid()
        invariant dao.products == Mirror(before, snapshot[..i])
        invariant ops == logged + MirrorOps(snapshot[..i])
      {
        MirrorStep(before, snapshot, i);
        dao.Upsert(ToEntity(snapshot[i]));
        ops := ops + [LocalUpsert(ToEntity(snapshot[i]))];
        i := i + 1;
      }
      assert snapshot[..i] == snapshot;
    }

    /** The list `getAllProducts()` emits: the local rows, mapped, in the table's listing order. */
    ghost function GetAllProducts(): (r: seq<Product>)
      reads this, dao
      requires Valid()
      ensures ListsProducts(r, dao.products)
    {
      var rows := dao.GetAllProducts();
      ListedProducts(rows, dao.products);
      ToProducts(rows)
    }

    /** The value `getProductById(id)` emits: the local row, mapped, or nothing. */
    function GetProductById(id: string): (r: Option<Product>)
      reads this, dao
      requires Valid()
      ensures r.None? <==> id !in dao.products
      ensures r.Some? ==> r.value.id == id && ToEntity(r.value) == dao.products[id]
    {
      match dao.GetProductById(id)
      case None => None
      case Some(e) => Some(ToProduct(e))
    }

    /** `upsertProduct(product)`: remote save first, then the local upsert if the save was confirmed. */
    method UpsertProduct(product: Product, reachable: bool) returns (r: Outcome<RemoteError>)
      requires Valid()
      modifies this, dao, remote
      ensures Valid()
      ensures r.Pass? <==> reachable
      ensures ops == old(ops) + UpsertOps(product, r.Pass?)
      ensures r.Pass? ==> remote.documents == old(remote.documents)[product.id := product]
      ensures r.Pass? ==> dao.products == TableUpsert(old(dao.products), ToEntity(product))
      ensures r.Pass? ==> GetProductById(product.id) == Some(product)
      ensures r.Pass? ==> forall id :: id != product.id ==> GetProductById(id) == old(GetProductById(id))
      ensures r.Fail? ==> remote.documents == old(remote.documents) && dao.products == old(dao.products)
    {
      r := remote.SaveProduct(product, reachable);
      ops := ops + [RemoteSave(product)];
      if r.Fail? {
        return;
      }
      dao.Upsert(ToEntity(product));
      ops := ops + [LocalUpsert(ToEntity(product))];
    }

    /** `deleteProduct(product)`: remote delete by id first, then the local delete if it was confirmed. */
    method DeleteProduct(product: Product, reachable: bool) returns (r: Outcome<RemoteError>)
      requires Valid()
      modifies this, dao, remote
      ensures Valid()
      ensures r.Pass? <==> reachable
      ensures ops == old(ops) + DeleteOps(product, r.Pass?)
      ensures r.Pass? ==> remote.documents == old(remote.documents) - {product.id}
      ensures r.Pass? ==> dao.products == TableDelete(old(dao.products), ToEntity(product))
      ensures r.Pass? ==> GetProductById(product.id) == None
      ensures r.Pass? ==> forall id :: id != product.id ==> GetProductById(id) == old(GetProductById(id))
      ensures r.Fail? ==> remote.documents == old(remote.documents) && dao.products == old(dao.products)
    {
      r := remote.DeleteProduct(product.id, reachable);
      ops := ops + [RemoteDelete(product.id)];
      if r.Fail? {
        return;
      }
      dao.Delete(ToEntity(product));
      ops := ops + [LocalDelete(ToEntity(product))];
    }
  }
}
